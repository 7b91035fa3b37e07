/**
 The dashboard's statistics: pure aggregations over the three collections,
 recomputed on every render.

 The unit prices and the sales roster are constants of the application that
 are not part of this model; they are parameters here. Totals are numbers
 (amounts in centavos); their currency formatting is presentation only.
 */
module Dashboard {
  import opened Records
  import opened Types

  // ---------------------------------------------------------------------------
  // DITO applications
  // ---------------------------------------------------------------------------

  /** `ditoData.filter(app => app.status === st)` */
  function WithStatus(apps: seq<DitoApplication>, st: Status): (r: seq<DitoApplication>)
    ensures |r| <= |apps|
    ensures forall a :: a in r ==> a.status == st
  {
    if |apps| == 0 then []
    else (if apps[0].status == st then [apps[0]] else []) + WithStatus(apps[1..], st)
  }

  /** The filter keeps every application of the status, as many times as it occurs, and no other. */
  lemma {:induction false} WithStatusContents(apps: seq<DitoApplication>, st: Status)
    ensures forall a :: multiset(WithStatus(apps, st))[a] == if a.status == st then multiset(apps)[a] else 0
  {
    if |apps| > 0 {
      WithStatusContents(apps[1..], st);
      assert apps == [apps[0]] + apps[1..];
    }
  }

  /** The status filter distributes over concatenation. */
  lemma {:induction false} WithStatusConcat(a: seq<DitoApplication>, b: seq<DitoApplication>, st: Status)
    ensures WithStatus(a + b, st) == WithStatus(a, st) + WithStatus(b, st)
  {
    if |a| == 0 {
      assert a + b == b;
    } else {
      assert (a + b)[0] == a[0];
      assert (a + b)[1..] == a[1..] + b;
      WithStatusConcat(a[1..], b, st);
      var h := if a[0].status == st then [a[0]] else [];
      calc {
        WithStatus(a + b, st);
        h + WithStatus(a[1..] + b, st);
        h + (WithStatus(a[1..], st) + WithStatus(b, st));
        (h + WithStatus(a[1..], st)) + WithStatus(b, st);
      }
    }
  }

  /** Every application is either approved or pending, never both. */
  lemma {:induction false} StatusPartition(apps: seq<DitoApplication>)
    ensures |WithStatus(apps, Approved)| + |WithStatus(apps, Pending)| == |apps|
  {
    if |apps| > 0 {
      StatusPartition(apps[1..]);
    }
  }

  datatype DitoStats = DitoStats(totalSales: int, totalApplications: nat, totalApproved: nat, totalPending: nat)

  /** `ditoStats`: the counts by status, and the sales of the approved applications. */
  function ComputeDitoStats(apps: seq<DitoApplication>, ditoPrice: int): (s: DitoStats)
    ensures s.totalApplications == |apps|
    ensures s.totalApproved + s.totalPending == s.totalApplications
    ensures s.totalSales == s.totalApproved * ditoPrice
    ensures s.totalApproved == |WithStatus(apps, Approved)| && s.totalPending == |WithStatus(apps, Pending)|
  {
    StatusPartition(apps);
    var approved := WithStatus(apps, Approved);
    var pending := WithStatus(apps, Pending);
    DitoStats(|approved| * ditoPrice, |apps|, |approved|, |pending|)
  }

  /** Approving one more application adds exactly one unit price to the sales; a pending one adds nothing. */
  lemma DitoSalesGrowth(apps: seq<DitoApplication>, a: DitoApplication, ditoPrice: int)
    ensures a.status == Approved ==>
      ComputeDitoStats(apps + [a], ditoPrice).totalSales == ComputeDitoStats(apps, ditoPrice).totalSales + ditoPrice
    ensures a.status == Pending ==>
      ComputeDitoStats(apps + [a], ditoPrice).totalSales == ComputeDitoStats(apps, ditoPrice).totalSales
  {
    WithStatusAppend(apps, a, Approved);
    Distribute(|WithStatus(apps, Approved)|, if a.status == Approved then 1 else 0, ditoPrice);
  }

  /** Appending one application adds one to the count of its own status only. */
  lemma WithStatusAppend(apps: seq<DitoApplication>, a: DitoApplication, st: Status)
    ensures |WithStatus(apps + [a], st)| == |WithStatus(apps, st)| + (if a.status == st then 1 else 0)
  {
    WithStatusConcat(apps, [a], st);
    assert WithStatus([a], st) == (if a.status == st then [a] else []) + WithStatus([], st);
  }

  lemma Distribute(a: int, b: int, c: int)
    ensures a * c + b * c == (a + b) * c
  {
  }

  // ---------------------------------------------------------------------------
  // DITO counts over the stored objects
  // ---------------------------------------------------------------------------

  /**
   `app.status === text` on a stored object. The host stores whatever the record
   manager built, so the status is compared as text, as the dashboard does.
   */
  predicate HasStatusText(r: Record, text: string)
  {
    "status" in r && r["status"] == Str(text)
  }

  /** A stored object counted under neither status: its status is missing, `""` or any other text. */
  predicate NamesNoStatus(r: Record)
  {
    !HasStatusText(r, "Approved") && !HasStatusText(r, "Pending")
  }

  /** `ditoData.filter(app => app.status === text)` over the stored objects. */
  function WithStatusText(stored: seq<Record>, text: string): (r: seq<Record>)
    ensures |r| <= |stored|
    ensures forall x :: x in r ==> HasStatusText(x, text)
  {
    if |stored| == 0 then []
    else (if HasStatusText(stored[0], text) then [stored[0]] else []) + WithStatusText(stored[1..], text)
  }

  /** The text filter keeps every object with that status text, as many times as it occurs, and no other. */
  lemma {:induction false} WithStatusTextContents(stored: seq<Record>, text: string)
    ensures forall x :: multiset(WithStatusText(stored, text))[x] == if HasStatusText(x, text) then multiset(stored)[x] else 0
  {
    if |stored| > 0 {
      WithStatusTextContents(stored[1..], text);
      assert stored == [stored[0]] + stored[1..];
    }
  }

  /** Replacing one object moves the count of a status text by what the old and new objects carry. */
  lemma {:induction false} WithStatusTextUpdate(stored: seq<Record>, k: int, x: Record, text: string)
    requires 0 <= k < |stored|
    ensures |WithStatusText(stored[k := x], text)| + (if HasStatusText(stored[k], text) then 1 else 0)
         == |WithStatusText(stored, text)| + (if HasStatusText(x, text) then 1 else 0)
    decreases k
  {
    var u := stored[k := x];
    if k == 0 {
      assert u[1..] == stored[1..];
    } else {
      assert u[0] == stored[0];
      assert u[1..] == stored[1..][k - 1 := x];
      WithStatusTextUpdate(stored[1..], k - 1, x, text);
    }
  }

  /** The stored objects that neither status filter keeps. */
  function WithoutStatus(stored: seq<Record>): (r: seq<Record>)
    ensures |r| <= |stored|
    ensures forall x :: x in r ==> NamesNoStatus(x)
  {
    if |stored| == 0 then []
    else (if NamesNoStatus(stored[0]) then [stored[0]] else []) + WithoutStatus(stored[1..])
  }

  /** Every stored object is approved, pending, or counted under neither, and exactly one of these. */
  lemma {:induction false} StoredStatusPartition(stored: seq<Record>)
    ensures |WithStatusText(stored, "Approved")| + |WithStatusText(stored, "Pending")| + |WithoutStatus(stored)| == |stored|
  {
    if |stored| > 0 {
      StoredStatusPartition(stored[1..]);
    }
  }

  /** Appending one object adds one to the uncounted objects exactly when its status is neither name. */
  lemma {:induction false} WithoutStatusAppend(stored: seq<Record>, x: Record)
    ensures |WithoutStatus(stored + [x])| == |WithoutStatus(stored)| + (if NamesNoStatus(x) then 1 else 0)
  {
    if |stored| == 0 {
      assert stored + [x] == [x];
    } else {
      assert (stored + [x])[0] == stored[0];
      assert (stored + [x])[1..] == stored[1..] + [x];
      WithoutStatusAppend(stored[1..], x);
    }
  }

  /**
   `ditoStats` over what the host stores. The two status counts add up to the
   total only together with the objects whose status is neither name.
   */
  function ComputeStoredDitoStats(stored: seq<Record>, ditoPrice: int): (s: DitoStats)
    ensures s.totalApplications == |stored|
    ensures s.totalApproved + s.totalPending + |WithoutStatus(stored)| == s.totalApplications
    ensures s.totalApproved + s.totalPending == s.totalApplications <==> |WithoutStatus(stored)| == 0
    ensures s.totalSales == s.totalApproved * ditoPrice
    ensures s.totalApproved == |WithStatusText(stored, "Approved")| && s.totalPending == |WithStatusText(stored, "Pending")|
  {
    StoredStatusPartition(stored);
    var approved := WithStatusText(stored, "Approved");
    var pending := WithStatusText(stored, "Pending");
    DitoStats(|approved| * ditoPrice, |stored|, |approved|, |pending|)
  }

  /** The objects the host stores for a list of typed applications. */
  function EncodeDitos(apps: seq<DitoApplication>): (r: seq<Record>)
    ensures |r| == |apps|
    ensures forall i :: 0 <= i < |apps| ==> r[i] == EncodeDito(apps[i])
  {
    if |apps| == 0 then [] else [EncodeDito(apps[0])] + EncodeDitos(apps[1..])
  }

  /** On stored typed applications, the text filter counts exactly what the typed filter counts. */
  lemma {:induction false} EncodedStatusCounts(apps: seq<DitoApplication>, st: Status)
    ensures |WithStatusText(EncodeDitos(apps), StatusText(st))| == |WithStatus(apps, st)|
    ensures |WithoutStatus(EncodeDitos(apps))| == 0
  {
    if |apps| > 0 {
      var e := EncodeDitos(apps);
      assert e[1..] == EncodeDitos(apps[1..]);
      EncodedStatusCounts(apps[1..], st);
      assert HasStatusText(e[0], StatusText(st)) <==> apps[0].status == st;
      assert !NamesNoStatus(e[0]) by {
        assert HasStatusText(e[0], StatusText(apps[0].status));
      }
    }
  }

  /** Over stored typed applications, the stored-object statistics are the typed ones. */
  lemma StoredStatsOfTyped(apps: seq<DitoApplication>, ditoPrice: int)
    ensures ComputeStoredDitoStats(EncodeDitos(apps), ditoPrice) == ComputeDitoStats(apps, ditoPrice)
  {
    EncodedStatusCounts(apps, Approved);
    EncodedStatusCounts(apps, Pending);
  }

  /** A stored object that decodes as an application is counted under its own status. */
  lemma DecodedIsCounted(r: Record)
    requires DecodeDito(r).Some?
    ensures HasStatusText(r, StatusText(DecodeDito(r).value.status))
    ensures !NamesNoStatus(r)
  {
    DitoDecodeAgrees(r);
    assert "status" in DitoKeys;
  }

  // ---------------------------------------------------------------------------
  // eAccess sign-ups
  // ---------------------------------------------------------------------------

  /** `eAccessData.filter(sys => sys.processedBy === person)` */
  function ProcessedBy(data: seq<EAccessSystem>, person: string): (r: seq<EAccessSystem>)
    ensures |r| <= |data|
    ensures forall x :: x in r ==> x.processedBy == person
  {
    if |data| == 0 then []
    else (if data[0].processedBy == person then [data[0]] else []) + ProcessedBy(data[1..], person)
  }

  /** The per-person filter keeps every record processed by the person, as many times as it occurs, and no other. */
  lemma {:induction false} ProcessedByContents(data: seq<EAccessSystem>, person: string)
    ensures forall x :: multiset(ProcessedBy(data, person))[x] == if x.processedBy == person then multiset(data)[x] else 0
  {
    if |data| > 0 {
      ProcessedByContents(data[1..], person);
      assert data == [data[0]] + data[1..];
    }
  }

  /** The per-person filter distributes over concatenation. */
  lemma {:induction false} ProcessedByConcat(a: seq<EAccessSystem>, b: seq<EAccessSystem>, person: string)
    ensures ProcessedBy(a + b, person) == ProcessedBy(a, person) + ProcessedBy(b, person)
  {
    if |a| == 0 {
      assert a + b == b;
    } else {
      assert (a + b)[0] == a[0];
      assert (a + b)[1..] == a[1..] + b;
      ProcessedByConcat(a[1..], b, person);
      var h := if a[0].processedBy == person then [a[0]] else [];
      assert ProcessedBy(a + b, person) == h + (ProcessedBy(a[1..], person) + ProcessedBy(b, person));
    }
  }

  /** The records whose `processedBy` is one of the roster's names. */
  function InRoster(data: seq<EAccessSystem>, roster: seq<string>): (r: seq<EAccessSystem>)
    ensures |r| <= |data|
    ensures forall x :: x in r ==> x.processedBy in roster
  {
    if |data| == 0 then []
    else (if data[0].processedBy in roster then [data[0]] else []) + InRoster(data[1..], roster)
  }

  /**
   The `reduce` over the roster that builds `salesByPerson`, from accumulator `acc`:
   each name in turn is set to its record count times the unit price.
   */
  function SalesFold(acc: map<string, int>, people: seq<string>, data: seq<EAccessSystem>, price: int): (m: map<string, int>)
    ensures m.Keys == acc.Keys + set p | p in people
    ensures forall p :: p in people ==> m[p] == |ProcessedBy(data, p)| * price
    ensures forall p :: p in acc && p !in people ==> m[p] == acc[p]
    decreases |people|
  {
    if |people| == 0 then acc
    else SalesFold(acc[people[0] := |ProcessedBy(data, people[0])| * price], people[1..], data, price)
  }

  datatype EAccessStats = EAccessStats(totalSales: int, salesByPerson: map<string, int>)

  /** `eAccessStats`: every sign-up sells at the unit price; the breakdown covers the roster's names only. */
  function ComputeEAccessStats(data: seq<EAccessSystem>, roster: seq<string>, price: int): (s: EAccessStats)
    ensures s.totalSales == |data| * price
    ensures s.salesByPerson.Keys == set p | p in roster
    ensures forall p :: p in s.salesByPerson ==> s.salesByPerson[p] == |ProcessedBy(data, p)| * price
  {
    EAccessStats(|data| * price, SalesFold(map[], roster, data, price))
  }

  /** The sum of a map's values over the names of a roster. */
  function SumOver(roster: seq<string>, m: map<string, int>): int
    requires forall p :: p in roster ==> p in m
  {
    if |roster| == 0 then 0 else m[roster[0]] + SumOver(roster[1..], m)
  }

  ghost predicate Distinct(roster: seq<string>)
  {
    forall i, j :: 0 <= i < j < |roster| ==> roster[i] != roster[j]
  }

  /** Total of the per-person record counts over a roster. */
  function SumCounts(data: seq<EAccessSystem>, roster: seq<string>): nat
  {
    if |roster| == 0 then 0 else |ProcessedBy(data, roster[0])| + SumCounts(data, roster[1..])
  }

  /** Counting one more record: the per-person count moves by one for the record's own name only. */
  lemma {:induction false} SumCountsCons(x: EAccessSystem, rest: seq<EAccessSystem>, roster: seq<string>)
    requires Distinct(roster)
    ensures SumCounts([x] + rest, roster) == SumCounts(rest, roster) + (if x.processedBy in roster then 1 else 0)
  {
    if |roster| > 0 {
      assert ([x] + rest)[1..] == rest;
      assert Distinct(roster[1..]) by {
        forall i, j | 0 <= i < j < |roster[1..]|
          ensures roster[1..][i] != roster[1..][j]
        {
          assert roster[1..][i] == roster[i + 1] && roster[1..][j] == roster[j + 1];
        }
      }
      SumCountsCons(x, rest, roster[1..]);
      assert x.processedBy in roster <==> x.processedBy == roster[0] || x.processedBy in roster[1..] by {
        assert roster == [roster[0]] + roster[1..];
      }
      if x.processedBy == roster[0] {
        assert roster[0] !in roster[1..] by {
          forall j | 0 <= j < |roster[1..]|
            ensures roster[1..][j] != roster[0]
          {
            assert roster[1..][j] == roster[j + 1];
          }
        }
      }
    }
  }

  /** For a roster of distinct names, the per-person counts add up to the records attributed to the roster. */
  lemma {:induction false} SumCountsIsInRoster(data: seq<EAccessSystem>, roster: seq<string>)
    requires Distinct(roster)
    ensures SumCounts(data, roster) == |InRoster(data, roster)|
  {
    if |data| == 0 {
      SumCountsEmpty(roster);
    } else {
      assert data == [data[0]] + data[1..];
      SumCountsIsInRoster(data[1..], roster);
      SumCountsCons(data[0], data[1..], roster);
    }
  }

  lemma {:induction false} SumCountsEmpty(roster: seq<string>)
    ensures SumCounts([], roster) == 0
  {
    if |roster| > 0 {
      SumCountsEmpty(roster[1..]);
    }
  }

  /** The breakdown's sum is the unit price times the per-person counts. */
  lemma {:induction false} SumOverSales(roster: seq<string>, m: map<string, int>, data: seq<EAccessSystem>, price: int)
    requires forall p :: p in roster ==> p in m && m[p] == |ProcessedBy(data, p)| * price
    ensures SumOver(roster, m) == SumCounts(data, roster) * price
  {
    if |roster| > 0 {
      assert forall p :: p in roster[1..] ==> p in roster;
      SumOverSales(roster[1..], m, data, price);
      Distribute(|ProcessedBy(data, roster[0])|, SumCounts(data, roster[1..]), price);
    }
  }

  /** The roster keeps every record exactly when every record's name is on the roster. */
  lemma {:induction false} InRosterAll(data: seq<EAccessSystem>, roster: seq<string>)
    ensures |InRoster(data, roster)| == |data| <==> forall i :: 0 <= i < |data| ==> data[i].processedBy in roster
  {
    if |data| > 0 {
      InRosterAll(data[1..], roster);
      assert forall i :: 1 <= i < |data| ==> data[i] == data[1..][i - 1];
    }
  }

  /**
   For a roster of distinct names, the per-person breakdown never exceeds the total sales at a
   non-negative price; at a positive price it equals the total exactly when every record is
   attributed to someone on the roster. Records processed by anyone else are silently left out.
   */
  lemma RosterBreakdown(data: seq<EAccessSystem>, roster: seq<string>, price: int)
    requires Distinct(roster)
    requires price >= 0
    ensures var s := ComputeEAccessStats(data, roster, price);
      SumOver(roster, s.salesByPerson) == |InRoster(data, roster)| * price <= s.totalSales
    ensures var s := ComputeEAccessStats(data, roster, price);
      price > 0 ==>
        (SumOver(roster, s.salesByPerson) == s.totalSales <==> forall i :: 0 <= i < |data| ==> data[i].processedBy in roster)
  {
    var s := ComputeEAccessStats(data, roster, price);
    SumOverSales(roster, s.salesByPerson, data, price);
    SumCountsIsInRoster(data, roster);
    InRosterAll(data, roster);
    var n := |InRoster(data, roster)|;
    ScaleMonotone(n, |data|, price);
  }

  /** Scaling by a non-negative price keeps order; a positive price keeps strict order too. */
  lemma ScaleMonotone(a: int, b: int, c: int)
    requires a <= b && c >= 0
    ensures a * c <= b * c
    ensures c > 0 && a < b ==> a * c < b * c
  {
  }

  // ---------------------------------------------------------------------------
  // Expenses
  // ---------------------------------------------------------------------------

  /** `expensesData.reduce((sum, expense) => sum + expense.amount, sum0)` */
  function FoldAmounts(sum: int, expenses: seq<Expense>): int
    decreases |expenses|
  {
    if |expenses| == 0 then sum else FoldAmounts(sum + expenses[0].amount, expenses[1..])
  }

  /** `totalExpenses`: the left fold of the amounts from zero. */
  function TotalExpenses(expenses: seq<Expense>): (t: int)
    ensures |expenses| == 0 ==> t == 0
    ensures (forall i :: 0 <= i < |expenses| ==> expenses[i].amount >= 0) ==> t >= 0
  {
    FoldIsSum(0, expenses);
    SumNonNegative(expenses);
    FoldAmounts(0, expenses)
  }

  /** The reference sum of the amounts, from the right. */
  function SumAmounts(expenses: seq<Expense>): int
  {
    if |expenses| == 0 then 0 else expenses[0].amount + SumAmounts(expenses[1..])
  }

  lemma {:induction false} SumNonNegative(expenses: seq<Expense>)
    ensures (forall i :: 0 <= i < |expenses| ==> expenses[i].amount >= 0) ==> SumAmounts(expenses) >= 0
  {
    if |expenses| > 0 {
      SumNonNegative(expenses[1..]);
      assert forall i :: 1 <= i < |expenses| ==> expenses[i] == expenses[1..][i - 1];
    }
  }

  /** The left fold from `sum` is `sum` plus the reference sum. */
  lemma {:induction false} FoldIsSum(sum: int, expenses: seq<Expense>)
    ensures FoldAmounts(sum, expenses) == sum + SumAmounts(expenses)
    decreases |expenses|
  {
    if |expenses| > 0 {
      FoldIsSum(sum + expenses[0].amount, expenses[1..]);
    }
  }

  lemma {:induction false} SumConcat(a: seq<Expense>, b: seq<Expense>)
    ensures SumAmounts(a + b) == SumAmounts(a) + SumAmounts(b)
  {
    if |a| == 0 {
      assert a + b == b;
    } else {
      assert (a + b)[1..] == a[1..] + b;
      SumConcat(a[1..], b);
    }
  }

  /** The total over two lists of expenses is the sum of their totals. */
  lemma TotalExpensesAdditive(a: seq<Expense>, b: seq<Expense>)
    ensures TotalExpenses(a + b) == TotalExpenses(a) + TotalExpenses(b)
  {
    FoldIsSum(0, a + b);
    FoldIsSum(0, a);
    FoldIsSum(0, b);
    SumConcat(a, b);
  }

  // ---------------------------------------------------------------------------
  // Empty collections
  // ---------------------------------------------------------------------------

  /** Every statistic is zero on empty collections. */
  lemma EmptyStatsAreZero(roster: seq<string>, ditoPrice: int, eAccessPrice: int)
    ensures ComputeDitoStats([], ditoPrice) == DitoStats(0, 0, 0, 0)
    ensures ComputeEAccessStats([], roster, eAccessPrice).totalSales == 0
    ensures forall p :: p in roster ==> ComputeEAccessStats([], roster, eAccessPrice).salesByPerson[p] == 0
    ensures TotalExpenses([]) == 0
  {
  }

  // ---------------------------------------------------------------------------
  // Worked examples
  // ---------------------------------------------------------------------------

  function App(st: Status): DitoApplication
  {
    DitoApplication("", "", "", "", "", "", st, "")
  }

  function SignUp(person: string): EAccessSystem
  {
    EAccessSystem("", "", "", "", person, "")
  }

  /** Two approved and one pending application at a unit price of 2000. */
  lemma DitoExample()
    ensures ComputeDitoStats([App(Approved), App(Approved), App(Pending)], 2000) == DitoStats(4000, 3, 2, 1)
  {
    var apps := [App(Approved), App(Approved), App(Pending)];
    assert WithStatus(apps, Approved) == [App(Approved), App(Approved)] by {
      assert apps[1..][1..][1..] == [];
    }
    assert WithStatus(apps, Pending) == [App(Pending)] by {
      assert apps[1..][1..][1..] == [];
    }
  }

  /** Sign-ups by Ana, Ana and Bob at 500 each. */
  lemma EAccessExample()
    ensures var s := ComputeEAccessStats([SignUp("Ana"), SignUp("Ana"), SignUp("Bob")], ["Ana", "Bob"], 500);
      s.totalSales == 1500 && s.salesByPerson == map["Ana" := 1000, "Bob" := 500]
  {
    var d := [SignUp("Ana"), SignUp("Ana"), SignUp("Bob")];
    assert d[1..][1..][1..] == [];
    assert ProcessedBy(d, "Ana") == [SignUp("Ana"), SignUp("Ana")];
    assert ProcessedBy(d, "Bob") == [SignUp("Bob")];
    var m := ComputeEAccessStats(d, ["Ana", "Bob"], 500).salesByPerson;
    assert m.Keys == {"Ana", "Bob"};
  }

  /** A further sign-up by Carla, who is off the roster, adds to the total sales and to nobody's share. */
  lemma OffRosterExample()
    ensures var d := [SignUp("Ana"), SignUp("Ana"), SignUp("Bob")];
      var s := ComputeEAccessStats(d, ["Ana", "Bob"], 500);
      var s' := ComputeEAccessStats(d + [SignUp("Carla")], ["Ana", "Bob"], 500);
      s'.totalSales == s.totalSales + 500 && s'.salesByPerson == s.salesByPerson
  {
    var d := [SignUp("Ana"), SignUp("Ana"), SignUp("Bob")];
    var d' := d + [SignUp("Carla")];
    ProcessedByConcat(d, [SignUp("Carla")], "Ana");
    ProcessedByConcat(d, [SignUp("Carla")], "Bob");
    assert ProcessedBy([SignUp("Carla")], "Ana") == [] + ProcessedBy([], "Ana");
    assert ProcessedBy([SignUp("Carla")], "Bob") == [] + ProcessedBy([], "Bob");
    var m := ComputeEAccessStats(d, ["Ana", "Bob"], 500).salesByPerson;
    var m' := ComputeEAccessStats(d', ["Ana", "Bob"], 500).salesByPerson;
    assert m.Keys == m'.Keys;
  }

  /** Expenses of 100.50 and 49.50 total exactly 150.00 (amounts in centavos). */
  lemma ExpensesExample()
    ensures TotalExpenses([Expense("", "", "", 10050), Expense("", "", "", 4950)]) == 15000
  {
  }
}
