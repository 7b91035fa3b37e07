/**
 The three pages built on the record manager, reduced to what decides its
 behaviour: the template each page passes as the initial form state, and the
 form fields it lets the user change.

 The record manager builds a new record as `{...template, ...draft, id}` and
 casts it to the page's record type. The lemmas below show that the cast is
 sound for every eAccess and expense draft the forms can produce, and for
 every DITO draft whose status names a status; that the DITO and eAccess
 records are stamped with the creation date, and that expenses are not.

 The DITO status select also offers an empty placeholder option. Choosing it
 stores `status: ""` while the select goes on showing `Pending`, and the
 created record then does not decode as an application
 (`PlaceholderStatusIsHidden`). `DitoHandleChange` is the corrected handler,
 which stores what the select shows.
 */
module Instances {
  import opened Records
  import opened Types
  import CrudBase
  import Dashboard

  // ---------------------------------------------------------------------------
  // Templates
  // ---------------------------------------------------------------------------

  /** DITO page: every text empty, status `Pending`. */
  const DitoTemplate: Record := EncodeDito(DitoApplication("", "", "", "", "", "", Pending, ""))

  /** eAccess page: every text empty. */
  const EAccessTemplate: Record := EncodeEAccess(EAccessSystem("", "", "", "", "", ""))

  /** Expenses page: the date defaults to the day the page rendered, the amount to zero. */
  function ExpenseTemplate(renderDay: string): Record
  {
    EncodeExpense(Expense("", renderDay, "", 0))
  }

  /** The DITO template is a blank application, pending, and carries `dateAdded`, so creates are stamped. */
  lemma DitoTemplateDecodes()
    ensures DecodeDito(DitoTemplate) == Some(DitoApplication("", "", "", "", "", "", Pending, ""))
    ensures DateAddedKey in DitoTemplate
  {
    DitoRoundTrip(DitoApplication("", "", "", "", "", "", Pending, ""));
  }

  /** The eAccess template is a blank sign-up and carries `dateAdded`, so creates are stamped. */
  lemma EAccessTemplateDecodes()
    ensures DecodeEAccess(EAccessTemplate) == Some(EAccessSystem("", "", "", "", "", ""))
    ensures DateAddedKey in EAccessTemplate
  {
    EAccessRoundTrip(EAccessSystem("", "", "", "", "", ""));
  }

  /** The expense template is a blank expense dated the render day; it has no `dateAdded`, so creates are not stamped. */
  lemma ExpenseTemplateDecodes(renderDay: string)
    ensures DecodeExpense(ExpenseTemplate(renderDay)) == Some(Expense("", renderDay, "", 0))
    ensures DateAddedKey !in ExpenseTemplate(renderDay)
  {
    ExpenseRoundTrip(Expense("", renderDay, "", 0));
  }

  // ---------------------------------------------------------------------------
  // Drafts the forms can produce
  // ---------------------------------------------------------------------------

  const DitoFormKeys: set<string> :=
    {"fullName", "address", "applicationNo", "mobileNo", "processedBy", "status"}
  const EAccessFormKeys: set<string> := {"fullName", "agencyName", "mobile", "processedBy"}
  const ExpenseFormKeys: set<string> := {"date", "description", "amount"}

  /** A draft of a DITO application: known keys, every value text. */
  ghost predicate DitoDraft(d: Record)
  {
    forall k :: k in d ==> k in DitoKeys && d[k].Str?
  }

  /** The draft's status, if it has one, is one of the two status names. */
  ghost predicate NamesStatus(d: Record)
  {
    "status" in d ==> d["status"].Str? && ParseStatus(d["status"].s).Some?
  }

  ghost predicate EAccessDraft(d: Record)
  {
    forall k :: k in d ==> k in EAccessKeys && d[k].Str?
  }

  /** A draft of an expense: known keys, the amount a number, the other fields text. */
  ghost predicate ExpenseDraft(d: Record)
  {
    forall k :: k in d ==> k in ExpenseKeys && (d[k].Num? <==> k == AmountKey)
  }

  /**
   The DITO form keeps drafts well-shaped. The status names a status after a
   change exactly when the chosen text does, or, for another field, when it did before.
   */
  lemma DitoChangeKeepsDraft(c: CrudBase.Controller, name: string, raw: string, parse: string -> int)
    requires DitoDraft(c.draft)
    requires name in DitoFormKeys
    ensures DitoDraft(CrudBase.HandleChange(c, name, raw, parse).draft)
    ensures NamesStatus(CrudBase.HandleChange(c, name, raw, parse).draft)
        <==> if name == "status" then ParseStatus(raw).Some? else NamesStatus(c.draft)
  {
  }

  lemma EAccessChangeKeepsDraft(c: CrudBase.Controller, name: string, raw: string, parse: string -> int)
    requires EAccessDraft(c.draft)
    requires name in EAccessFormKeys
    ensures EAccessDraft(CrudBase.HandleChange(c, name, raw, parse).draft)
  {
  }

  /** The expense form's `amount` input is stored as a number, the others as text. */
  lemma ExpenseChangeKeepsDraft(c: CrudBase.Controller, name: string, raw: string, parse: string -> int)
    requires ExpenseDraft(c.draft)
    requires name in ExpenseFormKeys
    ensures ExpenseDraft(CrudBase.HandleChange(c, name, raw, parse).draft)
  {
  }

  /** Every stored DITO application, opened for edit, is a well-shaped draft. */
  lemma DitoEncodingIsDraft(a: DitoApplication)
    ensures DitoDraft(EncodeDito(a)) && NamesStatus(EncodeDito(a))
  {
    assert ParseStatus(StatusText(a.status)).Some?;
  }

  /** The text a draft holds under `k`, or the template's default. */
  function TextOr(d: Record, k: string, default: string): string
  {
    TextField(d, k).GetOr(default)
  }

  // ---------------------------------------------------------------------------
  // Records created from the templates
  // ---------------------------------------------------------------------------

  /** A text field of a created record holds the draft's text, or the template's where the draft has none. */
  lemma TextFieldOf(t: Record, d: Record, freshId: string, today: string, k: string)
    requires k in t && t[k].Str? && k != IdKey && k != DateAddedKey
    requires k in d ==> d[k].Str?
    ensures CrudBase.NewItem(t, d, freshId, today)[k] == Str(TextOr(d, k, t[k].s))
  {
  }

  /** The application a DITO draft describes once created. */
  function DitoOfDraft(d: Record, freshId: string, today: string): DitoApplication
  {
    var st := if "status" in d && d["status"].Str? && ParseStatus(d["status"].s).Some?
              then ParseStatus(d["status"].s).value else Pending;
    DitoApplication(freshId, TextOr(d, "fullName", ""), TextOr(d, "address", ""),
      TextOr(d, "applicationNo", ""), TextOr(d, "mobileNo", ""), TextOr(d, "processedBy", ""),
      st, today)
  }

  /** Each text field of a created DITO record is the field of the application its draft describes. */
  lemma DitoTextAgrees(d: Record, freshId: string, today: string, k: string)
    requires DitoDraft(d)
    requires k in DitoFormKeys - {"status"}
    ensures CrudBase.NewItem(DitoTemplate, d, freshId, today)[k] == EncodeDito(DitoOfDraft(d, freshId, today))[k]
  {
    TextFieldOf(DitoTemplate, d, freshId, today, k);
    var a := DitoOfDraft(d, freshId, today);
    if k == "fullName" {
      assert EncodeDito(a)[k] == Str(a.fullName);
    } else if k == "address" {
      assert EncodeDito(a)[k] == Str(a.address);
    } else if k == "applicationNo" {
      assert EncodeDito(a)[k] == Str(a.applicationNo);
    } else if k == "mobileNo" {
      assert EncodeDito(a)[k] == Str(a.mobileNo);
    } else {
      assert k == "processedBy";
      assert EncodeDito(a)[k] == Str(a.processedBy);
    }
  }

  /** The status of a created DITO record is the draft's status, `Pending` by default. */
  lemma DitoStatusAgrees(d: Record, freshId: string, today: string)
    requires DitoDraft(d) && NamesStatus(d)
    ensures CrudBase.NewItem(DitoTemplate, d, freshId, today)["status"] == EncodeDito(DitoOfDraft(d, freshId, today))["status"]
  {
    TextFieldOf(DitoTemplate, d, freshId, today, "status");
  }

  lemma DitoCreatedIsEncoding(d: Record, freshId: string, today: string)
    requires DitoDraft(d) && NamesStatus(d)
    ensures CrudBase.NewItem(DitoTemplate, d, freshId, today) == EncodeDito(DitoOfDraft(d, freshId, today))
  {
    var r := CrudBase.NewItem(DitoTemplate, d, freshId, today);
    var e := EncodeDito(DitoOfDraft(d, freshId, today));
    assert r.Keys == e.Keys;
    forall k | k in e
      ensures r[k] == e[k]
    {
      if k == IdKey {
      } else if k == DateAddedKey {
      } else if k == "status" {
        DitoStatusAgrees(d, freshId, today);
      } else {
        DitoTextAgrees(d, freshId, today, k);
      }
    }
  }

  /**
   A DITO create decodes as an application exactly when the draft's status names
   a status; the application then has the fresh id and is stamped with today's date.
   */
  lemma CreateDito(d: Record, freshId: string, today: string)
    requires DitoDraft(d)
    ensures var r := CrudBase.NewItem(DitoTemplate, d, freshId, today);
      && (DecodeDito(r).Some? <==> NamesStatus(d))
      && (NamesStatus(d) ==>
            && DecodeDito(r).value.id == freshId
            && DecodeDito(r).value.dateAdded == today
            && EncodeDito(DecodeDito(r).value) == r)
  {
    var r := CrudBase.NewItem(DitoTemplate, d, freshId, today);
    if NamesStatus(d) {
      DitoCreatedIsEncoding(d, freshId, today);
      DitoRoundTrip(DitoOfDraft(d, freshId, today));
    } else {
      assert r["status"] == d["status"];
      assert ParseStatus(r["status"].s).None?;
    }
  }

  // ---------------------------------------------------------------------------
  // The DITO status select
  // ---------------------------------------------------------------------------

  /** The options of the status select: the empty placeholder and the two status names. */
  const StatusOptions: set<string> := {"", "Pending", "Approved"}

  /** The option the status select shows for a draft: `item.status || 'Pending'`. */
  function ShownStatus(d: Record): (t: string)
    ensures t != ""
    ensures t == "Pending" || ("status" in d && d["status"] == Str(t))
    ensures "status" in d && d["status"].Str? && d["status"].s != "" ==> t == d["status"].s
  {
    if "status" in d && d["status"].Str? && d["status"].s != "" then d["status"].s else "Pending"
  }

  /**
   Choosing the placeholder stores an empty status while the select goes on
   showing `Pending`, so the `required` check passes; the record then created
   does not decode as an application.
   */
  lemma PlaceholderStatusIsHidden(c: CrudBase.Controller, parse: string -> int, freshId: string, today: string)
    requires DitoDraft(c.draft)
    ensures var d := CrudBase.HandleChange(c, "status", "", parse).draft;
      && "" in StatusOptions
      && d["status"] == Str("")
      && ShownStatus(d) == "Pending"
      && DecodeDito(CrudBase.NewItem(DitoTemplate, d, freshId, today)).None?
  {
    var d := CrudBase.HandleChange(c, "status", "", parse).draft;
    DitoChangeKeepsDraft(c, "status", "", parse);
    CreateDito(d, freshId, today);
  }

  /**
   A create after choosing the placeholder stores an object the dashboard counts
   in the total but under neither status, so approved plus pending falls short.
   */
  lemma PlaceholderEscapesStatusCounts(data: seq<Record>, c: CrudBase.Controller, parse: string -> int,
                                       freshId: string, today: string, ditoPrice: int)
    requires DitoDraft(c.draft)
    ensures var stored := CrudBase.SubmitCreate(data, DitoTemplate,
                            CrudBase.HandleChange(c, "status", "", parse).draft, freshId, today);
      && |Dashboard.WithoutStatus(stored)| == |Dashboard.WithoutStatus(data)| + 1
      && var s := Dashboard.ComputeStoredDitoStats(stored, ditoPrice);
         s.totalApproved + s.totalPending < s.totalApplications
  {
    var d := CrudBase.HandleChange(c, "status", "", parse).draft;
    var x := CrudBase.NewItem(DitoTemplate, d, freshId, today);
    assert x["status"] == Str("");
    Dashboard.WithoutStatusAppend(data, x);
  }

  /**
   The edit path stores the placeholder too: a stored application opened for
   edit, set to the placeholder and saved, no longer decodes, is counted under
   neither status, and leaves the count of its former status one lower.
   */
  lemma PlaceholderEditDropsStatus(data: seq<Record>, k: int, a: DitoApplication, c: CrudBase.Controller,
                                   parse: string -> int)
    requires UniqueIds(data)
    requires 0 <= k < |data| && data[k] == EncodeDito(a)
    ensures var d := CrudBase.HandleChange(CrudBase.OpenModalForEdit(c, data[k]), "status", "", parse).draft;
      var r := CrudBase.SubmitEdit(data, d);
      && |r| == |data|
      && DecodeDito(r[k]).None?
      && Dashboard.NamesNoStatus(r[k])
      && |Dashboard.WithStatusText(r, StatusText(a.status))| + 1 == |Dashboard.WithStatusText(data, StatusText(a.status))|
  {
    var d := CrudBase.HandleChange(CrudBase.OpenModalForEdit(c, data[k]), "status", "", parse).draft;
    assert SameId(data[k], d);
    CrudBase.SubmitEditAt(data, d, k);
    var r := CrudBase.SubmitEdit(data, d);
    assert r[k]["status"] == Str("");
    assert ParseStatus(r[k]["status"].s).None?;
    assert Dashboard.HasStatusText(data[k], StatusText(a.status));
    Dashboard.WithStatusTextUpdate(data, k, r[k], StatusText(a.status));
  }

  /** The corrected field handler for the DITO form: the placeholder stores the `Pending` the select shows. */
  function DitoHandleChange(c: CrudBase.Controller, name: string, raw: string, parse: string -> int): (c': CrudBase.Controller)
    requires name == "status" ==> raw in StatusOptions
    ensures c'.isModalOpen == c.isModalOpen && c'.isEditing == c.isEditing
    ensures c'.draft.Keys == c.draft.Keys + {name}
    ensures name != "status" ==> c' == CrudBase.HandleChange(c, name, raw, parse)
    ensures name == "status" ==> c'.draft["status"] == Str(ShownStatus(c'.draft))
    ensures name == "status" ==> raw != "" ==> c'.draft["status"] == Str(raw)
    ensures forall k :: k in c.draft && k != name ==> c'.draft[k] == c.draft[k]
  {
    var text := if name == "status" && raw == "" then "Pending" else raw;
    CrudBase.HandleChange(c, name, text, parse)
  }

  /** With the corrected handler every change keeps a DITO draft whose status names a status. */
  lemma DitoHandleChangeKeepsValidDraft(c: CrudBase.Controller, name: string, raw: string, parse: string -> int)
    requires DitoDraft(c.draft) && NamesStatus(c.draft)
    requires name in DitoFormKeys
    requires name == "status" ==> raw in StatusOptions
    ensures DitoDraft(DitoHandleChange(c, name, raw, parse).draft)
    ensures NamesStatus(DitoHandleChange(c, name, raw, parse).draft)
  {
    var text := if name == "status" && raw == "" then "Pending" else raw;
    DitoChangeKeepsDraft(c, name, text, parse);
  }

  /** With the corrected handler, a create after any one form change decodes as an application. */
  lemma CorrectedChangeThenCreateDecodes(c: CrudBase.Controller, name: string, raw: string, parse: string -> int,
                                         freshId: string, today: string)
    requires DitoDraft(c.draft) && NamesStatus(c.draft)
    requires name in DitoFormKeys
    requires name == "status" ==> raw in StatusOptions
    ensures DecodeDito(CrudBase.NewItem(DitoTemplate, DitoHandleChange(c, name, raw, parse).draft, freshId, today)).Some?
  {
    DitoHandleChangeKeepsValidDraft(c, name, raw, parse);
    CreateDito(DitoHandleChange(c, name, raw, parse).draft, freshId, today);
  }

  /** The sign-up an eAccess draft describes once created. */
  function EAccessOfDraft(d: Record, freshId: string, today: string): EAccessSystem
  {
    EAccessSystem(freshId, TextOr(d, "fullName", ""), TextOr(d, "agencyName", ""),
      TextOr(d, "mobile", ""), TextOr(d, "processedBy", ""), today)
  }

  lemma EAccessFieldAgrees(d: Record, freshId: string, today: string, k: string)
    requires EAccessDraft(d)
    requires k in EAccessFormKeys
    ensures CrudBase.NewItem(EAccessTemplate, d, freshId, today)[k] == EncodeEAccess(EAccessOfDraft(d, freshId, today))[k]
  {
    TextFieldOf(EAccessTemplate, d, freshId, today, k);
    if k == "fullName" {
    } else if k == "agencyName" {
    } else if k == "mobile" {
    } else {
      assert k == "processedBy";
    }
  }

  lemma EAccessCreatedIsEncoding(d: Record, freshId: string, today: string)
    requires EAccessDraft(d)
    ensures CrudBase.NewItem(EAccessTemplate, d, freshId, today) == EncodeEAccess(EAccessOfDraft(d, freshId, today))
  {
    var r := CrudBase.NewItem(EAccessTemplate, d, freshId, today);
    var e := EncodeEAccess(EAccessOfDraft(d, freshId, today));
    assert r.Keys == e.Keys;
    forall k | k in e
      ensures r[k] == e[k]
    {
      if k == IdKey {
      } else if k == DateAddedKey {
      } else {
        EAccessFieldAgrees(d, freshId, today, k);
      }
    }
  }

  /** An eAccess create yields a record with the fresh id, stamped with today's date. */
  lemma CreateEAccess(d: Record, freshId: string, today: string)
    requires EAccessDraft(d)
    ensures var r := CrudBase.NewItem(EAccessTemplate, d, freshId, today);
      && DecodeEAccess(r).Some?
      && DecodeEAccess(r).value.id == freshId
      && DecodeEAccess(r).value.dateAdded == today
      && EncodeEAccess(DecodeEAccess(r).value) == r
  {
    EAccessCreatedIsEncoding(d, freshId, today);
    EAccessRoundTrip(EAccessOfDraft(d, freshId, today));
  }

  /** The number a draft holds under `k`, or the template's default. */
  function NumberOr(d: Record, k: string, default: int): int
  {
    NumberField(d, k).GetOr(default)
  }

  /** The expense an expense draft describes once created: no date stamp is involved. */
  function ExpenseOfDraft(d: Record, renderDay: string, freshId: string): Expense
  {
    Expense(freshId, TextOr(d, "date", renderDay), TextOr(d, "description", ""), NumberOr(d, AmountKey, 0))
  }

  lemma ExpenseFieldAgrees(d: Record, renderDay: string, freshId: string, today: string, k: string)
    requires ExpenseDraft(d)
    requires k in ExpenseFormKeys
    ensures CrudBase.NewItem(ExpenseTemplate(renderDay), d, freshId, today)[k]
         == EncodeExpense(ExpenseOfDraft(d, renderDay, freshId))[k]
  {
    var t := ExpenseTemplate(renderDay);
    if k == "date" {
      TextFieldOf(t, d, freshId, today, k);
    } else if k == "description" {
      TextFieldOf(t, d, freshId, today, k);
    } else {
      assert k == AmountKey;
    }
  }

  lemma ExpenseCreatedIsEncoding(d: Record, renderDay: string, freshId: string, today: string)
    requires ExpenseDraft(d)
    ensures CrudBase.NewItem(ExpenseTemplate(renderDay), d, freshId, today) == EncodeExpense(ExpenseOfDraft(d, renderDay, freshId))
  {
    var r := CrudBase.NewItem(ExpenseTemplate(renderDay), d, freshId, today);
    var e := EncodeExpense(ExpenseOfDraft(d, renderDay, freshId));
    assert r.Keys == e.Keys;
    forall k | k in e
      ensures r[k] == e[k]
    {
      if k != IdKey {
        ExpenseFieldAgrees(d, renderDay, freshId, today, k);
      }
    }
  }

  /** An expense create keeps the form's date (or the render day) and gains no `dateAdded` stamp. */
  lemma CreateExpense(d: Record, renderDay: string, freshId: string, today: string)
    requires ExpenseDraft(d)
    ensures var r := CrudBase.NewItem(ExpenseTemplate(renderDay), d, freshId, today);
      && DateAddedKey !in r
      && DecodeExpense(r).Some?
      && DecodeExpense(r).value.id == freshId
      && DecodeExpense(r).value.date == (if "date" in d then d["date"].s else renderDay)
      && EncodeExpense(DecodeExpense(r).value) == r
  {
    ExpenseCreatedIsEncoding(d, renderDay, freshId, today);
    ExpenseRoundTrip(ExpenseOfDraft(d, renderDay, freshId));
  }

  /** With the corrected handler, a create after any form change is counted under one of the two statuses. */
  lemma CorrectedCreateIsCounted(data: seq<Record>, c: CrudBase.Controller, name: string, raw: string,
                                 parse: string -> int, freshId: string, today: string)
    requires DitoDraft(c.draft) && NamesStatus(c.draft)
    requires name in DitoFormKeys
    requires name == "status" ==> raw in StatusOptions
    ensures |Dashboard.WithoutStatus(CrudBase.SubmitCreate(data, DitoTemplate,
               DitoHandleChange(c, name, raw, parse).draft, freshId, today))| == |Dashboard.WithoutStatus(data)|
  {
    var x := CrudBase.NewItem(DitoTemplate, DitoHandleChange(c, name, raw, parse).draft, freshId, today);
    CorrectedChangeThenCreateDecodes(c, name, raw, parse, freshId, today);
    Dashboard.DecodedIsCounted(x);
    Dashboard.WithoutStatusAppend(data, x);
  }
}
