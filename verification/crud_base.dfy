/**
 The generic record manager of the tracker: one collection of records, a
 modal form that is open or closed, a flag saying whether the form edits an
 existing record or creates a new one, and the draft record the form shows.

 The collection itself belongs to the host view; every operation here takes
 the current collection and returns the replacement the host stores. The
 fresh id and the date stamp (timestamps in the source), the answer of the
 delete confirmation dialog and the number parser are parameters.
 */
module CrudBase {
  import opened Records

  // ---------------------------------------------------------------------------
  // Operations on the collection
  // ---------------------------------------------------------------------------

  /** The edit branch of submit: every record whose id matches the draft's becomes `{...item, ...draft}`. */
  function SubmitEdit(data: seq<Record>, draft: Record): (r: seq<Record>)
    ensures |r| == |data|
    ensures forall i :: 0 <= i < |data| && !SameId(data[i], draft) ==> r[i] == data[i]
    ensures forall i :: 0 <= i < |data| && SameId(data[i], draft) ==> r[i] == Spread(data[i], draft)
  {
    if |data| == 0 then []
    else
      var head := if SameId(data[0], draft) then Spread(data[0], draft) else data[0];
      [head] + SubmitEdit(data[1..], draft)
  }

  /** The record the create branch of submit builds: template, then draft, then the fresh id, then the date stamp. */
  function NewItem(template: Record, draft: Record, freshId: string, today: string): (r: Record)
    ensures r.Keys == template.Keys + draft.Keys + {IdKey}
    ensures r[IdKey] == Str(freshId)
    ensures DateAddedKey in template ==> r[DateAddedKey] == Str(today)
    ensures DateAddedKey !in template ==> (DateAddedKey in r <==> DateAddedKey in draft)
    ensures forall k :: k in draft && k != IdKey && !(k == DateAddedKey && DateAddedKey in template) ==> r[k] == draft[k]
    ensures forall k :: k in template && k !in draft && k != IdKey && k != DateAddedKey ==> r[k] == template[k]
  {
    var item := Spread(Spread(template, draft), map[IdKey := Str(freshId)]);
    if DateAddedKey in template then item[DateAddedKey := Str(today)] else item
  }

  /** The create branch of submit: the new record is appended. */
  function SubmitCreate(data: seq<Record>, template: Record, draft: Record, freshId: string, today: string): (r: seq<Record>)
    ensures |r| == |data| + 1
    ensures r[..|data|] == data
    ensures IdOf(r[|data|]) == Some(Str(freshId))
    ensures r[|data|] == NewItem(template, draft, freshId, today)
  {
    data + [NewItem(template, draft, freshId, today)]
  }

  /** The confirmed delete: keep exactly the records whose id differs from `id`, in order. */
  function RemoveById(data: seq<Record>, id: string): (r: seq<Record>)
    ensures |r| <= |data|
    ensures forall x :: x in r ==> HasOtherId(x, id)
  {
    if |data| == 0 then []
    else if HasOtherId(data[0], id) then [data[0]] + RemoveById(data[1..], id)
    else RemoveById(data[1..], id)
  }

  /** A delete keeps every record with another id, as many times as it occurs, and no other record. */
  lemma {:induction false} RemoveContents(data: seq<Record>, id: string)
    ensures forall x :: multiset(RemoveById(data, id))[x] == if HasOtherId(x, id) then multiset(data)[x] else 0
  {
    if |data| > 0 {
      RemoveContents(data[1..], id);
      assert data == [data[0]] + data[1..];
    }
  }

  /** `handleDelete`: the collection changes only when the user confirms. */
  function HandleDelete(data: seq<Record>, id: string, confirmed: bool): (r: seq<Record>)
    ensures !confirmed ==> r == data
    ensures confirmed ==> r == RemoveById(data, id)
    ensures confirmed ==> |r| <= |data| && forall x :: x in r ==> x in data && HasOtherId(x, id)
    ensures confirmed ==> forall x :: x in data && HasOtherId(x, id) ==> x in r
  {
    if confirmed then
      RemoveContents(data, id);
      RemoveById(data, id)
    else data
  }

  // ---------------------------------------------------------------------------
  // Lemmas about the collection operations
  // ---------------------------------------------------------------------------

  /** An edit whose draft matches no record leaves the collection as it was. */
  lemma SubmitEditNoMatch(data: seq<Record>, draft: Record)
    requires forall i :: 0 <= i < |data| ==> !SameId(data[i], draft)
    ensures SubmitEdit(data, draft) == data
  {
  }

  /** With unique ids, an edit whose draft carries the id of position `k` rewrites that position only. */
  lemma SubmitEditAt(data: seq<Record>, draft: Record, k: int)
    requires UniqueIds(data)
    requires 0 <= k < |data| && SameId(data[k], draft)
    ensures SubmitEdit(data, draft) == data[k := Spread(data[k], draft)]
  {
    var r := SubmitEdit(data, draft);
    forall i | 0 <= i < |data| && i != k
      ensures r[i] == data[i]
    {
      assert IdOf(data[i]) != IdOf(data[k]);
    }
  }

  /** Submitting the unchanged full copy of a record (as opened for edit) changes nothing. */
  lemma SubmitEditUnchangedIsNoop(data: seq<Record>, k: int)
    requires UniqueIds(data)
    requires 0 <= k < |data|
    ensures SubmitEdit(data, data[k]) == data
  {
    SubmitEditAt(data, data[k], k);
    SpreadSelf(data[k]);
  }

  /** A fresh id keeps the ids of the collection unique after a create. */
  lemma SubmitCreateKeepsIdsUnique(data: seq<Record>, template: Record, draft: Record, freshId: string, today: string)
    requires UniqueIds(data)
    requires FreshId(data, freshId)
    ensures UniqueIds(SubmitCreate(data, template, draft, freshId, today))
  {
    var r := SubmitCreate(data, template, draft, freshId, today);
    forall i, j | 0 <= i < |r| && 0 <= j < |r| && i != j
      ensures IdOf(r[i]) != IdOf(r[j])
    {
      if i < |data| && j < |data| {
        assert r[i] == data[i] && r[j] == data[j];
      } else if i < |data| {
        assert r[i] == data[i];
      } else {
        assert r[j] == data[j];
      }
    }
  }

  /** An edit never changes a record's id: a matching record takes the draft's id, which is its own. */
  lemma SubmitEditKeepsIds(data: seq<Record>, draft: Record)
    ensures forall i :: 0 <= i < |data| ==> IdOf(SubmitEdit(data, draft)[i]) == IdOf(data[i])
  {
  }

  /** An edit keeps the ids of the collection unique. */
  lemma SubmitEditKeepsIdsUnique(data: seq<Record>, draft: Record)
    requires UniqueIds(data)
    ensures UniqueIds(SubmitEdit(data, draft))
  {
    SubmitEditKeepsIds(data, draft);
  }

  /** Dropping the first record keeps the ids unique. */
  lemma UniqueIdsTail(data: seq<Record>)
    requires UniqueIds(data) && |data| > 0
    ensures UniqueIds(data[1..])
  {
    var rest := data[1..];
    forall i, j | 0 <= i < |rest| && 0 <= j < |rest| && i != j
      ensures IdOf(rest[i]) != IdOf(rest[j])
    {
      assert rest[i] == data[i + 1] && rest[j] == data[j + 1];
    }
  }

  /** A record whose id no record of a collection with unique ids shares can be put in front. */
  lemma UniqueIdsCons(x: Record, rest: seq<Record>)
    requires UniqueIds(rest)
    requires forall y :: y in rest ==> IdOf(y) != IdOf(x)
    ensures UniqueIds([x] + rest)
  {
    var full := [x] + rest;
    forall i, j | 0 <= i < |full| && 0 <= j < |full| && i != j
      ensures IdOf(full[i]) != IdOf(full[j])
    {
      if i == 0 {
        assert full[j] == rest[j - 1] && rest[j - 1] in rest;
      } else if j == 0 {
        assert full[i] == rest[i - 1] && rest[i - 1] in rest;
      } else {
        assert full[i] == rest[i - 1] && full[j] == rest[j - 1];
      }
    }
  }

  /** A delete keeps the ids of the collection unique. */
  lemma {:induction false} RemoveKeepsIdsUnique(data: seq<Record>, id: string)
    requires UniqueIds(data)
    ensures UniqueIds(RemoveById(data, id))
  {
    if |data| > 0 {
      var rest := data[1..];
      UniqueIdsTail(data);
      RemoveKeepsIdsUnique(rest, id);
      if HasOtherId(data[0], id) {
        var kept := RemoveById(rest, id);
        RemoveContents(rest, id);
        forall y | y in kept
          ensures IdOf(y) != IdOf(data[0])
        {
          assert multiset(kept)[y] > 0;
          assert y in rest;
          var j :| 0 <= j < |rest| && rest[j] == y;
          assert data[j + 1] == y;
        }
        UniqueIdsCons(data[0], kept);
      }
    }
  }

  /** A delete of an id that no record carries changes nothing. */
  lemma {:induction false} RemoveAbsent(data: seq<Record>, id: string)
    requires FreshId(data, id)
    ensures RemoveById(data, id) == data
  {
    if |data| > 0 {
      RemoveAbsent(data[1..], id);
    }
  }

  /** Whatever the answer to the confirmation, deleting an absent id is a no-op. */
  lemma HandleDeleteAbsent(data: seq<Record>, id: string, confirmed: bool)
    requires FreshId(data, id)
    ensures HandleDelete(data, id, confirmed) == data
  {
    if confirmed {
      RemoveAbsent(data, id);
    }
  }

  /** Delete distributes over concatenation: it keeps the order of what it keeps. */
  lemma {:induction false} RemoveConcat(a: seq<Record>, b: seq<Record>, id: string)
    ensures RemoveById(a + b, id) == RemoveById(a, id) + RemoveById(b, id)
  {
    if |a| == 0 {
      assert a + b == b;
    } else {
      assert (a + b)[1..] == a[1..] + b;
      RemoveConcat(a[1..], b, id);
    }
  }

  /** Deleting twice is deleting once. */
  lemma RemoveIdempotent(data: seq<Record>, id: string)
    ensures RemoveById(RemoveById(data, id), id) == RemoveById(data, id)
  {
    var r := RemoveById(data, id);
    assert forall i :: 0 <= i < |r| ==> r[i] in r;
    RemoveAbsent(r, id);
  }

  /** With unique ids, no record before or after position `k` carries its id. */
  lemma OthersHaveOtherIds(data: seq<Record>, k: int)
    requires UniqueIds(data)
    requires 0 <= k < |data| && IdKey in data[k] && data[k][IdKey].Str?
    ensures FreshId(data[..k], data[k][IdKey].s)
    ensures FreshId(data[k + 1..], data[k][IdKey].s)
  {
    var id := data[k][IdKey].s;
    forall i | 0 <= i < k
      ensures HasOtherId(data[..k][i], id)
    {
      assert data[..k][i] == data[i];
      assert IdOf(data[i]) != IdOf(data[k]);
    }
    var post := data[k + 1..];
    forall j | 0 <= j < |post|
      ensures HasOtherId(post[j], id)
    {
      assert post[j] == data[k + 1 + j];
      assert IdOf(data[k + 1 + j]) != IdOf(data[k]);
    }
  }

  /** With unique ids, deleting the id of position `k` removes that position and nothing else. */
  lemma RemoveUnique(data: seq<Record>, k: int)
    requires UniqueIds(data)
    requires 0 <= k < |data| && IdKey in data[k] && data[k][IdKey].Str?
    ensures RemoveById(data, data[k][IdKey].s) == data[..k] + data[k + 1..]
  {
    var pre, post := data[..k], data[k + 1..];
    assert data == pre + [data[k]] + post;
    OthersHaveOtherIds(data, k);
    RemoveSingle(pre, data[k], post, data[k][IdKey].s);
  }

  /** Deleting the one record that carries `id` leaves the records around it. */
  lemma RemoveSingle(pre: seq<Record>, x: Record, post: seq<Record>, id: string)
    requires FreshId(pre, id) && FreshId(post, id)
    requires !HasOtherId(x, id)
    ensures RemoveById(pre + [x] + post, id) == pre + post
  {
    RemoveConcat(pre + [x], post, id);
    RemoveConcat(pre, [x], id);
    RemoveAbsent(pre, id);
    RemoveAbsent(post, id);
    assert RemoveById([x], id) == RemoveById([], id);
  }

  // ---------------------------------------------------------------------------
  // The form controller
  // ---------------------------------------------------------------------------

  /** The three pieces of component state: modal open, editing mode, current draft. */
  datatype Controller = Controller(isModalOpen: bool, isEditing: bool, draft: Record)

  /** The component's state plus the collection its host currently holds. */
  datatype Session = Session(ui: Controller, data: seq<Record>)

  /** The state on first render: closed, creating, the draft seeded with the template. */
  function Initial(template: Record, data: seq<Record>): (s: Session)
    ensures !s.ui.isModalOpen && !s.ui.isEditing
    ensures s.ui.draft == template && s.data == data
  {
    Session(Controller(false, false, template), data)
  }

  /** `openModalForNew`: creating mode, draft reset to the template, modal shown. */
  function OpenModalForNew(c: Controller, template: Record): (c': Controller)
    ensures c'.isModalOpen && !c'.isEditing && c'.draft == template
  {
    Controller(true, false, template)
  }

  /** `openModalForEdit`: editing mode, draft set to a full copy of the record, modal shown. */
  function OpenModalForEdit(c: Controller, item: Record): (c': Controller)
    ensures c'.isModalOpen && c'.isEditing && c'.draft == item
  {
    Controller(true, true, item)
  }

  /** `closeModal`: only the modal flag changes; mode and draft are kept. */
  function CloseModal(c: Controller): (c': Controller)
    ensures !c'.isModalOpen
    ensures c'.isEditing == c.isEditing && c'.draft == c.draft
  {
    c.(isModalOpen := false)
  }

  /** The value a form control's raw text becomes: the parsed number for `amount`, the text otherwise. */
  function FieldValue(name: string, raw: string, parse: string -> int): (v: Value)
    ensures name == AmountKey ==> v == Num(parse(raw))
    ensures name != AmountKey ==> v == Str(raw)
  {
    if name == AmountKey then Num(parse(raw)) else Str(raw)
  }

  /** `handleChange`: the named key of the draft takes the control's value, every other key is kept. */
  function HandleChange(c: Controller, name: string, raw: string, parse: string -> int): (c': Controller)
    ensures c'.isModalOpen == c.isModalOpen && c'.isEditing == c.isEditing
    ensures c'.draft.Keys == c.draft.Keys + {name}
    ensures c'.draft[name] == FieldValue(name, raw, parse)
    ensures forall k :: k in c.draft && k != name ==> c'.draft[k] == c.draft[k]
  {
    c.(draft := Spread(c.draft, map[name := FieldValue(name, raw, parse)]))
  }

  /** `handleSubmit`: edit or create according to the mode, then close the modal. */
  function HandleSubmit(s: Session, template: Record, freshId: string, today: string): (s': Session)
    ensures s'.ui == CloseModal(s.ui)
    ensures s.ui.isEditing ==> s'.data == SubmitEdit(s.data, s.ui.draft)
    ensures !s.ui.isEditing ==> |s'.data| == |s.data| + 1 && s'.data[..|s.data|] == s.data
    ensures !s.ui.isEditing ==> s'.data[|s.data|] == NewItem(template, s.ui.draft, freshId, today)
  {
    var data := if s.ui.isEditing then SubmitEdit(s.data, s.ui.draft)
                else SubmitCreate(s.data, template, s.ui.draft, freshId, today);
    Session(CloseModal(s.ui), data)
  }

  // ---------------------------------------------------------------------------
  // User events
  // ---------------------------------------------------------------------------

  /** What the user can do on the page: the buttons, the form controls and the confirmation answer. */
  datatype Event =
    | AddClicked
    | EditClicked(item: Record)
    | CancelClicked
    | FieldChanged(name: string, raw: string)
    | FormSubmitted(freshId: string, today: string)
    | DeleteClicked(id: string, confirmed: bool)

  /** Only a submit or a confirmed delete writes the collection. */
  predicate Commits(e: Event)
  {
    e.FormSubmitted? || (e.DeleteClicked? && e.confirmed)
  }

  /** One user event applied to the session. */
  function Step(s: Session, e: Event, template: Record, parse: string -> int): (s': Session)
    ensures !Commits(e) ==> s'.data == s.data
    ensures e.FormSubmitted? ==> !s'.ui.isModalOpen
    ensures e.DeleteClicked? ==> s'.ui == s.ui
    ensures e.CancelClicked? ==> s'.ui.draft == s.ui.draft && s'.ui.isEditing == s.ui.isEditing
  {
    match e
    case AddClicked => s.(ui := OpenModalForNew(s.ui, template))
    case EditClicked(item) => s.(ui := OpenModalForEdit(s.ui, item))
    case CancelClicked => s.(ui := CloseModal(s.ui))
    case FieldChanged(name, raw) => s.(ui := HandleChange(s.ui, name, raw, parse))
    case FormSubmitted(freshId, today) => HandleSubmit(s, template, freshId, today)
    case DeleteClicked(id, confirmed) => s.(data := HandleDelete(s.data, id, confirmed))
  }

  /** A sequence of user events applied in order. */
  function Run(s: Session, events: seq<Event>, template: Record, parse: string -> int): Session
    decreases |events|
  {
    if |events| == 0 then s else Run(Step(s, events[0], template, parse), events[1..], template, parse)
  }

  /**
   Every event keeps the ids of the collection unique, provided a create
   (a submit while not editing) is given an id no record carries.
   */
  lemma StepKeepsIdsUnique(s: Session, e: Event, template: Record, parse: string -> int)
    requires UniqueIds(s.data)
    requires e.FormSubmitted? && !s.ui.isEditing ==> FreshId(s.data, e.freshId)
    ensures UniqueIds(Step(s, e, template, parse).data)
  {
    match e
    case FormSubmitted(freshId, today) =>
      if s.ui.isEditing {
        SubmitEditKeepsIdsUnique(s.data, s.ui.draft);
      } else {
        SubmitCreateKeepsIdsUnique(s.data, template, s.ui.draft, freshId, today);
      }
    case DeleteClicked(id, confirmed) =>
      if confirmed {
        RemoveKeepsIdsUnique(s.data, id);
      }
    case _ =>
  }

  /** Two events run as two steps. */
  lemma RunPair(s: Session, events: seq<Event>, template: Record, parse: string -> int)
    requires |events| == 2
    ensures Run(s, events, template, parse) == Step(Step(s, events[0], template, parse), events[1], template, parse)
  {
    var s1 := Step(s, events[0], template, parse);
    assert events[1..][0] == events[1];
    assert Run(s1, events[1..], template, parse) == Run(Step(s1, events[1], template, parse), events[1..][1..], template, parse);
  }

  /** Opening, typing into and cancelling forms, or declining deletes, never touches the collection. */
  lemma {:induction false} RunWithoutCommitKeepsData(s: Session, events: seq<Event>, template: Record, parse: string -> int)
    requires forall i :: 0 <= i < |events| ==> !Commits(events[i])
    ensures Run(s, events, template, parse).data == s.data
    decreases |events|
  {
    if |events| > 0 {
      RunWithoutCommitKeepsData(Step(s, events[0], template, parse), events[1..], template, parse);
    }
  }

  /** Opening a record for edit and saving without changes leaves the collection identical, and closes the form. */
  lemma EditThenSaveIsNoop(s: Session, k: int, template: Record, parse: string -> int, freshId: string, today: string)
    requires UniqueIds(s.data)
    requires 0 <= k < |s.data|
    ensures Run(s, [EditClicked(s.data[k]), FormSubmitted(freshId, today)], template, parse).data == s.data
    ensures !Run(s, [EditClicked(s.data[k]), FormSubmitted(freshId, today)], template, parse).ui.isModalOpen
  {
    var events := [EditClicked(s.data[k]), FormSubmitted(freshId, today)];
    var s1 := Step(s, events[0], template, parse);
    assert s1.data == s.data && s1.ui.isEditing && s1.ui.draft == s.data[k];
    var s2 := Step(s1, events[1], template, parse);
    SubmitEditUnchangedIsNoop(s.data, k);
    RunPair(s, events, template, parse);
  }

  /** Adding a record through the form grows the collection by one and puts the record last. */
  lemma AddThenSaveAppends(s: Session, template: Record, parse: string -> int, freshId: string, today: string)
    ensures var s' := Run(s, [AddClicked, FormSubmitted(freshId, today)], template, parse);
      |s'.data| == |s.data| + 1 && s'.data[..|s.data|] == s.data
      && s'.data[|s.data|] == NewItem(template, template, freshId, today)
      && !s'.ui.isModalOpen
  {
    var events := [AddClicked, FormSubmitted(freshId, today)];
    var s1 := Step(s, events[0], template, parse);
    RunPair(s, events, template, parse);
  }
}
