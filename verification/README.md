# Business tracker: record manager and dashboard statistics

This project models the two pure cores of a small single-user business-tracking
front-end in Dafny:

- **The generic record manager** (`CrudBase`). It drives the three record pages:
  DITO applications, eAccess sign-ups and expenses. It holds three pieces of state:
  - whether the modal form is open;
  - whether the form edits an existing record or creates one;
  - the draft record the form shows.

  It handles the open-for-new, open-for-edit, close and field-change transitions.
  Submit either replaces the records whose id matches the draft, or appends a new
  record built from the page's template. Delete removes the records with an id,
  once the user confirms.
- **The dashboard statistics** (`Dashboard`):
  - application counts by status, and sales of the approved applications;
  - total eAccess sales, and a per-person breakdown over a roster of names;
  - the sum of the expense amounts.

## How the model is built

- A record is a plain object, modelled as `map<string, Value>` with
  `Value = Str(string) | Num(int)` (`Records`). A draft (`Partial<T>`) is the same
  map with some keys possibly missing.
- Object spread `{...a, ...b}` is map override (`Records.Spread`).
- `item.id === draft.id` compares the optional id fields. JavaScript's
  `undefined === undefined` holds, so two records that both lack an id match each other.
- `Types` holds the three typed records of `types.ts`, with an encoding to objects and
  a decoding back.
- `Instances` holds the three page templates (`initialFormState`). It proves that a
  record created from a draft the page's form can produce decodes as that page's type.
  In other words, the source's `as T` cast is sound for those drafts, with one exception.
  The DITO status select's empty placeholder option yields a record that does not
  decode (see "## Findings").
- `CrudBase.Step` and `CrudBase.Run` replay user events (buttons, form controls and the
  confirmation answer) against the component state and the host's collection.

These are parameters:
- The fresh id and today's date. Both are timestamps in the source.
- The answer to the delete confirmation dialog.
- The number parser used for the `amount` field (`parse: string -> int`).
- The unit prices and the sales roster, which are application constants not shown here.

Amounts are integers, for example centavos.

The model follows the code on these points, where its behaviour is easy to misread:
- Open-for-edit does not remember a target id. Submit matches the draft's own `id`
  field against every record, so every record sharing that id is merged. The
  "edit rewrites one position" and "unchanged edit is a no-op" lemmas need unique
  ids as a precondition.
- Close and submit only clear the modal flag. The editing flag and the draft survive
  until the next open.
- Delete is not limited to a viewing mode: the code deletes whenever the user confirms.
- The created id comes from the clock and is not checked for uniqueness. Keeping ids
  unique after a create is proved under the precondition that the fresh id is new.
  Edits and deletes keep ids unique unconditionally, so unique ids carry along any
  run of events whose creates get new ids (`CrudBase.StepKeepsIdsUnique`).

## Model

| member | source | states |
|---|---|---|
| Records.Spread | components/CrudBase.tsx:54 | object spread keeps the keys of both sides; the right side's value wins on shared keys and the left side's survives elsewhere |
| Records.SpreadSelf | components/CrudBase.tsx:54 | spreading a record over itself gives the same record |
| CrudBase.SubmitEdit | components/CrudBase.tsx:54 | edit-submit keeps length and order; each record whose id differs from the draft's is returned unchanged; each matching record becomes record ⊕ draft |
| CrudBase.SubmitEditNoMatch | components/CrudBase.tsx:54 | if no record's id matches the draft's, the collection is unchanged |
| CrudBase.SubmitEditAt | components/CrudBase.tsx:54 | with unique ids, an edit whose draft carries the id at position k rewrites position k only |
| CrudBase.SubmitEditUnchangedIsNoop | components/CrudBase.tsx:54 | with unique ids, submitting a full unchanged copy of a record leaves the collection identical |
| CrudBase.NewItem | components/CrudBase.tsx:56-65 | the created record has the keys of template, draft and id; its id is the fresh id; draft values beat template values; dateAdded is today's date exactly when the template has that key, and otherwise it is present only if the draft has it |
| CrudBase.SubmitCreate | components/CrudBase.tsx:56-66 | create grows the collection by exactly one; the old records are an unchanged prefix; the new record is last and carries the fresh id |
| CrudBase.SubmitCreateKeepsIdsUnique | components/CrudBase.tsx:59-66 | a fresh id that no record carries keeps the collection's ids unique |
| CrudBase.SubmitEditKeepsIds | components/CrudBase.tsx:54 | an edit leaves the id of every position as it was |
| CrudBase.SubmitEditKeepsIdsUnique | components/CrudBase.tsx:54 | an edit keeps the collection's ids unique |
| CrudBase.RemoveKeepsIdsUnique | components/CrudBase.tsx:73 | a delete keeps the collection's ids unique |
| CrudBase.StepKeepsIdsUnique | components/CrudBase.tsx:51-75 | every event keeps ids unique, provided a create gets an id no record carries |
| CrudBase.RemoveById | components/CrudBase.tsx:73 | the confirmed delete never grows the collection, and no record carrying the deleted id remains |
| CrudBase.RemoveContents | components/CrudBase.tsx:73 | the delete keeps every record with another id, with the same number of copies, and drops every record with the deleted id |
| CrudBase.RemoveConcat | components/CrudBase.tsx:73 | delete distributes over concatenation, so the kept records stay in their original order |
| CrudBase.RemoveAbsent | components/CrudBase.tsx:73 | deleting an id no record carries is a no-op |
| CrudBase.RemoveIdempotent | components/CrudBase.tsx:73 | deleting twice equals deleting once |
| CrudBase.RemoveUnique | components/CrudBase.tsx:73 | with unique ids, deleting the id at position k removes exactly that position |
| CrudBase.HandleDelete | components/CrudBase.tsx:71-75 | a declined confirmation leaves the collection unchanged; a confirmed one is the delete filter, keeping exactly the records of the collection with another id |
| CrudBase.HandleDeleteAbsent | components/CrudBase.tsx:71-75 | whatever the confirmation answer, deleting an absent id leaves the collection unchanged |
| CrudBase.Initial | components/CrudBase.tsx:23-25 | on first render the modal is closed, the form is in create mode, and the draft is the template |
| CrudBase.OpenModalForNew | components/CrudBase.tsx:27-31 | open-for-new sets editing to false, the draft to the template, and open to true |
| CrudBase.OpenModalForEdit | components/CrudBase.tsx:33-37 | open-for-edit sets editing to true, the draft to the record, and open to true |
| CrudBase.CloseModal | components/CrudBase.tsx:39-41 | close clears only the open flag; mode and draft are kept |
| CrudBase.FieldValue | components/CrudBase.tsx:45 | the `amount` control yields the parsed number, and every other control its raw text |
| CrudBase.HandleChange | components/CrudBase.tsx:43-46 | a field change sets the named key of the draft and leaves every other key, the mode and the open flag unchanged |
| CrudBase.HandleSubmit | components/CrudBase.tsx:51-69 | submit always closes the modal; in edit mode it applies the edit to the collection; in create mode it appends the new record after the unchanged old records |
| CrudBase.Step | components/CrudBase.tsx:27-75 | only a submit or a confirmed delete changes the collection; submit closes the form; delete leaves the form state alone; cancel keeps mode and draft |
| CrudBase.RunWithoutCommitKeepsData | components/CrudBase.tsx:27-75 | any run of opens, field changes, cancels and declined deletes leaves the collection unchanged |
| CrudBase.EditThenSaveIsNoop | components/CrudBase.tsx:33-69 | with unique ids, opening a record for edit and saving it unchanged leaves the collection identical and closes the form |
| CrudBase.AddThenSaveAppends | components/CrudBase.tsx:27-68 | opening the form for new and saving appends exactly one record, built from the template, and closes the form |
| Types.ParseStatus | types.ts:9 | a text is a status exactly when it is `Pending` or `Approved`, and it names that status |
| Types.DitoRoundTrip | types.ts:2-11 | decoding the encoding of an application gives the application back |
| Types.DitoDecodeAgrees | types.ts:2-11 | an object that decodes has every application key, and agrees with the encoding of what it decodes to |
| Types.EAccessRoundTrip | types.ts:13-20 | decoding the encoding of an eAccess sign-up gives it back |
| Types.EAccessDecodeAgrees | types.ts:13-20 | an object that decodes has every sign-up key, and agrees with the encoding of what it decodes to |
| Types.ExpenseRoundTrip | types.ts:22-27 | decoding the encoding of an expense gives it back |
| Types.ExpenseDecodeAgrees | types.ts:22-27 | an object that decodes has every expense key, and agrees with the encoding of what it decodes to |
| Instances.DitoTemplateDecodes | components/Dito.tsx:46-55 | the DITO template decodes to a blank application with status `Pending`, and it has `dateAdded` |
| Instances.EAccessTemplateDecodes | components/EAccess.tsx:45-52 | the eAccess template decodes to a blank sign-up, and it has `dateAdded` |
| Instances.ExpenseTemplateDecodes | components/Expenses.tsx:28-33 | the expense template decodes to a blank expense dated the render day with amount 0, and it has no `dateAdded` |
| Instances.DitoChangeKeepsDraft | components/CrudBase.tsx:43-46 | changing a DITO form field to any text keeps the draft a well-formed DITO draft; afterwards the status names a status exactly when the chosen status text does, or, for another field, when it did before |
| Instances.EAccessChangeKeepsDraft | components/CrudBase.tsx:43-46 | changing an eAccess form field keeps the draft a well-formed eAccess draft |
| Instances.ExpenseChangeKeepsDraft | components/CrudBase.tsx:43-46 | changing an expense form field keeps `amount` a number and the other fields text |
| Instances.DitoEncodingIsDraft | components/CrudBase.tsx:33-37 | a stored application opened for edit is a well-formed DITO draft whose status names a status |
| Instances.CreateDito | components/CrudBase.tsx:56-66 | a DITO create from a well-formed draft decodes as an application exactly when the draft's status (if any) names a status; it then has the fresh id and today's date as `dateAdded` |
| Instances.CreateEAccess | components/CrudBase.tsx:56-66 | an eAccess create from a well-formed draft decodes as a sign-up with the fresh id and today's date as `dateAdded` |
| Instances.CreateExpense | components/CrudBase.tsx:56-66 | an expense create is never stamped with `dateAdded`; it decodes with the fresh id and keeps the form's date, or the render day if the form gave none |
| Instances.ShownStatus | components/Dito.tsx:64 | the status select shows the draft's status when it is non-empty text, and `Pending` otherwise; it never shows the placeholder |
| Instances.PlaceholderStatusIsHidden | components/Dito.tsx:38-64 | choosing the placeholder stores an empty status while the select shows `Pending`, and the record then created does not decode as an application |
| Instances.PlaceholderEscapesStatusCounts | components/Dito.tsx:38-64 | a create after choosing the placeholder adds one uncounted object, so the dashboard's approved plus pending falls short of its total |
| Instances.PlaceholderEditDropsStatus | components/Dito.tsx:38-64 | a stored application opened for edit, set to the placeholder and saved, no longer decodes, is counted under neither status, and its former status's count drops by one |
| Instances.DitoHandleChange | components/Dito.tsx:64 | the corrected DITO field handler stores exactly the status the select shows; every other field changes as in the generic handler |
| Instances.DitoHandleChangeKeepsValidDraft | components/Dito.tsx:38-64 | with the corrected handler, every change offered by the form keeps a draft whose status names a status |
| Instances.CorrectedChangeThenCreateDecodes | components/Dito.tsx:38-64 | with the corrected handler, a create after any form change decodes as an application |
| Instances.CorrectedCreateIsCounted | components/Dito.tsx:38-64 | with the corrected handler, a create after any form change adds no uncounted object to the dashboard's status counts |
| Dashboard.WithStatus | components/Dashboard.tsx:26-27 | the status filter keeps only applications of that status and never grows |
| Dashboard.WithStatusContents | components/Dashboard.tsx:26-27 | the status filter keeps every application of that status, with the same number of copies, and nothing else |
| Dashboard.WithStatusConcat | components/Dashboard.tsx:26-27 | the status filter distributes over concatenation |
| Dashboard.StatusPartition | components/Dashboard.tsx:26-32 | over typed applications, whose status is one of the two names, approved plus pending equals the number of applications |
| Dashboard.ComputeDitoStats | components/Dashboard.tsx:25-34 | over typed applications: totalApplications is the length; approved plus pending is the total; totalSales is the approved count times the unit price |
| Dashboard.WithStatusText | components/Dashboard.tsx:26-27 | the status filter over stored objects keeps only objects whose status is that text, and never grows |
| Dashboard.WithStatusTextContents | components/Dashboard.tsx:26-27 | the text filter keeps every stored object with that status text, with the same number of copies, and nothing else |
| Dashboard.WithStatusTextUpdate | components/Dashboard.tsx:26-27 | replacing one stored object changes the count of a status text by minus one for the old object's status and plus one for the new one's |
| Dashboard.WithoutStatus | components/Dashboard.tsx:26-27 | the stored objects neither status filter keeps are those whose status is missing or another text |
| Dashboard.StoredStatusPartition | components/Dashboard.tsx:26-32 | every stored object is approved, pending, or counted under neither, so the three counts add up to the number of objects |
| Dashboard.WithoutStatusAppend | components/Dashboard.tsx:26-27 | appending an object adds one to the uncounted objects exactly when its status is neither name |
| Dashboard.ComputeStoredDitoStats | components/Dashboard.tsx:25-34 | over the stored objects: totalApplications is the length; approved plus pending plus the uncounted objects is the total, so approved plus pending equals the total exactly when no object is uncounted; totalSales is the approved count times the unit price |
| Dashboard.EncodedStatusCounts | components/Dashboard.tsx:26-27 | on the stored encodings of typed applications, the text filter counts what the typed filter counts, and no object is uncounted |
| Dashboard.StoredStatsOfTyped | components/Dashboard.tsx:25-34 | on the stored encodings of typed applications, the stored-object statistics equal the typed ones |
| Dashboard.DecodedIsCounted | components/Dashboard.tsx:26-27 | a stored object that decodes as an application is counted under its own status |
| Dashboard.WithStatusAppend | components/Dashboard.tsx:26-31 | appending an application adds one to the count of its own status and nothing to the other |
| Dashboard.DitoSalesGrowth | components/Dashboard.tsx:29 | appending an approved application raises total sales by exactly one unit price; a pending one leaves them unchanged |
| Dashboard.ProcessedBy | components/Dashboard.tsx:39 | the per-person filter keeps only records processed by that person |
| Dashboard.ProcessedByContents | components/Dashboard.tsx:39 | the per-person filter keeps every record processed by that person, with the same number of copies, and nothing else |
| Dashboard.ProcessedByConcat | components/Dashboard.tsx:39 | the per-person filter distributes over concatenation |
| Dashboard.InRoster | components/Dashboard.tsx:38-41 | only records processed by someone on the roster are kept |
| Dashboard.SalesFold | components/Dashboard.tsx:38-41 | the reduce over the roster adds every roster name as a key, set to that person's record count times the unit price, and leaves other keys of the accumulator alone |
| Dashboard.ComputeEAccessStats | components/Dashboard.tsx:36-47 | total sales is the record count times the unit price, whoever processed the records; the breakdown's keys are exactly the roster names, each the person's count times the price |
| Dashboard.SumCountsIsInRoster | components/Dashboard.tsx:38-41 | for distinct roster names, the per-person counts add up to the number of records attributed to the roster |
| Dashboard.SumOverSales | components/Dashboard.tsx:38-41 | the breakdown summed over the roster is the unit price times the summed counts |
| Dashboard.InRosterAll | components/Dashboard.tsx:38-41 | the roster keeps every record exactly when every record's processedBy is on the roster |
| Dashboard.RosterBreakdown | components/Dashboard.tsx:37-41 | for distinct roster names and a non-negative price, the breakdown's sum is at most total sales; at a positive price it equals total sales exactly when every record's processedBy is on the roster |
| Dashboard.TotalExpenses | components/Dashboard.tsx:49-51 | total expenses is 0 on no expenses and non-negative when every amount is |
| Dashboard.FoldIsSum | components/Dashboard.tsx:50 | the left fold of the amounts from s is s plus the reference sum of the amounts |
| Dashboard.SumConcat | components/Dashboard.tsx:50 | the reference sum of amounts is additive over concatenation |
| Dashboard.SumNonNegative | components/Dashboard.tsx:50 | non-negative amounts have a non-negative sum |
| Dashboard.TotalExpensesAdditive | components/Dashboard.tsx:50 | total expenses is additive over concatenation |
| Dashboard.EmptyStatsAreZero | components/Dashboard.tsx:25-51 | every statistic is zero on empty collections |
| Dashboard.DitoExample | components/Dashboard.tsx:25-34 | two approved and one pending application at a price of 2000 give 4000 in sales, 3 applications, 2 approved and 1 pending |
| Dashboard.EAccessExample | components/Dashboard.tsx:36-47 | sign-ups by Ana, Ana and Bob at 500 each give 1500 in sales and the breakdown {Ana: 1000, Bob: 500} |
| Dashboard.OffRosterExample | components/Dashboard.tsx:37-41 | one more sign-up by an off-roster name raises total sales by 500 and leaves the breakdown unchanged |
| Dashboard.ExpensesExample | components/Dashboard.tsx:50 | amounts of 10050 and 4950 centavos total exactly 15000 |

## Left out

- JSX rendering is not modelled: the table, the modal, the buttons, `StatCard`, the icons and the CSS. It is presentation only.
- Currency formatting (`toLocaleString`) is not modelled; totals are plain numbers.
- Floating point is not modelled. Amounts are integers, for example centavos, and `parseFloat` is a parameter returning an integer. A `NaN` from unparsable text has no counterpart.
- `new Date().toISOString()` is a clock read, so the fresh id and today's date are parameters.
- The expense template's default date is the render day, also a parameter.
- `window.confirm` is a browser dialog, so its answer is a boolean argument.
- Persistence through local storage is left out. The host's collection is passed in and the replacement collection returned.
- `constants.ts` is not part of this model. The two unit prices and the sales roster are parameters.
- `App.tsx`, `Login.tsx` and `Sidebar.tsx` are left out. They are view switching and a credential check against fixed strings.
- The pages' form-field helpers are left out beyond their templates, the names of the fields they edit, and the DITO status select's options and shown value (`Instances.StatusOptions`, `Instances.ShownStatus`).
- Browser form validation (`required` inputs) is left out. It does not affect the status placeholder, because the select keeps showing `Pending`.
- Instances.DitoChangeKeepsDraft: only covers changes to the fields the DITO form offers; a change to any other key is outside the form.
- Dashboard.StatusPartition: is stated over typed applications, whose status is one of the two names. A stored object with status `""` (see "## Findings") counts in the total but under neither status. `Dashboard.ComputeStoredDitoStats` states the counts over the stored objects.
- Dashboard.ComputeDitoStats: is stated over typed applications, for the same reason; `Dashboard.StoredStatsOfTyped` shows the two agree on stored typed applications.
- Dashboard.RosterBreakdown: assumes a roster of distinct names. With a repeated name, the breakdown map holds the name once, but a sum over the roster counts it twice.

## Findings

| source | as written | input that shows it | evidently intended | confidence | as-written member | corrected member |
|---|---|---|---|---|---|---|
| components/Dito.tsx:38-64 | the status select offers an empty placeholder option, and `handleChange` stores its `""` in the draft, but the select is shown with `item.status \|\| 'Pending'`, so it keeps showing `Pending` and its `required` check passes | open the DITO form, choose "Select Status", submit: the stored application has `status: ""`, which is neither status, and it does not decode as an application; the dashboard counts it in `totalApplications` but in neither `totalApproved` nor `totalPending`. The same happens on edit: an approved application set to the placeholder and saved drops out of `totalApproved` and out of DITO sales | an empty status stands for the `Pending` the select shows, so what is stored is what is shown | medium, not executed | Instances.PlaceholderStatusIsHidden, Instances.PlaceholderEscapesStatusCounts, Instances.PlaceholderEditDropsStatus | Instances.DitoHandleChange, with Instances.DitoHandleChangeKeepsValidDraft, Instances.CorrectedChangeThenCreateDecodes and Instances.CorrectedCreateIsCounted |
