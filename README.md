# Medication & Food Intake Checker — a verified model

`MedicationFoodApp` is a single-screen wizard. The user picks "Under
Medication" (medicines and foods) or "Not Under Medication" (foods and a
cooking method) and types comma-separated lists. On submit, the component
builds a JSON payload tagged `"a"` or `"b"`, records it, and POSTs it to a
backend. It then shows either the backend's answer on a result screen or an
error message under the form.

The model has six modules:

- `Text`: JavaScript's white space, `String.prototype.trim`, and the
  decimal rendering of a status code inside the `HTTP <status>` template
  literal.
- `CommaList`: the `split(",")`, `map(trim)`, `filter(Boolean)` pipeline. It
  is modelled as `Split`, `TrimEach` and `DropEmpty`, composed into
  `ParseList`. `Join` is its inverse, used to state round trips.
- `Payload`: the two request shapes and the three-way `medicine` value (a
  list, a bare string, or `undefined`). It also holds the payload builders
  and the `canSubmitUnder`/`canSubmitNot` guards.
- `Wizard`: all nine `useState` values as one `State` value. Each handler is
  a function from the old state to the new one (`Goto` for the navigation
  controls). The `response` state holds a JSON value, with `Null` as both
  its "nothing yet" value and a `null` answer, as in the component. `Consistent` is the
  invariant every reachable state keeps.
- `App`: the component as the class `MedicationFoodApp`. Each state hook is
  a field, and each handler is a method that updates those fields in place.
  Each method's postcondition says that its new state is the matching
  `Wizard` function applied to the old state.
- `Optional`: the `null`-or-value type.

`callBackend` is asynchronous. It is split at its `await` into two methods:

- `BeginCall`: loading switches on, and the previous error and response are
  cleared.
- `SettleCall(o)`: runs once `fetch` has ended with outcome `o`, including
  the `finally` block.

The network becomes the `Outcome` parameter:

- a response with its HTTP status, and a body that either parses as JSON or
  fails to parse with a message;
- or a transport failure with a message.

`medicine` is a bare string for one entry and a list for two or more. Zero
entries give `undefined`, not an empty list, because the code writes
`meds.length > 1 ? meds : meds[0]`. The model follows this
(`Payload.MedicineOf`). `Payload.CommaOnlyMedicine` shows that the case is
reachable: the input "," passes the submit guard and yields no entry.

## Model

| member | source | states |
|---|---|---|
| Text.IsSpace | MedicationFoodApp.tsx:104 | the characters `trim` removes: exactly ECMAScript's WhiteSpace and LineTerminator code points |
| Text.Trim | MedicationFoodApp.tsx:104 | `trim` yields a string with no white space at either end, no longer than its input |
| Text.TrimIsSlice | MedicationFoodApp.tsx:104 | the trimmed string is a contiguous slice of the input |
| Text.TrimCutsSpace | MedicationFoodApp.tsx:104 | every character `trim` removes, in front or behind, is white space |
| Text.TrimEmptyIff | MedicationFoodApp.tsx:79 | `trim` gives "" exactly when the input has no non-space character |
| Text.TrimIdempotent | MedicationFoodApp.tsx:120 | trimming an already trimmed cooking method changes nothing |
| Text.Decimal | MedicationFoodApp.tsx:92 | the status is written as at least one decimal digit, with no leading zero: a leading "0" occurs only as the whole text "0" for 0 |
| Text.DecimalRoundTrip | MedicationFoodApp.tsx:92 | reading the decimal text back gives the status |
| Text.DecimalInjective | MedicationFoodApp.tsx:92 | different statuses are written differently, so different non-ok statuses give different error texts |
| CommaList.Split | MedicationFoodApp.tsx:104 | `split(",")` always yields at least one piece |
| CommaList.TrimEach | MedicationFoodApp.tsx:104 | `.map((m) => m.trim())`: one trimmed piece per piece, in order |
| CommaList.DropEmpty | MedicationFoodApp.tsx:104 | `.filter(Boolean)`: the non-empty pieces in their order, never more than there were |
| CommaList.ParseList | MedicationFoodApp.tsx:104 | the whole split, trim, filter pipeline; its properties are the ParseList lemmas below |
| CommaList.SplitLength | MedicationFoodApp.tsx:104 | there is exactly one more piece than there are commas |
| CommaList.JoinSplit | MedicationFoodApp.tsx:104 | gluing the pieces back with commas restores the input, so nothing is lost or reordered |
| CommaList.SplitJoin | MedicationFoodApp.tsx:104 | splitting comma-free pieces glued with commas gives those pieces back |
| CommaList.SplitAppend | MedicationFoodApp.tsx:104 | the pieces of `a + "," + b` are the pieces of `a` followed by those of `b` |
| CommaList.ParseListTokens | MedicationFoodApp.tsx:104-105 | every parsed entry is non-empty, trimmed and comma-free; there are at most commas + 1 entries |
| CommaList.ParseListAppend | MedicationFoodApp.tsx:104 | entries keep the order of the segments they come from: parsing `a + "," + b` gives the entries of `a`, then those of `b` |
| CommaList.ParseListSegment | MedicationFoodApp.tsx:104 | a comma-free field gives its trimmed text, or no entry when that is empty |
| CommaList.ParseListToken | MedicationFoodApp.tsx:104 | a single clean entry parses to itself |
| CommaList.ParseListPair | MedicationFoodApp.tsx:104 | "a, b" typed with a space after the comma parses to [a, b] |
| CommaList.ParseListTriple | MedicationFoodApp.tsx:116 | padding spaces and an empty piece between two commas are dropped, and the three entries stay in order |
| CommaList.ParseListExample | MedicationFoodApp.tsx:116 | "a, b ,,c" parses to ["a", "b", "c"] |
| CommaList.ParseListJoin | MedicationFoodApp.tsx:104 | any list of clean entries, joined with commas, parses back to itself |
| CommaList.ParseListStable | MedicationFoodApp.tsx:104 | parsing is stable: the parsed entries, joined with commas and parsed again, are unchanged |
| CommaList.ParseListEmptyIff | MedicationFoodApp.tsx:104 | a field yields no entry exactly when it holds only white space and commas |
| Payload.MedicineOf | MedicationFoodApp.tsx:108 | `medicine` is a list exactly when there are two or more names, a bare name exactly when there is one, `undefined` exactly when there is none, and it stands for exactly the parsed names |
| Payload.Choice | MedicationFoodApp.tsx:107 | the `choice` tag of a payload: "a" or "b" |
| Payload.BuildUnder | MedicationFoodApp.tsx:103-110 | the payload has choice "a", its medicine is `MedicineOf` the parsed medicines (so list, bare name or `undefined` by count) and stands for exactly those names, and its foods are the parsed foods |
| Payload.BuildNot | MedicationFoodApp.tsx:115-121 | the payload has choice "b", its food items are the parsed foods, and its cooking method is the trimmed field |
| Payload.CanSubmitUnder | MedicationFoodApp.tsx:79 | `canSubmitUnder`: both fields are non-empty after trimming |
| Payload.CanSubmitNot | MedicationFoodApp.tsx:80 | `canSubmitNot`: both fields are non-empty after trimming |
| Payload.CanSubmitUnderIff | MedicationFoodApp.tsx:79 | `canSubmitUnder` holds exactly when both fields contain a non-space character |
| Payload.CanSubmitNotIff | MedicationFoodApp.tsx:80 | `canSubmitNot` holds exactly when both fields contain a non-space character |
| Payload.EntriesPassGuard | MedicationFoodApp.tsx:79 | a field that yields at least one entry passes its half of the guard |
| Payload.BuildUnderWellFormed | MedicationFoodApp.tsx:104-109 | every medicine name and food sent is a clean entry |
| Payload.BuildNotWellFormed | MedicationFoodApp.tsx:116-120 | every food item sent is a clean entry, and the cooking method is trimmed |
| Payload.CommaParsesToNothing | MedicationFoodApp.tsx:104 | the field "," yields no entry |
| Payload.CommaOnlyMedicine | MedicationFoodApp.tsx:108 | "," passes `canSubmitUnder`, yet the payload's `medicine` is `undefined` |
| Payload.CommaOnlyFoodItems | MedicationFoodApp.tsx:116 | "," passes `canSubmitNot`, yet no food item is sent |
| Payload.OneMedicineExample | MedicationFoodApp.tsx:108 | "aspirin" is sent as the bare name "aspirin" |
| Payload.TwoMedicinesExample | MedicationFoodApp.tsx:108 | "aspirin, ibuprofen" is sent as the list ["aspirin", "ibuprofen"] |
| Wizard.Succeeds | MedicationFoodApp.tsx:92-93 | a request succeeds when its status is ok and its body parses as JSON |
| Wizard.IsOk | MedicationFoodApp.tsx:92 | `res.ok`: the status lies in 200 to 299 |
| Wizard.FailureMessage | MedicationFoodApp.tsx:92 | the message caught at line 96: "HTTP <status>" for a status that is not ok, otherwise the failure's own message |
| Wizard.ErrorText | MedicationFoodApp.tsx:97 | the stored error is never empty, and a non-empty exception message is stored as it is |
| Wizard.Initial | MedicationFoodApp.tsx:68-77 | the `useState` initial values |
| Wizard.Edit | MedicationFoodApp.tsx:160 | an input's `onChange` sets its own field (likewise lines 164, 182 and 186) |
| Wizard.Begin | MedicationFoodApp.tsx:83-85 | loading on, error and response cleared |
| Wizard.SubmitUnder | MedicationFoodApp.tsx:103-113 | the payload built from the medicine and food fields recorded, then the call begun |
| Wizard.SubmitNot | MedicationFoodApp.tsx:115-124 | the payload built from the food and cooking-method fields recorded, then the call begun |
| Wizard.Goto | MedicationFoodApp.tsx:131 | `setStep` from a navigation control (also lines 147, 148 and 202): only the step changes |
| Wizard.Settle | MedicationFoodApp.tsx:86-99 | on success the answer stored and the result step shown, otherwise the error stored; loading ends either way; its properties are `SettleEffect` |
| Wizard.InitialConsistent | MedicationFoodApp.tsx:68-77 | the first render is on the choice screen, not loading, and satisfies the invariant |
| Wizard.EditEffect | MedicationFoodApp.tsx:160 | editing an input changes only that field and keeps the invariant |
| Wizard.GotoConsistent | MedicationFoodApp.tsx:131 | moving to any step other than the result step sets that step, changes nothing else and keeps the invariant |
| Wizard.RecordConsistent | MedicationFoodApp.tsx:111 | recording a payload while idle keeps the invariant |
| Wizard.SubmitUnderEffect | MedicationFoodApp.tsx:103-113 | the recorded payload is built from the medicine and food fields; loading is on, error and response are cleared; the step and the text fields stay as they were |
| Wizard.SubmitNotEffect | MedicationFoodApp.tsx:115-124 | the recorded payload is built from the food and cooking-method fields; loading is on, error and response are cleared; the step and the text fields stay as they were |
| Wizard.SettleEffect | MedicationFoodApp.tsx:86-99 | loading ends; the step becomes result exactly on success, else it stays; on success the answer is stored and no error, otherwise the error and no response; the recorded payload is not cleared |
| Wizard.UnderRequestCycle | MedicationFoodApp.tsx:103-113 | after a whole request from the medication form, the payload stays recorded whatever happens; success shows the result, failure keeps the form with the error |
| Wizard.NotRequestCycle | MedicationFoodApp.tsx:115-124 | the same for the other form |
| Wizard.HttpErrorNamesStatus | MedicationFoodApp.tsx:92 | a status that is not ok is reported as exactly "HTTP " followed by the status in decimal, from which the status reads back, and the step is unchanged |
| Wizard.ServerErrorExample | MedicationFoodApp.tsx:92 | status 500 leaves the error "HTTP 500" and keeps the form on screen |
| Wizard.ParseWarfarin | MedicationFoodApp.tsx:104 | "warfarin" parses to ["warfarin"] |
| Wizard.ParseSpinachKale | MedicationFoodApp.tsx:105 | "spinach, kale" parses to ["spinach", "kale"] |
| Wizard.UnderMedicationWalkThrough | MedicationFoodApp.tsx:103-113 | warfarin with "spinach, kale", answered 200, shows the answer on the result step and records {choice "a", medicine "warfarin", foods ["spinach", "kale"]} |
| App.MedicationFoodApp.constructor | MedicationFoodApp.tsx:68-77 | initial fields: the choice screen, not loading, no error, request or response, all inputs empty |
| App.MedicationFoodApp.UpdateField | MedicationFoodApp.tsx:160 | an input's `onChange`, on the form step that shows that input, sets that field and nothing else (likewise lines 164, 182 and 186) |
| App.MedicationFoodApp.ChooseUnder | MedicationFoodApp.tsx:147 | the first tile moves to the medication form and changes nothing else |
| App.MedicationFoodApp.ChooseNot | MedicationFoodApp.tsx:148 | the second tile moves to the other form and changes nothing else |
| App.MedicationFoodApp.BackToChoose | MedicationFoodApp.tsx:131 | the back arrow, and the "New check" button of line 202, move to the choice screen and change nothing else |
| App.MedicationFoodApp.Record | MedicationFoodApp.tsx:111 | `setOutbound(payload)` while idle: only the recorded request changes, to the payload, and the invariant is kept |
| App.MedicationFoodApp.BeginCall | MedicationFoodApp.tsx:82-85 | called with the payload just recorded as `outbound`, the one that is sent: loading on, error and response cleared, nothing else changed |
| App.MedicationFoodApp.SettleCall | MedicationFoodApp.tsx:86-100 | the new state is `Wizard.Settle` of the old one and the invariant holds |
| App.MedicationFoodApp.SubmitUnder | MedicationFoodApp.tsx:103-113 | the payload sent is `BuildUnder` of the fields and is exactly the one recorded as `outbound`; the new state is `Wizard.SubmitUnder` of the old one |
| App.MedicationFoodApp.SubmitNot | MedicationFoodApp.tsx:115-124 | the payload sent is `BuildNot` of the fields and is exactly the one recorded as `outbound`; the new state is `Wizard.SubmitNot` of the old one |

## Left out

- The rendering (JSX, cards, icons, animation) shows state and is not
  modelled. The model keeps only which handler each control can call: the
  tiles on the choice screen, the back arrow on every other step, and each
  form's inputs and Submit button on that form's step.
- `pretty` and `JSON.stringify` are not modelled. The payload is modelled as
  a value of its object's shape, not as the serialized text. In
  particular, `JSON.stringify` drops a `medicine` that is `undefined`, and
  the model does not capture this.
- The `fetch` call, its URL and the `Content-Type` header are not modelled.
  They sit outside the state, so the outcome of a request is an input.
- The endpoint URL read from the environment is configuration, and it is
  not modelled.
- A JSON answer is carried as a value and never inspected. Numbers are kept
  as their literal text, not as floating point.
- The result screen shows the JSON block only for a truthy answer: `null`,
  `false` and `""` show nothing, and `0` shows as a bare "0". The model
  does not capture this.
- App.MedicationFoodApp.SubmitUnder requires that no request is in flight,
  as the Submit button's `disabled` makes it: two overlapping requests
  racing to settle are not modelled.
- App.MedicationFoodApp.SubmitNot: the same.
- App.MedicationFoodApp.SubmitUnder does not require `canSubmitUnder`. The
  handler does not check it. The guard is modelled on its own in `Payload`.
- App.MedicationFoodApp.SettleCall is stated through `Wizard.Settle`, whose
  properties are the lemmas above. The back arrow stays available during a
  request, so a late success still moves to the result step from the
  choice screen. The model keeps this behaviour.
