# URL shortener component, modelled in Dafny

The repository is a single-page URL shortener whose whole logic lives in the
`App` component (`App.jsx`). The component keeps three state cells:

- `urlInputs`: the pending form entries. There are at most five. Each entry has a
  long URL, an optional custom code and a validity in minutes.
- `urls`: the registry of shortened links. Each record has a long URL, a
  shortcode, creation and expiry times, a click count and the access times.
- `error`: the error banner.

Four event handlers change these cells. `addUrlInput` adds a blank entry.
`handleInputChange` edits one field of one entry. `handleSubmit` validates the
whole batch and then either reports the first failure or appends one record per
entry and resets the form. `handleRedirect` finds the first record with a
shortcode and either counts a visit or reports that the link has expired.

The model has two modules:

- `Registry` (registry.dfy) holds the data model and one pure transition per
  handler (`AddInput`, `EditInput`, `Submit`, `Redirect`). It also holds the
  pieces they are built from: the per-entry check, the first-failure search,
  record construction, the first-match lookup and the visit. The lemmas cover
  all-or-nothing submit, first-failure reporting, in-order append, the
  redirect cases and shortcode shadowing. An invariant is proved for every
  state reachable from page load by any sequence of events: one to five
  pending entries, `clicks == |clickDetails|`, every access before expiry, and
  at least one minute of validity. A second result says that existing records
  are never removed, reordered or re-timed.
- `AppComponent` (app.dfy) holds class `App`. It has the three state cells as
  fields and one method per handler. Each method updates the fields in place
  and is proved to perform the matching `Registry` transition and to keep the
  invariant. `ValidateBatch` is the validation `for` loop of `handleSubmit`,
  with its early return. `ExpiryScenario` is a client that submits a
  one-minute link, visits it before expiry and visits it again after expiry.

The environment is supplied through parameters:

- URL validity (the browser's `URL` constructor, which follows the WHATWG URL
  Standard, section 4.4 "URL parsing") is the parameter `validUrl: string -> bool`.
  Every result holds for any such predicate.
- The clock is a millisecond timestamp `now: nat`, taken once per handler call.
- The random shortcode of entry `i` of a batch is `randomCode(i)`. It is used
  only when the entry's custom code is empty.

Four details of the code shape the model:

- An expired redirect sets the error banner (App.jsx:99), so it does change state.
- A submit clears the error before validating (App.jsx:40), so a rejected
  submit replaces any earlier error with its own.
- The validity field is stored unchecked (App.jsx:131) and is only checked at
  submit, so entries may hold values below 1.
- Times are JavaScript Dates, which hold at most 8.64e15 milliseconds from the
  epoch. An expiry beyond that is an Invalid Date (App.jsx:68), and the
  comparison `now < url.expiry` (App.jsx:83) is then always false. The model
  keeps the computed expiry in milliseconds and treats a record as live only
  when its expiry is a valid Date and lies after `now`.

## Model

| member | source | states |
|---|---|---|
| Registry.AddInput | App.jsx:17-21 | below five entries exactly one default entry (empty URL and code, 30 minutes) is appended after the old ones; at five the list is unchanged; registry and error untouched |
| Registry.ApplyEdit | App.jsx:25 | the edited field takes the new value and the other two fields keep theirs |
| Registry.EditInput | App.jsx:23-27 | succeeds iff the index names an entry; then only that entry changes, the length and every other entry are unchanged, and so are registry and error |
| Registry.InvalidUrlMessage | App.jsx:46 | the malformed-URL message ends with the offending URL and differs from the validity message |
| Registry.CheckInput | App.jsx:44-53 | an entry passes iff its URL is valid and its validity is at least 1; a bad URL takes precedence over a bad validity; every failure message is non-empty |
| Registry.FirstFailing | App.jsx:43-54 | returns the position of the first failing entry: all entries before it pass, and the entry at it fails unless it is the end of the list |
| Registry.BatchError | App.jsx:43-54 | reports no error iff every entry passes |
| Registry.FirstFailureUnique | App.jsx:43-54 | a failing entry preceded only by passing entries is the one whose error the batch reports |
| Registry.MakeRecord | App.jsx:58-71 | the record keeps the entry's URL, takes the custom code when non-empty and the generated code otherwise, starts with no clicks, expires validity minutes after creation, is well-formed when built from a validated entry, and is live at creation iff the validity is at least 1 and the expiry is still a valid Date |
| Registry.NewRecords | App.jsx:57-72 | one record per pending entry |
| Registry.Submit | App.jsx:38-76 | error is empty iff the batch passes; a rejected batch leaves records and entries unchanged; an accepted one keeps the old records as a prefix, grows the registry by the number of entries and resets the form to one default entry |
| Registry.SubmitReportsFirstFailure | App.jsx:43-54 | a rejected submit shows the error of an entry that fails while every earlier entry passes |
| Registry.SubmitAppendsInOrder | App.jsx:57-74 | after an accepted submit, position old-length + i holds the record of entry i with the i-th generated code, well-formed, and live at submit time iff its expiry is still a valid Date |
| Registry.FindIndex | App.jsx:79 | -1 iff no record has the shortcode; otherwise the lowest index whose record has it |
| Registry.Visit | App.jsx:89-94 | clicks grow by one and the access time is appended; URL, code, creation and expiry are kept; a live well-formed record stays well-formed |
| Registry.Redirect | App.jsx:78-102 | the pending entries and the registry length never change; with no match nothing changes, the error included; every record other than the first match is unchanged |
| Registry.RedirectLive | App.jsx:83-95 | a live first match is replaced by its visit and the error is untouched |
| Registry.RedirectExpired | App.jsx:83-100 | an expired first match (now not strictly before expiry) leaves the registry unchanged and sets only the expired error |
| Registry.BeyondDateRangeNeverLive | App.jsx:68-99 | a first match whose expiry lies beyond the last valid Date is never visited: the redirect only sets the expired error |
| Registry.ShadowedRecordUnreachable | App.jsx:79 | a record whose shortcode an earlier record also has is never changed by a redirect on that code |
| Registry.AddInputKeepsInv | App.jsx:17-21 | adding an entry keeps one to five entries and all records well-formed |
| Registry.EditInputKeepsInv | App.jsx:23-27 | an edit keeps the invariant |
| Registry.SubmitKeepsInv | App.jsx:57-75 | a submit keeps the invariant: the reset form has one entry and every new record is well-formed |
| Registry.RedirectKeepsInv | App.jsx:89-95 | a redirect keeps clicks equal to the number of access times and only records accesses before expiry |
| Registry.StepKeepsInv | App.jsx:17-102 | every handler keeps the invariant |
| Registry.RunKeepsInv | App.jsx:17-102 | any sequence of handler calls keeps the invariant |
| Registry.ReachableStatesBounded | App.jsx:6-8 | from the initial state, after any events, there are one to five pending entries and every record's click count equals its number of access times |
| Registry.StepExtends | App.jsx:74-94 | a handler never removes, reorders or re-times a record and only extends click histories |
| Registry.RunExtends | App.jsx:74-94 | the same holds over any sequence of handler calls |
| AppComponent.ValidateBatch | App.jsx:43-54 | the loop returns the batch error, that of the first failing entry, and none iff every entry passes |
| AppComponent.App.constructor | App.jsx:6-8 | starts with one default entry, no records and no error |
| AppComponent.App.AddUrlInput | App.jsx:17-21 | appends a default entry below five entries and is a no-op at five; keeps the invariant |
| AppComponent.App.HandleInputChange | App.jsx:23-27 | for an index inside the list sets only the chosen field of that entry; otherwise reports the thrown error and changes nothing |
| AppComponent.App.HandleSubmit | App.jsx:38-76 | a rejected batch sets only the first failure's error; an accepted one appends the new records after the old ones, resets the form and clears the error |
| AppComponent.App.HandleRedirect | App.jsx:78-102 | no match: nothing changes; live first match: that record is visited and its long URL is opened; expired first match: only the expired error is set |
| AppComponent.ExpiryScenario | App.jsx:23-102 | none of the three edits throws; a one-minute link with code abc1 opens once before expiry (one click), and a later visit opens nothing, leaves one click and sets the expired error |

## Left out

- Rendering and event wiring (App.jsx:104-174) and `e.preventDefault()` are presentation only.
- Logging through `logger` and the start/stop effect hook send events to a module that is not part of this model, and nothing comes back from them.
- `window.open` is a browser side effect; `HandleRedirect` returns the URL it would open instead.
- The internals of `new URL(...)` are replaced by the arbitrary predicate `validUrl`.
- `Math.random().toString(36).substr(2, 6)` is replaced by the supplied `randomCode`. The code gives at most six base-36 digits, with no fixed length and no uniqueness. The model assumes nothing about the code, so every result holds for any supplied `randomCode`.
- `Date` objects and their formatting are replaced by integer milliseconds; the Date range limit is kept only where it matters, in `IsLive`. The clock `now` is assumed to be a valid Date. The component reads the clock twice per record, for `created` and `expiry`; the model reads it once per call.
- `parseInt` returning `NaN` for an empty or non-numeric validity field is not modelled; validity is always an integer.
- HandleInputChange: the field name is one of the three the form uses (the `Edit` datatype), not an arbitrary property name.
- HandleInputChange: in the code, the edited entry object is shared with the previous state array and is changed in place. The model replaces the entry by value, so this aliasing is not represented.
- React's state batching and closure capture are not modelled; each handler call runs to completion on the current state.
