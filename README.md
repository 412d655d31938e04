# Waiting-list form controller

A verified Dafny model of the signup logic of the Boris Boarman website. The
page's `App` component (src/App.tsx) holds a waiting-list form with an email
field and an optional Twitter handle. The component validates the handle,
derives a profile link from it, and on submit inserts
`{email, twitter_handle}` into the `subscribers` collection of a remote store.

- `handle.dfy`, module `TwitterHandle`: the pure helpers.
  - `ValidateTwitterHandle` is the handle validator. The empty message means valid.
  - `MatchesHandlePattern` is the regular expression `^@[A-Za-z0-9_]{1,15}$`,
    written as the greedy bounded run `NameRun` followed by the end-of-input
    anchor. It is proved equal to the plain reading `IsWellFormedHandle`.
  - `GetTwitterUrl` is the profile-link deriver.
- `signup_form.dfy`, module `SignupForm`: the class `WaitingListForm`.
  - Its fields are the component's five state variables: `email`, `twitter`,
    `twitterError`, `isSubmitting` and `submitStatus`.
  - Its methods are the event handlers.
  - `Valid()` is the invariant `twitterError == ValidateTwitterHandle(twitter)`.
    It holds initially, and `HandleTwitterChange` re-establishes it from any state.
    `HandleSubmit` keeps it when nothing runs while the insert is pending.
    An edit of the handle during that wait can break it (see "## Findings").
    The handlers do not require it: each also runs from a state that breaks it, as the source does.
  - `HandleChecked()` is the weaker invariant `twitter != "" ==> Valid()`.
    It holds initially, and every handler keeps it in every interleaving.
    Under it, every issued request carries no handle or a well-formed one,
    and the profile link is shown only for a well-formed handle.
  - `SubmitScenarios` runs the form through three worked examples: a refused handle,
    a successful signup without a handle, and a failed signup with a valid handle.
  - `handleSubmit` suspends once, at the await of the insert. `StartSubmit`
    models the part before the await and `FinishSubmit` the part after it.
    `HandleSubmit` runs the two back to back.
  - The store is not modelled. `HandleSubmit` returns the record it would
    insert, and the store's answer (`Inserted` or `InsertFailed`) is a parameter.

## Model

| member | source | states |
|---|---|---|
| TwitterHandle.NameRun | src/App.tsx:29 | `[A-Za-z0-9_]{0,max}` consumes at most `max` characters. Every consumed character is in the class. It stops early only at the end of the input or at a character outside the class. |
| TwitterHandle.MatchesHandlePattern | src/App.tsx:29 | The regular-expression test succeeds iff the handle is `@` followed by 1 to 15 class characters and nothing else. A trailing newline fails, because `$` without the `m` flag matches only at the end of the input. |
| TwitterHandle.ValidateTwitterHandle | src/App.tsx:24-33 | The empty handle gets `""`. A non-empty handle not starting with `@` gets exactly "Twitter handle must start with @". A handle starting with `@` gets `""` iff 1 to 15 class characters follow, and "Invalid Twitter handle format" otherwise. Overall: `""` iff the handle is empty or well formed. |
| TwitterHandle.GetTwitterUrl | src/App.tsx:41-44 | The link is empty exactly for `""` and the bare `"@"`. |
| TwitterHandle.ValidHandleProfileUrl | src/App.tsx:41-44 | For a non-empty valid handle, the link is `https://twitter.com/` followed by a name of 1 to 15 class characters. The name contains no `@`, and `"@" + name` is the handle again. |
| TwitterHandle.ProfileUrlInjective | src/App.tsx:41-44 | Two non-empty valid handles with the same link are equal. |
| TwitterHandle.ValidatorExamples | src/App.tsx:24-33 | `""` and `"@boris_99"` are valid. `"alice"` gets the must-start-with-@ message. `"@"` gets the invalid-format message. |
| TwitterHandle.ValidatorRejections | src/App.tsx:29-31 | `"@this-is-way-too-long-1"` and `"@boris\n"` get the invalid-format message. |
| TwitterHandle.ProfileUrlExamples | src/App.tsx:41-44 | `""` and `"@"` give no link. `"@boris"` gives `https://twitter.com/boris`. |
| SignupForm.RecordFor | src/App.tsx:59-62 | The inserted row carries the email unchanged. The handle is absent (null) iff the handle field is empty; otherwise it is the handle as typed. |
| SignupForm.WaitingListForm.constructor | src/App.tsx:18-22 | Initially all three strings are empty, nothing is in flight and the status is idle, so the invariant holds. |
| SignupForm.WaitingListForm.SubmitRefused | src/App.tsx:48-50 | In any state, the guard passes when the handle or its message is empty. Under the invariant, it refuses iff a handle is present and it is not well formed. |
| SignupForm.WaitingListForm.SubmitDisabled | src/App.tsx:199 | In any state, the button is enabled when nothing is in flight and the handle or its message is empty. Under the invariant, it is disabled iff a submission is in flight, or a handle is present and it is not well formed. |
| SignupForm.WaitingListForm.ShowsProfileLink | src/App.tsx:167 | The link is shown iff a handle is present and its message is empty. Under the weaker invariant, that handle is well formed. |
| SignupForm.WaitingListForm.SetEmail | src/App.tsx:144 | The email field takes the typed value, and nothing else changes. The weaker invariant is kept. |
| SignupForm.WaitingListForm.HandleTwitterChange | src/App.tsx:35-39 | The handle takes the typed value and its message becomes the validator's verdict on it. This re-establishes both invariants from any state. |
| SignupForm.WaitingListForm.StartSubmit | src/App.tsx:46-63 | In any state, a request is issued iff the guard passes, that is, unless both the handle and its message are non-empty. A refused call changes nothing. An accepted call issues exactly one request, the record of the current contents, with a submission in flight and the status idle. From a state with the invariant: the invariant is kept, the guard passes iff the handle is empty or well formed, and after an accepted call the message is empty. From a state with the weaker invariant: that invariant is kept, and an issued request carries no handle or a well-formed one. |
| SignupForm.WaitingListForm.FinishSubmit | src/App.tsx:65-75 | On success: status `success`, email and handle empty. On failure: status `error`, email and handle kept. Either way nothing is in flight and the handle's message is untouched. So after success the invariant holds iff that message was empty. The weaker invariant is kept on both outcomes. |
| SignupForm.WaitingListForm.FinishSubmitClearingError | src/App.tsx:65-75 | The corrected continuation. It is `FinishSubmit` that also clears the handle's message on success. So it establishes the invariant after success from any state, and keeps it after failure. |
| SignupForm.WaitingListForm.HandleSubmit | src/App.tsx:46-76 | In any state, a request is issued iff the handle or its message is empty, and the message is never changed. A refused call changes no field. An accepted call issues one request, the record of the contents before the call, and ends with nothing in flight. After success: status `success`, email and handle empty. After failure: status `error`, email and handle unchanged. From a state with the invariant: a request is issued iff the handle is empty or well formed, and the invariant still holds afterwards. From a state with the weaker invariant: that invariant is kept, and an issued request carries no handle or a well-formed one. |
| SignupForm.EditWhileInsertPending | src/App.tsx:67-69 | The as-written counterexample. The handle is edited to `bad` while the insert is pending, then the insert succeeds. The form ends with an empty handle but the message "Twitter handle must start with @", which breaks the invariant. |
| SignupForm.SubmitAfterStaleError | src/App.tsx:48-50 | Continuing the as-written counterexample, the button is enabled and the guard passes, because the handle is empty. After an email is typed, a further successful submit sends the record with that email and no handle, and the stale message stays. The weaker invariant holds throughout. |
| SignupForm.EditWhileInsertPendingCorrected | src/App.tsx:67-69 | The same run with the corrected continuation ends with an empty handle, an empty message and the invariant holding. |

## Findings

| source | as written | input that shows it | evidently intended | confidence | as-written member | corrected member |
|---|---|---|---|---|---|---|
| src/App.tsx:67-69 | On success, `handleSubmit` clears the handle with `setTwitter('')` but never resets `twitterError`. | Submit with an empty or valid handle. While the insert is pending, type `bad` in the handle field. The insert then succeeds. | The message beside the handle field belongs to the handle in it. Clearing the handle should clear its message too. As written, the form shows "Twitter handle must start with @" under an empty field. | medium, not executed | SignupForm.WaitingListForm.FinishSubmit, SignupForm.EditWhileInsertPending | SignupForm.WaitingListForm.FinishSubmitClearingError, SignupForm.EditWhileInsertPendingCorrected |

From a state where the invariant holds, and with nothing running while the
insert is pending, the two continuations behave the same. In that case the
guard has already ensured that the message is empty when the handle is cleared.
So `HandleSubmit` keeps the code's own `FinishSubmit`, and its contract proves
the invariant preserved from such a state.

From a state that breaks the invariant, the two continuations differ. One
example is the end of `EditWhileInsertPending`: an empty handle under a stale
message. A further successful submit with `FinishSubmit` keeps the stale message
(`SubmitAfterStaleError`), while `FinishSubmitClearingError` would clear it.
In every run, the weaker invariant `HandleChecked()` still holds. So the stale
state never lets a malformed handle reach the store.

## Left out

- The page's rendering is not modelled because it is presentation: the JSX, the `PigNoseLogo` SVG, class names, links and copy text. This includes the conditions for showing the error text and the status notices. The one rendering condition kept is the profile link's, `ShowsProfileLink`.
- The store client and its `insert` call are external. Each submission's request is returned as a value, and the store's answer is a parameter.
- The `console.error` call on failure is logging only, so it is not modelled.
- React's state scheduling and the await are not modelled beyond the split into `StartSubmit` and `FinishSubmit`.
  - The model has no scheduler or event queue.
  - `EditWhileInsertPending` shows one interleaving. Other interleavings are not enumerated.
  - Example: the user types a new email while the insert is pending and that email is then cleared. The model does not explore such runs.
- The `type="email"` and `required` constraints on the email input are enforced by the browser, not by this code. The model puts no condition on the email.
- Strings are sequences of Unicode characters, while JavaScript strings are UTF-16 code units.
  - The two readings give the validator the same verdict on every handle: a character outside the Basic Multilingual Plane is never in the class, so such a handle is rejected either way.
  - `GetTwitterUrl` checks nothing, and on such a handle the readings differ. For a handle that starts with such a character, `substring(1)` leaves a lone surrogate, while the model drops the whole character.
  - The page derives a link only when the handle is non-empty and its message is empty (src/App.tsx:167). `ShowsProfileLink` proves that under `HandleChecked()` this means only for well-formed handles. Those are all ASCII, and there the two readings agree.
- vite.config.ts is build configuration, and it is not part of this model.
