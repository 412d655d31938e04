/**
 The waiting-list form controller of the `App` component (src/App.tsx).

 The component keeps five pieces of state: the email text, the handle
 text, the handle's error message, whether a submission is in flight, and
 the status of the last submission. They are the fields of the class
 `WaitingListForm`; the component's event handlers are its methods.

 The remote insert into the `subscribers` collection is not part of this
 model: `HandleSubmit` returns the record it would send and takes the
 store's answer as a parameter. `handleSubmit` suspends once, at the await
 of that insert; `StartSubmit` is the part before the await and
 `FinishSubmit` the part after it, and `HandleSubmit` runs one after the
 other, as happens when nothing else runs while the insert is pending.
 */
module SignupForm {
  import opened TwitterHandle

  datatype Option<T> = None | Some(value: T)

  /** `submitStatus`: the outcome of the last submission attempt. */
  datatype SubmitStatus = Idle | Success | Error

  /** What the store answers to the insert: no error, or an error (network
      fault or rejection; the cause is not told apart). */
  datatype InsertOutcome = Inserted | InsertFailed

  /** The row sent to the `subscribers` collection. */
  datatype SubscriberRecord = SubscriberRecord(email: string, twitterHandle: Option<string>)

  /**
   The row for the current form contents (`twitter || null`): the email as
   typed, and the handle, with the empty handle sent as an explicit absence
   rather than as an empty string.
   */
  function RecordFor(email: string, twitter: string): (r: SubscriberRecord)
    ensures r.email == email
    ensures r.twitterHandle.None? <==> twitter == ""
    ensures r.twitterHandle.Some? ==> r.twitterHandle.value == twitter && r.twitterHandle.value != ""
  {
    SubscriberRecord(email, if twitter == "" then None else Some(twitter))
  }

  class WaitingListForm {
    var email: string
    var twitter: string
    var twitterError: string
    var isSubmitting: bool
    var submitStatus: SubmitStatus

    /** The error shown beside the handle field is the validator's verdict on
        the handle in it. */
    ghost predicate Valid()
      reads this
    {
      twitterError == ValidateTwitterHandle(twitter)
    }

    /**
     The weaker invariant that every interleaving of the handlers keeps: a
     handle in the field carries the validator's verdict on it. Only the
     empty handle may sit under a message that does not belong to it (see
     `EditWhileInsertPending`).
     */
    ghost predicate HandleChecked()
      reads this
    {
      twitter != "" ==> Valid()
    }

    /** The component's initial state: everything empty, nothing in flight. */
    constructor ()
      ensures Valid() && HandleChecked()
      ensures email == "" && twitter == "" && twitterError == ""
      ensures !isSubmitting && submitStatus == Idle
    {
      email := "";
      twitter := "";
      twitterError := "";
      isSubmitting := false;
      submitStatus := Idle;
    }

    /** The submit guard: a handle is present and has an error message. When
        the message agrees with the handle, that is a malformed handle. */
    predicate SubmitRefused()
      reads this
      ensures twitter == "" || twitterError == "" ==> !SubmitRefused()
      ensures Valid() ==> (SubmitRefused() <==> twitter != "" && !IsWellFormedHandle(twitter))
    {
      twitter != "" && twitterError != ""
    }

    /** Whether the submit button is disabled: the guard would refuse, or a
        submission is in flight. */
    predicate SubmitDisabled()
      reads this
      ensures !isSubmitting && (twitter == "" || twitterError == "") ==> !SubmitDisabled()
      ensures Valid() ==>
                (SubmitDisabled() <==> isSubmitting || (twitter != "" && !IsWellFormedHandle(twitter)))
    {
      SubmitRefused() || isSubmitting
    }

    /** Whether the profile link is shown beside the handle field: a handle is
        present and has no error message. Under the weaker invariant the
        link is then derived only from a well-formed handle. */
    predicate ShowsProfileLink()
      reads this
      ensures ShowsProfileLink() <==> twitter != "" && twitterError == ""
      ensures HandleChecked() && ShowsProfileLink() ==> IsWellFormedHandle(twitter)
    {
      twitter != "" && twitterError == ""
    }

    /** The email field's change handler. */
    method SetEmail(value: string)
      modifies this`email
      ensures email == value
      ensures old(HandleChecked()) ==> HandleChecked()
    {
      email := value;
    }

    /** `handleTwitterChange`: store the new handle and its validation message. */
    method HandleTwitterChange(value: string)
      modifies this`twitter, this`twitterError
      ensures twitter == value && twitterError == ValidateTwitterHandle(value)
      ensures Valid() && HandleChecked()
    {
      twitter := value;
      twitterError := ValidateTwitterHandle(value);
    }

    /**
     `handleSubmit` up to the await. A handle present with an error message
     stops it with nothing changed and no request. Otherwise it marks a
     submission in flight, resets the status to idle and issues exactly one
     insert, of the record for the current contents. When the message agrees
     with the handle, the guard passes exactly for an empty or well-formed
     handle, and the message is then empty.
     */
    method StartSubmit() returns (request: Option<SubscriberRecord>)
      modifies this`isSubmitting, this`submitStatus
      ensures request.Some? <==> !(twitter != "" && twitterError != "")
      ensures old(Valid()) ==> Valid()
      ensures old(Valid()) ==> (request.Some? <==> twitter == "" || IsWellFormedHandle(twitter))
      ensures request.None? ==> isSubmitting == old(isSubmitting) && submitStatus == old(submitStatus)
      ensures request.Some? ==>
                && request.value == RecordFor(email, twitter)
                && isSubmitting && submitStatus == Idle
      ensures old(Valid()) && request.Some? ==> twitterError == ""
      ensures old(HandleChecked()) ==> HandleChecked()
      ensures old(HandleChecked()) && request.Some? ==>
                request.value.twitterHandle.None? || IsWellFormedHandle(request.value.twitterHandle.value)
    {
      if SubmitRefused() {
        return None;
      }
      isSubmitting := true;
      submitStatus := Idle;
      request := Some(RecordFor(email, twitter));
    }

    /**
     `handleSubmit` after the await, as written. On success the status
     becomes `success` and both fields are cleared; on failure the status
     becomes `error` and the fields are kept. Either way nothing is in flight
     afterwards. The handle's error message is not touched, so on success
     the form is consistent afterwards exactly when that message was empty.
     */
    method FinishSubmit(outcome: InsertOutcome)
      modifies this`email, this`twitter, this`submitStatus, this`isSubmitting
      ensures !isSubmitting
      ensures outcome == Inserted ==> submitStatus == Success && email == "" && twitter == ""
      ensures outcome == InsertFailed ==>
                submitStatus == Error && email == old(email) && twitter == old(twitter)
      ensures twitterError == old(twitterError)
      ensures outcome == Inserted ==> (Valid() <==> twitterError == "")
      ensures outcome == InsertFailed ==> (Valid() <==> old(Valid()))
      ensures old(HandleChecked()) ==> HandleChecked()
    {
      if outcome == Inserted {
        submitStatus := Success;
        email := "";
        twitter := "";
      } else {
        submitStatus := Error;
      }
      isSubmitting := false;
    }

    /**
     `FinishSubmit` with the error message cleared together with the handle
     on success, so that the form is consistent afterwards whatever was typed
     while the insert was pending.
     */
    method FinishSubmitClearingError(outcome: InsertOutcome)
      modifies this`email, this`twitter, this`twitterError, this`submitStatus, this`isSubmitting
      ensures outcome == Inserted ==> Valid()
      ensures old(Valid()) ==> Valid()
      ensures old(HandleChecked()) ==> HandleChecked()
      ensures !isSubmitting
      ensures outcome == Inserted ==>
                submitStatus == Success && email == "" && twitter == "" && twitterError == ""
      ensures outcome == InsertFailed ==>
                && submitStatus == Error && email == old(email) && twitter == old(twitter)
                && twitterError == old(twitterError)
    {
      if outcome == Inserted {
        submitStatus := Success;
        email := "";
        twitter := "";
        twitterError := "";
      } else {
        submitStatus := Error;
      }
      isSubmitting := false;
    }

    /**
     `handleSubmit` with nothing happening while the insert is pending, the
     store answering `outcome`. A handle present with an error message makes
     it issue no request and change nothing. Otherwise it issues exactly one
     request, for the record of the contents before the call, and ends with
     nothing in flight: on success with status `success` and both fields
     empty, on failure with status `error` and both fields as they were; the
     handle's message is never touched. From a state whose message agrees
     with its handle, the request is issued exactly for an empty or
     well-formed handle, and the message still agrees afterwards.
     */
    method HandleSubmit(outcome: InsertOutcome) returns (request: Option<SubscriberRecord>)
      modifies this
      ensures request.Some? <==> !(old(twitter) != "" && old(twitterError) != "")
      ensures old(Valid()) ==> Valid()
      ensures old(Valid()) ==>
                (request.Some? <==> old(twitter) == "" || IsWellFormedHandle(old(twitter)))
      ensures twitterError == old(twitterError)
      ensures old(HandleChecked()) ==> HandleChecked()
      ensures old(HandleChecked()) && request.Some? ==>
                request.value.twitterHandle.None? || IsWellFormedHandle(request.value.twitterHandle.value)
      ensures request.None? ==>
                && email == old(email) && twitter == old(twitter)
                && isSubmitting == old(isSubmitting) && submitStatus == old(submitStatus)
      ensures request.Some? ==>
                && request.value == RecordFor(old(email), old(twitter))
                && !isSubmitting
                && (outcome == Inserted ==> submitStatus == Success && email == "" && twitter == "")
                && (outcome == InsertFailed ==>
                      submitStatus == Error && email == old(email) && twitter == old(twitter))
    {
      request := StartSubmit();
      if request.Some? {
        FinishSubmit(outcome);
      }
    }
  }

  /**
   The handle is edited to `bad` while an insert is pending and the insert
   then succeeds: `FinishSubmit` clears the handle but leaves its error
   message, so the form shows "must start with @" under an empty field.
   */
  method EditWhileInsertPending() returns (form: WaitingListForm)
    ensures fresh(form)
    ensures form.email == "" && form.twitter == "" && form.twitterError == MustStartWithAt
    ensures form.submitStatus == Success && !form.isSubmitting
    ensures !form.Valid() && form.HandleChecked()
  {
    form := new WaitingListForm();
    var request := form.StartSubmit();
    form.HandleTwitterChange("bad");
    form.FinishSubmit(Inserted);
  }

  /** The same sequence with `FinishSubmitClearingError` ends consistent. */
  method EditWhileInsertPendingCorrected() returns (form: WaitingListForm)
    ensures fresh(form)
    ensures form.twitter == "" && form.twitterError == ""
    ensures form.submitStatus == Success && !form.isSubmitting
    ensures form.Valid() && form.HandleChecked()
  {
    form := new WaitingListForm();
    var request := form.StartSubmit();
    form.HandleTwitterChange("bad");
    form.FinishSubmitClearingError(Inserted);
  }

  /**
   After the run of `EditWhileInsertPending` the button is enabled and the
   guard passes (the handle field is empty), so once an email is typed a
   further submit inserts a record with no handle while the stale message
   stays on screen.
   */
  method SubmitAfterStaleError() returns (form: WaitingListForm, request: Option<SubscriberRecord>)
    ensures fresh(form)
    ensures request == Some(SubscriberRecord("a@b.com", None))
    ensures form.twitter == "" && form.twitterError == MustStartWithAt
    ensures form.submitStatus == Success && !form.isSubmitting
    ensures form.HandleChecked()
  {
    form := EditWhileInsertPending();
    form.SetEmail("a@b.com");
    assert !form.SubmitDisabled();
    request := form.HandleSubmit(Inserted);
  }

  /** Runs of the form: a refused handle, a successful signup without a
      handle, and a failed signup with a valid handle. */
  method SubmitScenarios(email: string)
  {
    ValidatorExamples();
    var form := new WaitingListForm();
    form.SetEmail(email);
    form.HandleTwitterChange("bad");
    assert form.SubmitDisabled();
    var request := form.HandleSubmit(Inserted);
    assert request == None && form.submitStatus == Idle && form.email == email;

    form := new WaitingListForm();
    form.SetEmail("a@b.com");
    request := form.HandleSubmit(Inserted);
    assert request == Some(SubscriberRecord("a@b.com", None));
    assert form.submitStatus == Success && form.email == "" && form.twitter == "";

    form := new WaitingListForm();
    form.SetEmail("a@b.com");
    form.HandleTwitterChange("@boris_99");
    request := form.HandleSubmit(InsertFailed);
    assert request == Some(SubscriberRecord("a@b.com", Some("@boris_99")));
    assert form.submitStatus == Error && form.email == "a@b.com" && form.twitter == "@boris_99";
  }
}
