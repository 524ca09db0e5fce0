/**
  The form component's state and the transitions its event handlers and the
  continuations of its one network request make. The request itself is not
  modelled: `Submit` returns the payload it would send, and `Complete` takes
  the request's outcome as an argument.
 */
module Controller {
  import opened Validation

  /** The record sent to the server: a fresh id and the four field values. */
  datatype Payload = Payload(id: string, name: string, email: string, subject: string, message: string)

  /** How the request ended. */
  datatype Outcome =
      /** The server answered with a non-ok status; its body is never read. */
    | NotOk
      /** The server answered with an ok status; `bodyError` is the rejection reason when its body does not parse. */
    | Ok(bodyError: Option<string>)
      /** The request could not be made or completed; `message` is the error's own text. */
    | NetworkFailure(message: string)

  /** The key string of a field. */
  function KeyOf(k: Field): string {
    match k
    case Name => "name"
    case Email => "email"
    case Subject => "subject"
    case Message => "message"
  }

  /** The field an event id names, if it names one of the four. */
  function ParseKey(id: string): (r: Option<Field>)
    ensures r.Some? ==> KeyOf(r.value) == id
  {
    if id == "name" then Some(Name)
    else if id == "email" then Some(Email)
    else if id == "subject" then Some(Subject)
    else if id == "message" then Some(Message)
    else None
  }

  /** An id names a field exactly when it is that field's key string. */
  lemma ParseKeyIff(id: string, k: Field)
    ensures ParseKey(id) == Some(k) <==> KeyOf(k) == id
  {
  }

  const SuccessText := "Your entry has been received."
  const NotSuccessfulText := "We're sorry, but your submission was not successful."

  /** The form with the field `k` set to `value`: a copy of the record with one key overwritten. */
  function WithField(f: FormValues, k: Field, value: string): (r: FormValues)
    ensures Get(r, k) == value
    ensures forall j | j != k :: Get(r, j) == Get(f, j)
  {
    match k
    case Name => f.(name := value)
    case Email => f.(email := value)
    case Subject => f.(subject := value)
    case Message => f.(message := value)
  }

  /**
    The reason the promise chain after the request rejects with, if it does:
    a non-ok answer throws the fixed failure text, an ok answer whose body does
    not parse rejects with the parser's message, a failed request with its own.
   */
  function Rejection(o: Outcome): Option<string> {
    match o
    case NotOk => Some(NotSuccessfulText)
    case Ok(bodyError) => bodyError
    case NetworkFailure(message) => Some(message)
  }

  class FormController {
    var form: FormValues
    var errorFields: ErrorFields
    var errorMessage: string
    var successMessage: string
    var isLoading: bool

    /** The error state is always the one derived from the current values. */
    ghost predicate Valid()
      reads this
    {
      errorFields == GetErrorFields(form)
    }

    /** The component on mount: every field empty, no message, not loading. */
    constructor ()
      ensures Valid()
      ensures form == InitialState && errorMessage == "" && successMessage == "" && !isLoading
    {
      form := InitialState;
      errorFields := GetErrorFields(InitialState);
      errorMessage := "";
      successMessage := "";
      isLoading := false;
    }

    /** Replaces the form values; the error state follows them at once. */
    method SetForm(f: FormValues)
      modifies this
      ensures Valid() && form == f
      ensures errorMessage == old(errorMessage) && successMessage == old(successMessage)
      ensures isLoading == old(isLoading)
    {
      form := f;
      errorFields := GetErrorFields(f);
    }

    /**
      A change event from the input `id`: both status messages are cleared;
      the form takes the new value only when `id` names one of the four fields.
     */
    method Change(id: string, value: string)
      requires Valid()
      modifies this
      ensures Valid()
      ensures successMessage == "" && errorMessage == ""
      ensures form == match ParseKey(id) case Some(k) => WithField(old(form), k, value) case None => old(form)
      ensures isLoading == old(isLoading)
    {
      successMessage := "";
      errorMessage := "";
      match ParseKey(id) {
        case Some(k) => SetForm(WithField(form, k, value));
        case None =>
      }
    }

    /**
      A submit event. With any error the handler returns at once and nothing
      changes; otherwise it builds the payload from the current values and the
      given id, sets the loading flag and sends the payload.
     */
    method Submit(id: string) returns (request: Option<Payload>)
      requires Valid() && !isLoading
      modifies this
      ensures Valid()
      ensures request.None? <==> HasErrors(errorFields)
      ensures request.Some? <==> form.name != "" && form.message != "" && RegexMatch(form.email)
      ensures request.None? ==> unchanged(this)
      ensures request.Some? ==>
        && request.value == Payload(id, form.name, form.email, form.subject, form.message)
        && isLoading
        && form == old(form)
        && errorFields == old(errorFields)
        && errorMessage == old(errorMessage)
        && successMessage == old(successMessage)
    {
      assert HasErrors(errorFields) <==> !(form.name != "" && form.message != "" && RegexMatch(form.email)) by {
        NoErrorsIff(form);
      }
      if HasErrors(errorFields) {
        return None;
      }
      request := Some(Payload(id, form.name, form.email, form.subject, form.message));
      isLoading := true;
    }

    /**
      The request ended. On success the form is reset and the success text
      shown; on any rejection its reason becomes the error message and the
      form is kept. The loading flag is cleared either way.
     */
    method Complete(o: Outcome)
      requires Valid() && isLoading
      modifies this
      ensures Valid()
      ensures !isLoading
      ensures o == Ok(None) ==>
        form == InitialState && successMessage == SuccessText && errorMessage == old(errorMessage)
      ensures o.NotOk? ==>
        form == old(form) && errorMessage == NotSuccessfulText && successMessage == old(successMessage)
      ensures o.Ok? && o.bodyError.Some? ==>
        form == old(form) && errorMessage == o.bodyError.value && successMessage == old(successMessage)
      ensures o.NetworkFailure? ==>
        form == old(form) && errorMessage == o.message && successMessage == old(successMessage)
    {
      match Rejection(o) {
        case None =>
          successMessage := SuccessText;
          SetForm(InitialState);
        case Some(reason) =>
          errorMessage := reason;
      }
      isLoading := false;
    }
  }

  /**
    A client of the controller: a submission that fails on the network,
    resubmitted without editing and then accepted. Submitting does not clear
    the earlier error text, so both messages are set at the end, and the
    emptied form can no longer be submitted.
   */
  method StaleErrorAfterSuccess() returns (errorShown: string, successShown: string, resubmit: Option<Payload>)
    ensures errorShown == "Failed to fetch" && successShown == SuccessText
    ensures resubmit == None
  {
    var c := new FormController();
    c.Change("name", "Ada");
    c.Change("email", "a@b.co");
    c.Change("message", "Hello");
    assert c.form == FormValues("Ada", "a@b.co", "", "Hello");
    ShortAddressMatches();
    var first := c.Submit("id-1");
    assert first.Some?;
    c.Complete(NetworkFailure("Failed to fetch"));
    var second := c.Submit("id-2");
    assert second == Some(Payload("id-2", "Ada", "a@b.co", "", "Hello"));
    c.Complete(Ok(None));
    InitialErrors();
    resubmit := c.Submit("id-3");
    errorShown, successShown := c.errorMessage, c.successMessage;
  }
}
