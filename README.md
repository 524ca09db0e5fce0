# Contact form: validation and submission model

A Dafny model of the contact form component of a small single-page site. The
component holds four text inputs (`name`, `email`, `subject`, `message`) and
checks three of them against a fixed rule table. It posts the record to a
remote endpoint and shows a loading indicator, then a success or an error
message.

The model has two modules:

- `Validation` (validation.dfy) holds the pure part.
  - The rule table: `name`, `email` and `message` must be non-empty, and `email` must contain a match of `\S+@\S+\.\S+`.
  - The regular expression is given twice: as a ghost predicate over match positions (`RegexMatch`) and as the executable test the rule runs (`EmailShaped`). A lemma proves they agree.
  - The derivation of the error state: a map from each field that has rules to the display texts of the rules it fails, in declared order.
  - The test that blocks submission: flattening all the lists gives some text.
- `Controller` (controller.dfy) holds the stateful part, the class `FormController`.
  - Its fields are the component's five state slots: `form`, `errorFields`, `errorMessage`, `successMessage` and `isLoading`.
  - `Change` handles an input event.
  - `Submit` handles the submit event. It returns the payload it sends, or `None` when validation blocks it.
  - `Complete` runs the request's continuations for a given outcome.
  - The object invariant `Valid()` says that `errorFields` is always `GetErrorFields(form)`. The component recomputes `errorFields` in an effect after every change of `form`; here that step is synchronous.

## Model

| member | source | states |
|---|---|---|
| `Controller.ParseKey` | src/components/Form/Form.jsx:67-69 | an event id selects a field only when it is that field's own key string |
| `Controller.ParseKeyIff` | src/components/Form/Form.jsx:69 | an id selects field k exactly when it equals k's key, so the four known ids are accepted and every other id is ignored |
| `Validation.EmailShapedIsRegexMatch` | src/components/Form/Form.jsx:23 | the executable shape test holds exactly when `\S+@\S+\.\S+` matches somewhere in the value, in both directions |
| `Validation.EmptyIsNotEmail` | src/components/Form/Form.jsx:23 | the empty string contains no match of the email expression |
| `Validation.Failures` | src/components/Form/Form.jsx:41-46 | a field's error list has at most one text per rule and is empty exactly when the value passes every rule |
| `Validation.FailuresAppend` | src/components/Form/Form.jsx:41-46 | the failures of a concatenated rule list are the failures of the first part followed by those of the second, so declared order is kept |
| `Validation.FailuresMembers` | src/components/Form/Form.jsx:41-46 | a text is in the error list exactly when some rule the value fails displays it |
| `Validation.FailuresOfOne` | src/components/Form/Form.jsx:42-46 | one rule contributes its display text exactly when the value fails it, and nothing otherwise |
| `Validation.Collect` | src/components/Form/Form.jsx:37-49 | the reduction over the form's keys adds an entry exactly for each key that has rules, holding that field's failures, and leaves every other entry of the accumulator alone |
| `Validation.GetErrorFields` | src/components/Form/Form.jsx:37-49 | the error state has entries for exactly name, email and message, and never for subject |
| `Validation.CollectIsErrorFields` | src/components/Form/Form.jsx:37-49 | reducing over the keys in enumeration order from an empty accumulator gives the error state |
| `Validation.Flatten` | src/components/Form/Form.jsx:81 | the flattened error lists are non-empty exactly when one of the listed fields has a non-empty list |
| `Validation.HasErrorsIff` | src/components/Form/Form.jsx:81-82 | submission is blocked exactly when some field's error list is non-empty |
| `Validation.NameErrors` | src/components/Form/Form.jsx:10-15 | name's list is ["Name is required!"] when name is empty and [] otherwise |
| `Validation.MessageErrors` | src/components/Form/Form.jsx:28-33 | message's list is ["Message is required!"] when message is empty and [] otherwise |
| `Validation.EmailRuleFailures` | src/components/Form/Form.jsx:17-26 | the two email rules run in declared order: the "required" text if empty, then the shape text if the shape test fails |
| `Validation.EmailErrors` | src/components/Form/Form.jsx:17-26 | email's list is ["Email is required!", "Needs to be an email!"] when empty, [] when it matches the expression, and ["Needs to be an email!"] otherwise |
| `Validation.NoErrorsIff` | src/components/Form/Form.jsx:9-49 | every error list is empty exactly when name and message are non-empty and email matches the expression |
| `Validation.SubjectIrrelevant` | src/components/Form/Form.jsx:37-39 | changing the subject never changes the error state |
| `Validation.InitialErrors` | src/components/Form/Form.jsx:7-49 | the all-empty form gets every "required" text, with the email shape text after its "required" text, so it is blocked |
| `Controller.WithField` | src/components/Form/Form.jsx:70-73 | the updated record holds the new value under the chosen key and the old value under every other key |
| `Controller.FormController.constructor` | src/components/Form/Form.jsx:53-61 | the component starts with the empty form, its derived error state, no messages and not loading |
| `Controller.FormController.SetForm` | src/components/Form/Form.jsx:59-61 | replacing the form recomputes the error state from it and leaves the messages and the loading flag alone |
| `Controller.FormController.Change` | src/components/Form/Form.jsx:63-76 | both messages become empty; a known id replaces only its own field, any other id leaves the form as it was; loading is untouched |
| `Controller.FormController.Submit` | src/components/Form/Form.jsx:78-93 | with any error nothing changes and no request is made; otherwise the payload carries the given id and the current four values, loading becomes true, and form and messages are kept; a request is made exactly when name and message are filled in and email matches the expression |
| `Controller.FormController.Complete` | src/components/Form/Form.jsx:102-121 | loading ends false whatever the outcome; an ok answer with a readable body resets the form and sets "Your entry has been received."; a non-ok answer sets "We're sorry, but your submission was not successful."; an unreadable body or a failed request sets the error's own text; the form is kept on every failure |
| `Validation.ShortAddressMatches` | src/components/Form/Form.jsx:23 | "a@b.co" matches the email expression |
| `Controller.StaleErrorAfterSuccess` | src/components/Form/Form.jsx:63-121 | a request that fails on the network and is resubmitted without an edit, then accepted, leaves both the old error text and the success text set, and the emptied form cannot be submitted again |

## Left out

- The request itself (`fetch`, the endpoint URL, headers, `JSON.stringify`, `response.json()`) is network I/O. `Submit` returns the payload it would send, and `Complete` takes an `Outcome` argument. It is one of three cases: the server answered with a non-ok status; it answered ok, and its body either parsed or failed to parse with a given message; or the request failed with an error message.
- `nanoid()` is a foreign random generator. `Submit` takes the id as an argument.
- The promise chain is asynchronous. Starting and finishing a request are two separate transitions. `Complete` requires `isLoading`, since it only runs as the continuation of a request `Submit` started.
- A callback arriving after the component has been unmounted is not modelled.
- `Submit` requires `!isLoading`. The submit button is disabled while loading, so no second request is started.
- The effect that recomputes `errorFields` after each change of `form` is modelled as synchronous. In the component, `errorFields` is `{}` until the effect first runs after mount, so a submit handled before that would not be blocked. The model assumes no event is handled before the first effect runs, and starts from the derived error state.
- Error entries in the component are objects `{isValid, display}`. The model keeps only the display text, which is the only part the page shows.
- `Validation.EmailShapedIsRegexMatch`: the expression has no `u` flag, so it runs over UTF-16 code units, while the model runs over Unicode scalar values. A character outside the Basic Multilingual Plane is one non-whitespace character here and two non-whitespace code units there. Whether a match exists is the same either way.
- `Controller.FormController.Complete`: a rejection whose value is not an `Error` object is not modelled. Every rejection is taken to carry a message text.
- Rendering is left out: the JSX, the inline display of each field's first error text, `Header`, `Loader`, CSS and `console.log`/`console.error`. So is `event.preventDefault()` in the submit handler, which only stops the browser's own form submission.

## Notes

- Success and error messages are not mutually exclusive. `Submit` clears neither message, and `Complete` sets only one of them. So a failed request followed by an unedited resubmission that succeeds leaves both texts set, and the header shows both. `Controller.StaleErrorAfterSuccess` shows this.
