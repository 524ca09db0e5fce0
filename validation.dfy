/**
  The validation engine of the contact form: the rule table, the predicates
  behind each rule, and the derivation of the per-field error lists from the
  current field values.
 */
module Validation {

  datatype Option<T> = None | Some(value: T)

  /** The form record: the four text inputs. */
  datatype FormValues = FormValues(name: string, email: string, subject: string, message: string)

  /** Every field empty: the state on mount and after a successful submission. */
  const InitialState := FormValues("", "", "", "")

  /** The four inputs; each is addressed by its key string in the record and in change events. */
  datatype Field = Name | Email | Subject | Message

  /** The fields in the order a key enumeration of the form record yields them. */
  const FieldOrder: seq<Field> := [Name, Email, Subject, Message]

  /** The value stored under a field. */
  function Get(f: FormValues, k: Field): string {
    match k
    case Name => f.name
    case Email => f.email
    case Subject => f.subject
    case Message => f.message
  }

  // ---------------------------------------------------------------------------
  // The email shape check: the regular expression \S+@\S+\.\S+, tested
  // anywhere in the value (the expression is not anchored).
  // ---------------------------------------------------------------------------

  /**
    The characters `\s` matches: the ECMAScript WhiteSpace code points (tab,
    vertical tab, form feed, space, no-break space, the byte order mark and
    the space separators) and the LineTerminator code points.
   */
  predicate IsWhitespace(c: char) {
    || c == '\t' || c == '\n' || c == '\U{B}' || c == '\U{C}' || c == '\r' || c == ' '
    || c == '\U{A0}' || c == '\U{1680}' || '\U{2000}' <= c <= '\U{200A}'
    || c == '\U{2028}' || c == '\U{2029}' || c == '\U{202F}' || c == '\U{205F}'
    || c == '\U{3000}' || c == '\U{FEFF}'
  }

  /** A text `\S+` matches whole: non-empty, no whitespace in it. */
  ghost predicate Run(t: string) {
    |t| > 0 && forall c | c in t :: !IsWhitespace(c)
  }

  /** s[i..e] is a match of \S+@\S+\.\S+ with its `@` at `at` and its `.` at `dot`. */
  ghost predicate MatchAt(s: string, i: int, at: int, dot: int, e: int) {
    && 0 <= i < at
    && at + 1 < dot
    && dot + 1 < e <= |s|
    && Run(s[i..at])
    && s[at] == '@'
    && Run(s[at + 1..dot])
    && s[dot] == '.'
    && Run(s[dot + 1..e])
  }

  /** The regular expression finds a match somewhere in `s`. */
  ghost predicate RegexMatch(s: string) {
    exists i, at, dot, e :: MatchAt(s, i, at, dot, e)
  }

  /**
    The smallest match around an `@` at `at` and a `.` at `dot`: one
    non-whitespace character before the `@`, a non-whitespace stretch between
    the two, one non-whitespace character after the `.`.
   */
  predicate ShapeAt(s: string, at: int, dot: int)
    requires 0 < at < |s| && at < dot < |s|
  {
    && at + 1 < dot
    && dot + 1 < |s|
    && s[at] == '@'
    && s[dot] == '.'
    && !IsWhitespace(s[at - 1])
    && !IsWhitespace(s[dot + 1])
    && forall k | at < k < dot :: !IsWhitespace(s[k])
  }

  /** The executable test the email rule runs. */
  predicate EmailShaped(s: string) {
    exists at, dot | 0 < at < |s| && at < dot < |s| :: ShapeAt(s, at, dot)
  }

  /** The executable test decides exactly the regular expression's match. */
  lemma EmailShapedIsRegexMatch(s: string)
    ensures EmailShaped(s) <==> RegexMatch(s)
  {
    if EmailShaped(s) {
      var at, dot :| 0 < at < |s| && at < dot < |s| && ShapeAt(s, at, dot);
      assert s[at - 1..at] == [s[at - 1]];
      assert s[dot + 1..dot + 2] == [s[dot + 1]];
      assert forall c | c in s[at + 1..dot] :: !IsWhitespace(c) by {
        forall c | c in s[at + 1..dot] ensures !IsWhitespace(c) {
          var k :| 0 <= k < dot - at - 1 && s[at + 1..dot][k] == c;
          assert s[at + 1 + k] == c;
        }
      }
      assert MatchAt(s, at - 1, at, dot, dot + 2);
    }
    if RegexMatch(s) {
      var i, at, dot, e :| MatchAt(s, i, at, dot, e);
      assert s[at - 1] in s[i..at] by { assert s[i..at][at - 1 - i] == s[at - 1]; }
      assert s[dot + 1] in s[dot + 1..e] by { assert s[dot + 1..e][0] == s[dot + 1]; }
      forall k | at < k < dot ensures !IsWhitespace(s[k]) {
        assert s[at + 1..dot][k - at - 1] == s[k];
      }
      assert ShapeAt(s, at, dot);
    }
  }

  /** The empty value contains no match. */
  lemma EmptyIsNotEmail()
    ensures !RegexMatch("")
  {
    EmailShapedIsRegexMatch("");
  }

  /** A short address of the expected shape. */
  lemma ShortAddressMatches()
    ensures RegexMatch("a@b.co")
  {
    var s := "a@b.co";
    assert s[0] == 'a' && s[1] == '@' && s[2] == 'b' && s[3] == '.' && s[4] == 'c';
    assert ShapeAt(s, 1, 3);
    EmailShapedIsRegexMatch(s);
  }

  // ---------------------------------------------------------------------------
  // The rule table.
  // ---------------------------------------------------------------------------

  /** The predicate a rule applies to the field's value. */
  datatype Check =
    | Required      // the value is truthy, i.e. a non-empty string
    | EmailPattern  // the value contains a match of \S+@\S+\.\S+

  datatype Rule = Rule(check: Check, display: string)

  predicate IsValid(check: Check, value: string) {
    match check
    case Required => value != ""
    case EmailPattern => EmailShaped(value)
  }

  const NameRequired := "Name is required!"
  const EmailRequired := "Email is required!"
  const NeedsEmail := "Needs to be an email!"
  const MessageRequired := "Message is required!"

  /** Field name to its rules, in declared order; `subject` has none. */
  const Validations: map<Field, seq<Rule>> := map[
    Name := [Rule(Required, NameRequired)],
    Email := [Rule(Required, EmailRequired), Rule(EmailPattern, NeedsEmail)],
    Message := [Rule(Required, MessageRequired)]
  ]

  // ---------------------------------------------------------------------------
  // Deriving the error state.
  // ---------------------------------------------------------------------------

  /** `value` passes every rule of the list. */
  predicate AllPass(rules: seq<Rule>, value: string) {
    forall i | 0 <= i < |rules| :: IsValid(rules[i].check, value)
  }

  /**
    The display texts of the rules `value` fails, in the rules' order: every
    rule is evaluated, the passing ones are filtered out.
   */
  function Failures(rules: seq<Rule>, value: string): (r: seq<string>)
    ensures |r| <= |rules|
    ensures r == [] <==> AllPass(rules, value)
  {
    if rules == [] then []
    else
      (if IsValid(rules[0].check, value) then [] else [rules[0].display])
      + Failures(rules[1..], value)
  }

  /** Evaluating a concatenation of rule lists yields the two lists of failures in order. */
  lemma {:induction false} FailuresAppend(r1: seq<Rule>, r2: seq<Rule>, value: string)
    ensures Failures(r1 + r2, value) == Failures(r1, value) + Failures(r2, value)
  {
    if r1 == [] {
      assert r1 + r2 == r2;
    } else {
      assert (r1 + r2)[1..] == r1[1..] + r2;
      FailuresAppend(r1[1..], r2, value);
    }
  }

  /** A text is among the failures exactly when some rule of the list fails and displays it. */
  lemma {:induction false} FailuresMembers(rules: seq<Rule>, value: string, d: string)
    ensures d in Failures(rules, value) <==>
      exists i | 0 <= i < |rules| :: !IsValid(rules[i].check, value) && rules[i].display == d
  {
    if rules != [] {
      FailuresMembers(rules[1..], value, d);
      if exists i | 0 <= i < |rules| :: !IsValid(rules[i].check, value) && rules[i].display == d {
        var i :| 0 <= i < |rules| && !IsValid(rules[i].check, value) && rules[i].display == d;
        if i > 0 { assert rules[1..][i - 1] == rules[i]; }
      }
      if exists j | 0 <= j < |rules| - 1 :: !IsValid(rules[1..][j].check, value) && rules[1..][j].display == d {
        var j :| 0 <= j < |rules| - 1 && !IsValid(rules[1..][j].check, value) && rules[1..][j].display == d;
        assert rules[j + 1] == rules[1..][j];
      }
    }
  }

  /** The failures of a single rule: its display text exactly when the value fails it. */
  lemma FailuresOfOne(rule: Rule, value: string)
    ensures Failures([rule], value) == if IsValid(rule.check, value) then [] else [rule.display]
  {
    assert [rule][1..] == [];
  }

  /** Per-field lists of failure texts: the error state of the form. */
  type ErrorFields = map<Field, seq<string>>

  /**
    The reduction over the form's keys: each key that has rules gets the list
    of its failures; keys without rules leave the accumulator as it was.
   */
  function Collect(keys: seq<Field>, form: FormValues, acc: ErrorFields): (r: ErrorFields)
    ensures forall k :: k in r <==> k in acc || (k in keys && k in Validations)
    ensures forall k | k in keys && k in Validations :: r[k] == Failures(Validations[k], Get(form, k))
    ensures forall k | k in acc && !(k in keys && k in Validations) :: r[k] == acc[k]
    decreases |keys|
  {
    if keys == [] then acc
    else
      var key := keys[0];
      var acc' := if key !in Validations then acc else acc[key := Failures(Validations[key], Get(form, key))];
      Collect(keys[1..], form, acc')
  }

  /** The error state of a form: exactly the fields with rules, each with the failures of its rules. */
  function GetErrorFields(form: FormValues): (r: ErrorFields)
    ensures r.Keys == {Name, Email, Message}
    ensures Subject !in r
  {
    map k | k in Validations :: Failures(Validations[k], Get(form, k))
  }

  /** The reduction over the form's keys in their enumeration order computes the error state. */
  lemma CollectIsErrorFields(form: FormValues)
    ensures Collect(FieldOrder, form, map[]) == GetErrorFields(form)
  {
  }

  /** The lists of the fields among `keys` that have an entry, concatenated in the order of `keys`. */
  function Flatten(keys: seq<Field>, errorFields: ErrorFields): (r: seq<string>)
    ensures |r| > 0 <==> exists k | k in keys && k in errorFields :: errorFields[k] != []
    decreases |keys|
  {
    if keys == [] then []
    else
      (if keys[0] in errorFields then errorFields[keys[0]] else [])
      + Flatten(keys[1..], errorFields)
  }

  /** Submission is blocked: the lists of all fields, flattened into one, hold some text. */
  predicate HasErrors(errorFields: ErrorFields) {
    |Flatten(FieldOrder, errorFields)| > 0
  }

  /** Blocked exactly when some field's list is non-empty. */
  lemma HasErrorsIff(errorFields: ErrorFields)
    ensures HasErrors(errorFields) <==> exists k | k in errorFields :: errorFields[k] != []
  {
    forall k: Field ensures k in FieldOrder {
      match k
      case Name => assert FieldOrder[0] == k;
      case Email => assert FieldOrder[1] == k;
      case Subject => assert FieldOrder[2] == k;
      case Message => assert FieldOrder[3] == k;
    }
  }

  // ---------------------------------------------------------------------------
  // What the rule table gives for each field.
  // ---------------------------------------------------------------------------

  /** `name` fails exactly when empty, with the one "required" text. */
  lemma NameErrors(f: FormValues)
    ensures GetErrorFields(f)[Name] == if f.name == "" then [NameRequired] else []
  {
  }

  /** `message` fails exactly when empty, with the one "required" text. */
  lemma MessageErrors(f: FormValues)
    ensures GetErrorFields(f)[Message] == if f.message == "" then [MessageRequired] else []
  {
  }

  /**
    `email`: empty gives both texts with the "required" one first (the one
    shown); a non-empty value without a match gives only the shape text; a
    value with a match gives nothing.
   */
  lemma EmailErrors(f: FormValues)
    ensures GetErrorFields(f)[Email] ==
      if f.email == "" then [EmailRequired, NeedsEmail]
      else if RegexMatch(f.email) then []
      else [NeedsEmail]
  {
    EmailRuleFailures(f.email);
    EmailShapedIsRegexMatch(f.email);
  }

  /** The two email rules evaluated in order, in terms of the executable shape test. */
  lemma EmailRuleFailures(v: string)
    ensures Failures(Validations[Email], v) ==
      (if v == "" then [EmailRequired] else []) + (if EmailShaped(v) then [] else [NeedsEmail])
  {
    var required, shape := Rule(Required, EmailRequired), Rule(EmailPattern, NeedsEmail);
    assert Validations[Email] == [required] + [shape];
    FailuresAppend([required], [shape], v);
    FailuresOfOne(required, v);
    FailuresOfOne(shape, v);
  }

  /** A form passes validation exactly when name and message are filled in and email has the shape. */
  lemma NoErrorsIff(f: FormValues)
    ensures !HasErrors(GetErrorFields(f)) <==> f.name != "" && f.message != "" && RegexMatch(f.email)
  {
    var r := GetErrorFields(f);
    NameErrors(f);
    EmailErrors(f);
    MessageErrors(f);
    if f.name == "" { assert r[Name] != []; }
    if f.message == "" { assert r[Message] != []; }
    if !RegexMatch(f.email) { assert r[Email] != []; }
  }

  /** The subject plays no part in validation: changing it leaves the error state as it was. */
  lemma SubjectIrrelevant(f: FormValues, subject: string)
    ensures GetErrorFields(f.(subject := subject)) == GetErrorFields(f)
  {
  }

  /** The empty form carries every "required" text, so it cannot be submitted. */
  lemma InitialErrors()
    ensures GetErrorFields(InitialState)[Name] == [NameRequired]
    ensures GetErrorFields(InitialState)[Email] == [EmailRequired, NeedsEmail]
    ensures GetErrorFields(InitialState)[Message] == [MessageRequired]
    ensures HasErrors(GetErrorFields(InitialState))
  {
    var r := GetErrorFields(InitialState);
    assert r[Name] == [NameRequired] by { NameErrors(InitialState); }
    assert r[Email] == [EmailRequired, NeedsEmail] by { EmailRuleFailures(""); }
    assert r[Message] == [MessageRequired] by { MessageErrors(InitialState); }
  }
}
