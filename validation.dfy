/**
 * The validation rules as pure functions over snapshots of the form's state:
 * which message a field's error element shows (`Validate`, `ShowError`), how
 * the postal-code field's custom validity follows the selected country
 * (`CheckPostal`), and what a submission attempt reports (`Submission`).
 * The imperative methods in `FormModel` are proved against these.
 */
module Validation {
  import opened Wrappers
  import opened PostalRules
  import Decimal

  /**
   * An input element as the validator sees it: its `id`, `name` and
   * `maxLength` attributes, its current value, the four ValidityState flags
   * the browser computes, the message last given to `setCustomValidity`, and
   * the browser's own message for the built-in flags.
   */
  datatype Field = Field(
    id: string,
    name: string,
    value: string,
    maxLength: int,
    valueMissing: bool,
    typeMismatch: bool,
    tooShort: bool,
    tooLong: bool,
    customMessage: string,
    nativeMessage: string)
  {
    /** `validity.customError`: a non-empty custom-validity message is set. */
    predicate CustomError() {
      customMessage != ""
    }

    /** `checkValidity()`: no ValidityState flag is set. */
    predicate CheckValidity() {
      !valueMissing && !typeMismatch && !tooShort && !tooLong && !CustomError()
    }

    /** `validationMessage`: empty for a valid field, else the custom message if there is one, else the browser's. */
    function ValidationMessage(): string {
      if CheckValidity() then "" else if CustomError() then customMessage else nativeMessage
    }

    /** `setCustomValidity(message)`: replaces the custom message and nothing else. */
    function SetCustomValidity(message: string): Field {
      this.(customMessage := message)
    }
  }

  /** An error element: its `textContent` and whether it carries the `active` class. */
  datatype Display = Display(text: string, active: bool)

  // ----- messages -----

  const MismatchMessage := "Passwords don't match."

  function MissingMessage(name: string): string {
    "Please enter your " + name + "."
  }

  function InvalidMessage(name: string): string {
    "Please enter a valid " + name + "."
  }

  function ShortMessage(name: string): string {
    name + " is too short."
  }

  function LongMessage(name: string, maxLength: int): string {
    name + " is too long. Maximum is " + Decimal.IntToString(maxLength) + " characters."
  }

  /** The confirmation field holds a value other than the password field's. */
  predicate Mismatch(f: Field, password: string) {
    f.id == "confirmPassword" && f.value != password
  }

  // ----- the rules as an ordered list -----

  /** One rule of a first-match-wins list: whether it applies, and the message it gives. */
  datatype Check = Check(fails: bool, message: string)

  /** The message of the first rule that applies, if any does. */
  function FirstFailure(checks: seq<Check>): (r: Option<string>)
    ensures r.None? <==> forall i :: 0 <= i < |checks| ==> !checks[i].fails
    ensures r.Some? ==>
      exists i :: 0 <= i < |checks| && checks[i].fails && checks[i].message == r.value
        && forall j :: 0 <= j < i ==> !checks[j].fails
  {
    if checks == [] then None
    else if checks[0].fails then Some(checks[0].message)
    else
      var r := FirstFailure(checks[1..]);
      assert forall i :: 1 <= i < |checks| ==> checks[i] == checks[1..][i - 1];
      r
  }

  /** The rules of `showError`, in its order. */
  function ShowErrorChecks(f: Field, password: string): seq<Check> {
    [ Check(f.valueMissing, MissingMessage(f.name)),
      Check(f.typeMismatch, InvalidMessage(f.name)),
      Check(f.tooShort, ShortMessage(f.name)),
      Check(f.tooLong, LongMessage(f.name, f.maxLength)),
      Check(Mismatch(f, password), MismatchMessage) ]
  }

  /** The rules of `validateField`, in its order, ending with those of `showError`. */
  function ValidateChecks(f: Field, password: string): seq<Check> {
    [ Check(Mismatch(f, password), MismatchMessage),
      Check(!f.CheckValidity() && f.ValidationMessage() != "", f.ValidationMessage()) ]
    + ShowErrorChecks(f, password)
  }

  // ----- the validator -----

  /**
   * `showError`: the error element after the chain of flag checks. It is
   * always made active; when no rule applies its text stays as it was.
   */
  function ShowError(f: Field, password: string, d: Display): (r: Display)
    ensures r.active
    ensures r.text != d.text ==>
      (r.text in {MissingMessage(f.name), InvalidMessage(f.name), ShortMessage(f.name),
                  LongMessage(f.name, f.maxLength), MismatchMessage})
  {
    var text :=
      if f.valueMissing then MissingMessage(f.name)
      else if f.typeMismatch then InvalidMessage(f.name)
      else if f.tooShort then ShortMessage(f.name)
      else if f.tooLong then LongMessage(f.name, f.maxLength)
      else if Mismatch(f, password) then MismatchMessage
      else d.text;
    Display(text, true)
  }

  /**
   * `validateField`: the error element after validating `f` while the
   * password field holds `password`. It shows the first applicable rule's
   * message and is active exactly when the field is mismatched or invalid;
   * what the element showed before never matters.
   */
  function Validate(f: Field, password: string, d: Display): (r: Display)
    ensures r.active <==> Mismatch(f, password) || !f.CheckValidity()
    ensures r.active <==> r.text != ""
  {
    if Mismatch(f, password) then Display(MismatchMessage, true)
    else if f.CheckValidity() then Display("", false)
    else if f.ValidationMessage() != "" then Display(f.ValidationMessage(), true)
    else ShowError(f, password, d)
  }

  lemma FirstFailureCons(c: Check, rest: seq<Check>)
    ensures FirstFailure([c] + rest) == if c.fails then Some(c.message) else FirstFailure(rest)
  {
  }

  lemma FirstFailureOfFive(c0: Check, c1: Check, c2: Check, c3: Check, c4: Check)
    ensures FirstFailure([c0, c1, c2, c3, c4]) ==
      if c0.fails then Some(c0.message)
      else if c1.fails then Some(c1.message)
      else if c2.fails then Some(c2.message)
      else if c3.fails then Some(c3.message)
      else if c4.fails then Some(c4.message)
      else None
  {
    assert [c0, c1, c2, c3, c4] == [c0] + ([c1] + ([c2] + ([c3] + ([c4] + []))));
    FirstFailureCons(c4, []);
    FirstFailureCons(c3, [c4]);
    FirstFailureCons(c2, [c3, c4]);
    FirstFailureCons(c1, [c2, c3, c4]);
    FirstFailureCons(c0, [c1, c2, c3, c4]);
  }

  /** `showError`'s if-chain is the first-match reading of its rule list; with no match the text is kept. */
  lemma ShowErrorFollowsRules(f: Field, password: string, d: Display)
    ensures ShowError(f, password, d) == Display(FirstFailure(ShowErrorChecks(f, password)).GetOr(d.text), true)
  {
    var cs := ShowErrorChecks(f, password);
    FirstFailureOfFive(cs[0], cs[1], cs[2], cs[3], cs[4]);
  }

  /**
   * `validateField`'s if-chain is the first-match reading of its rule list:
   * the first applicable message is shown and made active, and when none
   * applies the element is cleared.
   */
  lemma ValidateFollowsRules(f: Field, password: string, d: Display)
    ensures Validate(f, password, d) ==
      match FirstFailure(ValidateChecks(f, password))
      case Some(m) => Display(m, true)
      case None => Display("", false)
  {
    var cs := ShowErrorChecks(f, password);
    var c0 := Check(Mismatch(f, password), MismatchMessage);
    var c1 := Check(!f.CheckValidity() && f.ValidationMessage() != "", f.ValidationMessage());
    FirstFailureOfFive(cs[0], cs[1], cs[2], cs[3], cs[4]);
    FirstFailureCons(c1, cs);
    FirstFailureCons(c0, [c1] + cs);
    assert ValidateChecks(f, password) == [c0] + ([c1] + cs);
  }

  /** A mismatched confirmation shows the mismatch message, whatever else is wrong, even when it is empty. */
  lemma MismatchWins(f: Field, password: string, d: Display)
    requires Mismatch(f, password)
    ensures Validate(f, password, d) == Display(MismatchMessage, true)
  {
  }

  /** A field that passes `checkValidity` (and is not a mismatched confirmation) has its message cleared. */
  lemma ValidFieldClears(f: Field, password: string, d: Display)
    requires !Mismatch(f, password) && f.CheckValidity()
    ensures Validate(f, password, d) == Display("", false)
  {
  }

  /** An invalid field with a non-empty `validationMessage` shows that message verbatim. */
  lemma ValidationMessageVerbatim(f: Field, password: string, d: Display)
    requires !Mismatch(f, password) && !f.CheckValidity() && f.ValidationMessage() != ""
    ensures Validate(f, password, d) == Display(f.ValidationMessage(), true)
  {
  }

  /**
   * When `validateField` reaches `showError`, one of the four flags applies:
   * neither `showError`'s own confirmation rule nor its leave-the-text branch
   * is ever used from there.
   */
  lemma ShowErrorReachedByFlag(f: Field, password: string, d: Display)
    requires !Mismatch(f, password) && !f.CheckValidity() && f.ValidationMessage() == ""
    ensures f.valueMissing || f.typeMismatch || f.tooShort || f.tooLong
    ensures Validate(f, password, d).text in
      {MissingMessage(f.name), InvalidMessage(f.name), ShortMessage(f.name), LongMessage(f.name, f.maxLength)}
  {
  }

  /** What the error element showed before validation never affects what it shows after. */
  lemma ValidateIgnoresPrevious(f: Field, password: string, d1: Display, d2: Display)
    ensures Validate(f, password, d1) == Validate(f, password, d2)
  {
  }

  /** Validating twice in a row with nothing changed gives the same outcome as validating once. */
  lemma ValidateIdempotent(f: Field, password: string, d: Display)
    ensures Validate(f, password, Validate(f, password, d)) == Validate(f, password, d)
  {
  }

  // ----- the postal code and the selected country -----

  /**
   * `checkPostalCode`'s update of the postal-code field: its custom validity
   * becomes empty when its value matches the selected country's format and
   * that country's message otherwise; nothing else about the field changes.
   */
  function CheckPostal(country: string, f: Field): (r: Field)
    ensures r == f.SetCustomValidity(r.customMessage)
    ensures !r.CustomError() <==> Matches(Lookup(country).pattern, f.value)
    ensures r.CustomError() ==> r.customMessage == Lookup(country).message
  {
    var rule := Lookup(country);
    f.SetCustomValidity(if Matches(rule.pattern, f.value) then "" else rule.message)
  }

  /** An unknown or unset country always clears the postal code's custom validity. */
  lemma UnknownCountryClearsCustomValidity(country: string, f: Field)
    requires country !in Constraints()
    ensures CheckPostal(country, f).customMessage == ""
  {
  }

  /**
   * What the postal-code error element shows after `checkPostalCode`: it is
   * active exactly when the code does not fit the country or a built-in flag
   * is set, and a code that does not fit shows the country's message.
   */
  lemma PostalCodeOutcome(country: string, f: Field, password: string, d: Display)
    requires f.id == "postalCode"
    ensures Validate(CheckPostal(country, f), password, d).active <==>
      !Matches(Lookup(country).pattern, f.value) || f.valueMissing || f.typeMismatch || f.tooShort || f.tooLong
    ensures !Matches(Lookup(country).pattern, f.value) ==>
      Validate(CheckPostal(country, f), password, d) == Display(Lookup(country).message, true)
  {
  }

  // ----- submission -----

  /** The two notices a submission attempt can show. */
  datatype Alert = FixErrors | HighFive {
    function Text(): string {
      match this
      case FixErrors => "Please fix errors before submitting \U{1F60A}"
      case HighFive => "\U{1F590} High Five! Form submitted!"
    }
  }

  /** What a submission attempt does besides updating the error elements. */
  datatype SubmitOutcome = SubmitOutcome(prevented: bool, alert: Alert)

  /** Every field validated against the display it had before. */
  function ValidateEach(fields: seq<Field>, password: string, ds: seq<Display>): (r: seq<Display>)
    requires |fields| == |ds|
    ensures |r| == |ds| && forall k :: 0 <= k < |ds| ==> r[k] == Validate(fields[k], password, ds[k])
  {
    seq(|ds|, k requires 0 <= k < |ds| => Validate(fields[k], password, ds[k]))
  }

  /** Some field visited so far fails `checkValidity`: the handler's `hasErrors` after `i` fields. */
  ghost predicate InvalidAmong(fields: seq<Field>, i: nat)
    requires i <= |fields|
  {
    exists k :: 0 <= k < i && !fields[k].CheckValidity()
  }

  lemma InvalidAmongStep(fields: seq<Field>, i: nat)
    requires i < |fields|
    ensures InvalidAmong(fields, i + 1) <==> InvalidAmong(fields, i) || !fields[i].CheckValidity()
  {
  }

  /** The `hasErrors` accumulator after all the fields, folded from the first one. */
  function AnyInvalid(fields: seq<Field>): (r: bool)
    ensures r <==> exists k :: 0 <= k < |fields| && !fields[k].CheckValidity()
  {
    if fields == [] then false
    else AnyInvalid(fields[..|fields| - 1]) || !fields[|fields| - 1].CheckValidity()
  }

  /**
   * A submission attempt over the fields: the default action is always
   * prevented, and the failure notice is shown exactly when some field fails
   * `checkValidity`, the success notice otherwise.
   */
  function Submission(fields: seq<Field>): (r: SubmitOutcome)
    ensures r.prevented
    ensures r.alert == FixErrors <==> exists k :: 0 <= k < |fields| && !fields[k].CheckValidity()
    ensures r.alert == HighFive <==> forall k :: 0 <= k < |fields| ==> fields[k].CheckValidity()
  {
    SubmitOutcome(true, if AnyInvalid(fields) then FixErrors else HighFive)
  }

  /**
   * A mismatched confirmation does not block submission on its own: the
   * confirmation's error element shows the mismatch while the success notice
   * is shown, because only `checkValidity` feeds `hasErrors`.
   */
  lemma MismatchAloneDoesNotBlock(fields: seq<Field>, password: string, d: Display)
    requires |fields| == 5 && forall k :: 0 <= k < 5 ==> fields[k].CheckValidity()
    requires Mismatch(fields[3], password)
    ensures Submission(fields).alert == HighFive
    ensures Validate(fields[3], password, d) == Display(MismatchMessage, true)
  {
  }
}
