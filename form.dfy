/**
 * The form's elements as objects updated in place: five inputs, each with the
 * error element whose id is the input's id followed by `Error`, and the
 * handlers that validate one field, re-check the postal code against the
 * selected country, and validate everything on submit. Each handler is proved
 * against its pure counterpart in `Validation`.
 */
module FormModel {
  import opened Validation
  import PostalRules

  /**
   * An input element. Its attributes are fixed; its value and ValidityState
   * flags are kept up to date by the browser; the handlers change only its
   * custom-validity message.
   */
  class Input {
    const id: string
    const name: string
    const maxLength: int
    var value: string
    var valueMissing: bool
    var typeMismatch: bool
    var tooShort: bool
    var tooLong: bool
    var customMessage: string
    var nativeMessage: string

    constructor (f: Field)
      ensures Snapshot() == f
    {
      id, name, maxLength := f.id, f.name, f.maxLength;
      value := f.value;
      valueMissing, typeMismatch, tooShort, tooLong := f.valueMissing, f.typeMismatch, f.tooShort, f.tooLong;
      customMessage, nativeMessage := f.customMessage, f.nativeMessage;
    }

    /** The element's current state as a value. */
    function Snapshot(): Field
      reads this
    {
      Field(id, name, value, maxLength, valueMissing, typeMismatch, tooShort, tooLong, customMessage, nativeMessage)
    }

    /** `setCustomValidity(message)` */
    method SetCustomValidity(message: string)
      modifies this
      ensures Snapshot() == old(Snapshot()).SetCustomValidity(message)
    {
      customMessage := message;
    }
  }

  /** An error element: its id, its text and whether it carries the `active` class. */
  class ErrorElement {
    const id: string
    var text: string
    var active: bool

    constructor (id: string)
      ensures this.id == id && Shown() == Display("", false)
    {
      this.id := id;
      text, active := "", false;
    }

    function Shown(): Display
      reads this
    {
      Display(text, active)
    }
  }

  /** The ids of the form's inputs, in the order the submit handler visits them. */
  const InputIds: seq<string> := ["email", "country", "password", "confirmPassword", "postalCode"]

  /** The form: its inputs in submit order, and the error element of each. */
  class Form {
    const inputs: seq<Input>
    const errors: seq<ErrorElement>

    /**
     * The inputs carry the ids in submit order; `errors[k]` is the element
     * found by `getElementById` for `inputs[k]`, and no two inputs share one.
     */
    ghost predicate Valid() {
      && |inputs| == 5 && |errors| == 5
      && (forall k :: 0 <= k < 5 ==> inputs[k].id == InputIds[k] && errors[k].id == inputs[k].id + "Error")
      && (forall j, k :: 0 <= j < k < 5 ==> errors[j] != errors[k])
    }

    function Country(): Input
      requires |inputs| == 5
    {
      inputs[1]
    }

    function Password(): Input
      requires |inputs| == 5
    {
      inputs[2]
    }

    function PostalCode(): Input
      requires |inputs| == 5
    {
      inputs[4]
    }

    function PostalCodeError(): ErrorElement
      requires |errors| == 5
    {
      errors[4]
    }

    /** The inputs' current states, in submit order. */
    function Fields(): (fs: seq<Field>)
      requires |inputs| == 5
      reads inputs
      ensures |fs| == 5 && forall k :: 0 <= k < 5 ==> fs[k] == inputs[k].Snapshot()
    {
      seq(5, k requires 0 <= k < 5 reads inputs => inputs[k].Snapshot())
    }

    /** What the error elements show, in submit order. */
    function Shown(): (ds: seq<Display>)
      requires |errors| == 5
      reads errors
      ensures |ds| == 5 && forall k :: 0 <= k < 5 ==> ds[k] == errors[k].Shown()
    {
      seq(5, k requires 0 <= k < 5 reads errors => errors[k].Shown())
    }

    /** Looks up each input's error element by id; every element starts empty and inactive. */
    constructor (inputs: seq<Input>)
      requires |inputs| == 5 && forall k :: 0 <= k < 5 ==> inputs[k].id == InputIds[k]
      ensures Valid() && this.inputs == inputs
      ensures forall k :: 0 <= k < 5 ==> fresh(errors[k]) && errors[k].Shown() == Display("", false)
    {
      this.inputs := inputs;
      var emailError := new ErrorElement(inputs[0].id + "Error");
      var countryError := new ErrorElement(inputs[1].id + "Error");
      var passwordError := new ErrorElement(inputs[2].id + "Error");
      var confirmPasswordError := new ErrorElement(inputs[3].id + "Error");
      var postalCodeError := new ErrorElement(inputs[4].id + "Error");
      errors := [emailError, countryError, passwordError, confirmPasswordError, postalCodeError];
    }

    /**
     * `validateField(input, error)`: a mismatched confirmation first; then a
     * valid field clears its element; then a non-empty `validationMessage` is
     * shown as it is; otherwise `showError` picks the message.
     */
    method ValidateField(input: Input, error: ErrorElement)
      requires Valid()
      modifies error
      ensures error.Shown() == Validate(input.Snapshot(), Password().value, old(error.Shown()))
    {
      if input.id == "confirmPassword" && input.value != Password().value {
        error.text := MismatchMessage;
        error.active := true;
        return;
      }
      if input.Snapshot().CheckValidity() {
        error.text := "";
        error.active := false;
      } else {
        var message := input.Snapshot().ValidationMessage();
        if message != "" {
          error.text := message;
          error.active := true;
        } else {
          ShowError(input, error);
        }
      }
    }

    /** `showError(input, error)`: the first flag's message, then the mismatch, else the old text; always active. */
    method ShowError(input: Input, error: ErrorElement)
      requires Valid()
      modifies error
      ensures error.Shown() == Validation.ShowError(input.Snapshot(), Password().value, old(error.Shown()))
    {
      if input.valueMissing {
        error.text := MissingMessage(input.name);
      } else if input.typeMismatch {
        error.text := InvalidMessage(input.name);
      } else if input.tooShort {
        error.text := ShortMessage(input.name);
      } else if input.tooLong {
        error.text := LongMessage(input.name, input.maxLength);
      } else if input.id == "confirmPassword" && input.value != Password().value {
        error.text := MismatchMessage;
      }
      error.active := true;
    }

    /**
     * `checkPostalCode()`: sets the postal code's custom validity from the
     * selected country's rule, then validates the postal-code field.
     */
    method CheckPostalCode()
      requires Valid()
      modifies PostalCode(), PostalCodeError()
      ensures PostalCode().Snapshot() == CheckPostal(Country().value, old(PostalCode().Snapshot()))
      ensures PostalCodeError().Shown() ==
        Validate(PostalCode().Snapshot(), Password().value, old(PostalCodeError().Shown()))
    {
      var rule := PostalRules.Lookup(Country().value);
      if PostalRules.Matches(rule.pattern, PostalCode().value) {
        PostalCode().SetCustomValidity("");
      } else {
        PostalCode().SetCustomValidity(rule.message);
      }
      ValidateField(PostalCode(), PostalCodeError());
    }

    /**
     * The submit handler: validates every field in order, remembering whether
     * any fails `checkValidity`, then always prevents the default action and
     * picks the notice from that alone.
     */
    method Submit() returns (outcome: SubmitOutcome)
      requires Valid()
      modifies errors
      ensures outcome == Submission(Fields())
      ensures Shown() == ValidateEach(Fields(), Password().value, old(Shown()))
    {
      ghost var fields, pw, before := Fields(), Password().value, Shown();
      ghost var after := ValidateEach(fields, pw, before);
      var hasErrors := false;
      for i := 0 to 5
        invariant Fields() == fields
        invariant Password().value == pw
        invariant hasErrors == InvalidAmong(fields, i)
        invariant forall k :: 0 <= k < 5 ==>
          errors[k].Shown() == if k < i then after[k] else before[k]
      {
        InvalidAmongStep(fields, i);
        ValidateField(inputs[i], errors[i]);
        if !inputs[i].Snapshot().CheckValidity() {
          hasErrors := true;
        }
      }
      if hasErrors {
        outcome := SubmitOutcome(true, FixErrors);
      } else {
        outcome := SubmitOutcome(true, HighFive);
      }
    }
  }
}
