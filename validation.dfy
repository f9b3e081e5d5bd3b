/**
 * `validateForm`: the required-field and e-mail checks of the contact form.
 */
module Validation {
  import opened Whitespace
  import opened Email

  /** An `input` or `textarea` of the form: its `name`, `type`, current
      `value` and whether it carries `required`. */
  datatype Field = Field(name: string, kind: string, value: string, required: bool)

  /** One entry of the `errors` list. */
  datatype FieldError = Required(name: string) | EmailFormat(name: string) {
    /** The string the page pushes for this error. */
    function Text(): string {
      match this
      case Required(n) => n + ": 필수 필드"
      case EmailFormat(n) => n + ": 이메일 형식 오류"
    }
  }

  /** Each pushed string starts with the field's name and `: `, and the two
      kinds of error give different strings. */
  lemma ErrorTextNamesField(e: FieldError, other: FieldError)
    ensures |e.Text()| > |e.name| + 2 && e.Text()[..|e.name| + 2] == e.name + ": "
    ensures e.Text() == other.Text() && e.name == other.name ==> e == other
  {
    if e.name == other.name && e.Required? != other.Required? {
      var k := |e.name| + 2;
      assert e.Text()[k] != other.Text()[k];
    }
  }

  /** The errors one field adds: at most one, naming a required field. */
  function FieldErrors(f: Field): (errs: seq<FieldError>)
    ensures |errs| <= 1
    ensures errs != [] ==> f.required && errs[0].name == f.name
  {
    if !f.required then []
    else if Trim(f.value) == "" then [Required(f.name)]
    else if f.kind == "email" && !IsValidEmail(f.value) then [EmailFormat(f.name)]
    else []
  }

  /** A field adds no error when optional, otherwise a "required" error for
      a blank value or a format error for a malformed e-mail value. */
  lemma FieldErrorsShape(f: Field)
    ensures FieldErrors(f) == [Required(f.name)] <==> f.required && AllSpace(f.value)
    ensures FieldErrors(f) == [EmailFormat(f.name)] <==>
      f.required && !AllSpace(f.value) && f.kind == "email" && !IsValidEmail(f.value)
    ensures FieldErrors(f) == [] <==>
      !f.required || (!AllSpace(f.value) && (f.kind != "email" || IsValidEmail(f.value)))
  {
    TrimEmptyIffAllSpace(f.value);
  }

  /** The results of `f` on each element of `xs`, concatenated in order. */
  function Collect<T, E>(xs: seq<T>, f: T -> seq<E>): seq<E> {
    if xs == [] then []
    else Collect(xs[..|xs| - 1], f) + f(xs[|xs| - 1])
  }

  /** The errors of a whole form, in document order. */
  function FormErrors(fields: seq<Field>): seq<FieldError> {
    Collect(fields, FieldErrors)
  }

  /** Number of required fields. */
  function RequiredCount(fields: seq<Field>): nat {
    if fields == [] then 0
    else RequiredCount(fields[..|fields| - 1]) + (if fields[|fields| - 1].required then 1 else 0)
  }

  /** `validateForm(form)`: visits the required fields in order, collecting
      one error per failing field; the form is valid exactly when nothing
      was collected. */
  method ValidateForm(fields: seq<Field>) returns (isValid: bool, errors: seq<FieldError>)
    ensures errors == FormErrors(fields)
    ensures isValid <==> errors == []
  {
    isValid := true;
    errors := [];
    for i := 0 to |fields|
      invariant errors == FormErrors(fields[..i])
      invariant isValid <==> errors == []
    {
      var field := fields[i];
      assert fields[..i + 1][..i] == fields[..i];
      if field.required {
        if Trim(field.value) == "" {
          isValid := false;
          errors := errors + [Required(field.name)];
        } else if field.kind == "email" && !IsValidEmail(field.value) {
          isValid := false;
          errors := errors + [EmailFormat(field.name)];
        }
      }
    }
    assert fields[..|fields|] == fields;
  }

  /** Collecting over consecutive parts concatenates the results. */
  lemma {:induction false} CollectAppend<T, E>(a: seq<T>, b: seq<T>, f: T -> seq<E>)
    ensures Collect(a + b, f) == Collect(a, f) + Collect(b, f)
    decreases |b|
  {
    if b == [] {
      assert a + b == a;
    } else {
      var b' := b[..|b| - 1];
      CollectAppend(a, b', f);
      assert (a + b)[..|a + b| - 1] == a + b';
    }
  }

  /** Errors of consecutive parts of a form are concatenated. */
  lemma FormErrorsAppend(a: seq<Field>, b: seq<Field>)
    ensures FormErrors(a + b) == FormErrors(a) + FormErrors(b)
  {
    CollectAppend(a, b, FieldErrors);
  }

  /** Optional fields never add errors, wherever they stand. */
  lemma OptionalFieldIgnored(a: seq<Field>, f: Field, b: seq<Field>)
    requires !f.required
    ensures FormErrors(a + [f] + b) == FormErrors(a + b)
  {
    var none := FormErrors([f]);
    assert none == [] by {
      SingleFieldErrors(f);
    }
    calc {
      FormErrors(a + [f] + b);
      { FormErrorsAppend(a + [f], b); }
      FormErrors(a + [f]) + FormErrors(b);
      { FormErrorsAppend(a, [f]); }
      FormErrors(a) + none + FormErrors(b);
      { FormErrorsAppend(a, b); }
      FormErrors(a + b);
    }
  }

  /** Each required field adds at most one error. */
  lemma {:induction false} AtMostOneErrorPerRequiredField(fields: seq<Field>)
    ensures |FormErrors(fields)| <= RequiredCount(fields)
    decreases |fields|
  {
    if fields != [] {
      AtMostOneErrorPerRequiredField(fields[..|fields| - 1]);
      FieldErrorsShape(fields[|fields| - 1]);
    }
  }

  /** The error list of a single field. */
  lemma SingleFieldErrors(f: Field)
    ensures FormErrors([f]) == FieldErrors(f)
  {
    var single: seq<Field> := [f];
    assert single[..0] == [];
    assert Collect(single, FieldErrors) == Collect(single[..0], FieldErrors) + FieldErrors(f);
  }

  /** A form's errors contain those of each of its fields. */
  lemma FieldErrorsIncluded(fields: seq<Field>, j: nat)
    requires j < |fields|
    ensures forall e :: e in FieldErrors(fields[j]) ==> e in FormErrors(fields)
  {
    assert fields == fields[..j] + [fields[j]] + fields[j + 1..];
    FormErrorsAppend(fields[..j] + [fields[j]], fields[j + 1..]);
    FormErrorsAppend(fields[..j], [fields[j]]);
    SingleFieldErrors(fields[j]);
  }

  /** A required field left blank is reported by name. */
  lemma BlankRequiredFieldReported(fields: seq<Field>, j: nat)
    requires j < |fields| && fields[j].required && AllSpace(fields[j].value)
    ensures Required(fields[j].name) in FormErrors(fields)
  {
    FieldErrorsShape(fields[j]);
    FieldErrorsIncluded(fields, j);
  }

  /** A filled-in required e-mail field that fails the pattern is reported
      as a format error. */
  lemma MalformedEmailReported(fields: seq<Field>, j: nat)
    requires j < |fields| && fields[j].required && !AllSpace(fields[j].value)
    requires fields[j].kind == "email" && !IsValidEmail(fields[j].value)
    ensures EmailFormat(fields[j].name) in FormErrors(fields)
  {
    FieldErrorsShape(fields[j]);
    FieldErrorsIncluded(fields, j);
  }

  /** The form is valid exactly when no field adds an error. */
  lemma {:induction false} NoErrorsIffEveryFieldPasses(fields: seq<Field>)
    ensures FormErrors(fields) == [] <==> forall j :: 0 <= j < |fields| ==> FieldErrors(fields[j]) == []
    decreases |fields|
  {
    if fields != [] {
      var init := fields[..|fields| - 1];
      NoErrorsIffEveryFieldPasses(init);
      assert forall j :: 0 <= j < |init| ==> init[j] == fields[j];
    }
  }

  /** The e-mail test sees `field.value` untrimmed: white space before or
      after an address passes the required check but fails the format check. */
  lemma UntrimmedEmailRejected(name: string, address: string)
    requires |address| > 0 && (IsSpace(address[0]) || IsSpace(address[|address| - 1])) && !AllSpace(address)
    ensures FormErrors([Field(name, "email", address, true)]) == [EmailFormat(name)]
  {
    SurroundingSpaceRejected(address);
    FieldErrorsShape(Field(name, "email", address, true));
    SingleFieldErrors(Field(name, "email", address, true));
  }
}
