/**
 * The field validators of the sign-in and sign-up forms, and `validateForm`, which runs the
 * validator attached to each field and collects the reasons of the fields that fail.
 */
module Validation {
  import opened Wrappers
  import opened Strings
  import opened EmailPattern

  const EmailRequired := "Email is required"
  const InvalidEmailFormat := "Invalid email format"
  const PasswordRequired := "Password is required"
  const PasswordTooShort := "Password must be at least 6 characters"
  const NameRequired := "Name is required"
  const NameTooShort := "Name must be at least 2 characters"

  /** `{ isValid, error? }`. */
  datatype ValidationResult = ValidationResult(isValid: bool, error: Option<string>)

  function Pass(): ValidationResult {
    ValidationResult(true, None)
  }

  function Fail(reason: string): ValidationResult {
    ValidationResult(false, Some(reason))
  }

  /** A result `validateForm` records: invalid, with an error that is a non-empty (truthy) string. */
  predicate Flags(r: ValidationResult) {
    !r.isValid && r.error.Some? && r.error.value != ""
  }

  /**
   * An email is valid exactly when it has the email shape; white space only (or nothing) is
   * "required", any other rejection is a format error.
   */
  function ValidateEmail(email: string): (r: ValidationResult)
    ensures r.isValid <==> IsEmailShape(email)
    ensures r.isValid ==> r.error == None
    ensures !r.isValid ==> r.error == Some(if AllSpace(email) then EmailRequired else InvalidEmailFormat)
  {
    if Trim(email) == "" then
      BlankIsNotShape(email);
      Fail(EmailRequired)
    else if !IsEmailShape(email) then Fail(InvalidEmailFormat)
    else Pass()
  }

  /** Surrounding white space is not trimmed away: an email that starts or ends with it is rejected. */
  lemma {:induction false} PaddedEmailRejected(email: string)
    requires |email| > 0 && (IsSpace(email[0]) || IsSpace(email[|email| - 1]))
    ensures !ValidateEmail(email).isValid
  {
    ShapeHasNoSpace(email);
  }

  /** A password is valid exactly when it has at least six characters; the empty one is "required". */
  function ValidatePassword(password: string): (r: ValidationResult)
    ensures r.isValid <==> |password| >= 6
    ensures r.isValid ==> r.error == None
    ensures !r.isValid ==> r.error == Some(if password == "" then PasswordRequired else PasswordTooShort)
  {
    if password == "" then Fail(PasswordRequired)
    else if |password| < 6 then Fail(PasswordTooShort)
    else Pass()
  }

  /**
   * A name is valid exactly when at least two characters remain once it is trimmed; nothing left
   * is "required", one character left is "too short".
   */
  function ValidateName(name: string): (r: ValidationResult)
    ensures r.isValid <==> |Trim(name)| >= 2
    ensures r.isValid ==> r.error == None
    ensures !r.isValid ==> r.error == Some(if AllSpace(name) then NameRequired else NameTooShort)
    ensures !r.isValid && !AllSpace(name) ==> |Trim(name)| == 1
  {
    if Trim(name) == "" then Fail(NameRequired)
    else if |Trim(name)| < 2 then Fail(NameTooShort)
    else Pass()
  }

  /** The validators a screen attaches to its fields. */
  datatype Rule = EmailRule | PasswordRule | NameRule

  /** Runs a field's validator. Whatever it rejects, it rejects with a reason `validateForm` records. */
  function Apply(rule: Rule, value: string): (r: ValidationResult)
    ensures r.isValid <==> !Flags(r)
  {
    match rule
    case EmailRule => ValidateEmail(value)
    case PasswordRule => ValidatePassword(value)
    case NameRule => ValidateName(value)
  }

  /**
   * What `validateForm` returns: a field is listed exactly when it has a validator and the validator
   * rejects its value, and it is listed with the validator's reason.
   */
  function FormErrors(fields: map<string, string>, rules: map<string, Rule>): (errors: map<string, string>)
    ensures errors.Keys <= fields.Keys && errors.Keys <= rules.Keys
    ensures forall f :: f in fields && f in rules ==> (f in errors <==> !Apply(rules[f], fields[f]).isValid)
    ensures forall f :: f in errors ==> Some(errors[f]) == Apply(rules[f], fields[f]).error && errors[f] != ""
  {
    map f | f in fields && f in rules && Flags(Apply(rules[f], fields[f])) :: Apply(rules[f], fields[f]).error.value
  }

  /** `validateForm` finds nothing exactly when every field that has a validator passes it. */
  lemma {:induction false} NoErrorsIff(fields: map<string, string>, rules: map<string, Rule>)
    ensures FormErrors(fields, rules) == map[]
            <==> forall f :: f in fields && f in rules ==> Apply(rules[f], fields[f]).isValid
  {
    var errors := FormErrors(fields, rules);
    if errors != map[] {
      var f :| f in errors;
    }
  }

  /** Every field that has a validator passes it exactly when the two fields `a` and `b` that have one do. */
  lemma {:induction false} TwoFieldsPass(fields: map<string, string>, rules: map<string, Rule>, a: string, b: string)
    requires rules.Keys == {a, b} && a in fields && b in fields
    ensures (forall f :: f in fields && f in rules ==> Apply(rules[f], fields[f]).isValid)
            <==> Apply(rules[a], fields[a]).isValid && Apply(rules[b], fields[b]).isValid
  {
    forall f | f in rules ensures f == a || f == b {
      assert f in rules.Keys;
    }
  }

  /** Every field that has a validator passes it exactly when the three fields `a`, `b` and `c` that have one do. */
  lemma {:induction false} ThreeFieldsPass(fields: map<string, string>, rules: map<string, Rule>, a: string, b: string, c: string)
    requires rules.Keys == {a, b, c} && a in fields && b in fields && c in fields
    ensures (forall f :: f in fields && f in rules ==> Apply(rules[f], fields[f]).isValid)
            <==> Apply(rules[a], fields[a]).isValid && Apply(rules[b], fields[b]).isValid && Apply(rules[c], fields[c]).isValid
  {
    forall f | f in rules ensures f == a || f == b || f == c {
      assert f in rules.Keys;
    }
  }

  /** `validateForm`: visits every field once and records the reason of each field its validator rejects. */
  method ValidateForm(fields: map<string, string>, rules: map<string, Rule>) returns (errors: map<string, string>)
    ensures errors == FormErrors(fields, rules)
  {
    errors := map[];
    var pending := fields.Keys;
    while pending != {}
      invariant pending <= fields.Keys
      invariant errors == FormErrors(fields - pending, rules)
      decreases pending
    {
      var field :| field in pending;
      FormErrorsGrow(fields, rules, pending, field);
      if field in rules {
        var result := Apply(rules[field], fields[field]);
        if !result.isValid && result.error.Some? && result.error.value != "" {
          errors := errors[field := result.error.value];
        }
      }
      pending := pending - {field};
    }
    assert fields - pending == fields;
  }

  /** Taking one more field into account adds its entry, if its validator flags it, and changes nothing else. */
  lemma {:induction false} FormErrorsGrow(fields: map<string, string>, rules: map<string, Rule>, pending: set<string>, field: string)
    requires field in pending && pending <= fields.Keys
    ensures var before := FormErrors(fields - pending, rules);
      var after := FormErrors(fields - (pending - {field}), rules);
      after == if field in rules && Flags(Apply(rules[field], fields[field]))
               then before[field := Apply(rules[field], fields[field]).error.value]
               else before
  {
    var seen := fields - pending;
    var seen' := fields - (pending - {field});
    var before := FormErrors(seen, rules);
    var after := FormErrors(seen', rules);
    var expected := if field in rules && Flags(Apply(rules[field], fields[field]))
                    then before[field := Apply(rules[field], fields[field]).error.value]
                    else before;
    forall f | f in after ensures f in expected && after[f] == expected[f] {
      assert f in seen';
    }
    forall f | f in expected ensures f in after {
      if f != field {
        assert f in seen;
      }
    }
  }
}
