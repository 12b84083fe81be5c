/**
 * The form controller shared by the sign-in and sign-up screens (`useAuthForm`): the field values,
 * the per-field errors and the loading flag, changed by `handleChange`, `clearErrors` and
 * `handleSubmit`. The result `onSubmit` settles with is an input.
 */
module AuthForm {
  import opened Wrappers
  import opened Strings
  import opened Validation

  /** How the promise `onSubmit` returns settles: resolved with `{ success, error? }`, or rejected. */
  datatype Submission = Resolved(success: bool, error: Option<string>) | Rejected

  /**
   * The field a failure message is shown under: the first of "email", "password" and "name" that
   * the lower-cased message contains, or none.
   */
  function FieldFor(message: string): (field: Option<string>)
    ensures field.Some? ==> field.value in {"email", "password", "name"} && Contains(Lower(message), field.value)
    ensures field == Some("password") ==> !Contains(Lower(message), "email")
    ensures field == Some("name") ==> !Contains(Lower(message), "email") && !Contains(Lower(message), "password")
    ensures field.None? <==> !Contains(Lower(message), "email") && !Contains(Lower(message), "password")
                             && !Contains(Lower(message), "name")
  {
    var lower := Lower(message);
    if Contains(lower, "email") then Some("email")
    else if Contains(lower, "password") then Some("password")
    else if Contains(lower, "name") then Some("name")
    else None
  }

  /** A failed result that carries a message (`!result.success && result.error`). */
  predicate FailsWithMessage(outcome: Submission) {
    outcome.Resolved? && !outcome.success && outcome.error.Some? && outcome.error.value != ""
  }

  /**
   * The errors a settled submission produces (`newErrors`): the message, unchanged, under the one
   * field it names; nothing for a success, a rejection, or a message that names no field.
   */
  function SubmissionErrors(outcome: Submission): (errors: map<string, string>)
    ensures |errors| <= 1
    ensures errors.Keys <= {"email", "password", "name"}
    ensures errors != map[] <==> FailsWithMessage(outcome) && FieldFor(outcome.error.value).Some?
    ensures forall f :: f in errors ==> errors[f] == outcome.error.value && FieldFor(outcome.error.value) == Some(f)
  {
    if FailsWithMessage(outcome) then
      match FieldFor(outcome.error.value)
      case Some(f) => map[f := outcome.error.value]
      case None => map[]
    else map[]
  }

  /** A message with "email", in any case, is shown under the email field. */
  lemma {:induction false} EmailRouted(message: string, at: nat)
    requires HasWordAt(message, "email", at)
    ensures FieldFor(message) == Some("email")
  {
    WordPresent(message, "email", at);
  }

  /** A message with "password" but lacking, in both cases, some letter of "email" is shown under the password field. */
  lemma {:induction false} PasswordRouted(message: string, k: nat, at: nat)
    requires k < 5 && Lacks(message, "email"[k]) && Lacks(message, UpperChar("email"[k]))
    requires HasWordAt(message, "password", at)
    ensures FieldFor(message) == Some("password")
  {
    WordAbsent(message, "email", k);
    WordPresent(message, "password", at);
  }

  /**
   * A message with "name" but lacking, in both cases, a letter of "email" and one of "password" is
   * shown under the name field.
   */
  lemma {:induction false} NameRouted(message: string, k: nat, j: nat, at: nat)
    requires k < 5 && Lacks(message, "email"[k]) && Lacks(message, UpperChar("email"[k]))
    requires j < 8 && Lacks(message, "password"[j]) && Lacks(message, UpperChar("password"[j]))
    requires HasWordAt(message, "name", at)
    ensures FieldFor(message) == Some("name")
  {
    WordAbsent(message, "email", k);
    WordAbsent(message, "password", j);
    WordPresent(message, "name", at);
  }

  /** A message without 'm' and without 'w', in either case, names none of the three fields and is shown nowhere. */
  lemma {:induction false} Unrouted(message: string)
    requires Lacks(message, 'm') && Lacks(message, 'M') && Lacks(message, 'w') && Lacks(message, 'W')
    ensures FieldFor(message) == None
  {
    WordAbsent(message, "email", 1);
    WordAbsent(message, "password", 4);
    WordAbsent(message, "name", 2);
  }

  /** The state of one form: its values, its field errors and whether a submission is in flight. */
  class Form {
    var values: map<string, string>
    var errors: map<string, string>
    var loading: bool
    /** `validationRules`: the validator attached to each field. */
    const rules: map<string, Rule>

    constructor (initialValues: map<string, string>, rules: map<string, Rule>)
      ensures values == initialValues && errors == map[] && !loading && this.rules == rules
    {
      values := initialValues;
      errors := map[];
      loading := false;
      this.rules := rules;
    }

    /**
     * `handleChange`: stores the new value of the field and blanks that field's error if it
     * showed one; every other value and error stays as it was.
     */
    method HandleChange(field: string, value: string)
      modifies this`values, this`errors
      ensures values == old(values)[field := value]
      ensures errors == if field in old(errors) && old(errors)[field] != "" then old(errors)[field := ""] else old(errors)
    {
      values := values[field := value];
      if field in errors && errors[field] != "" {
        errors := errors[field := ""];
      }
    }

    /** `clearErrors`. */
    method ClearErrors()
      modifies this`errors
      ensures errors == map[]
    {
      errors := map[];
    }

    /**
     * `handleSubmit` up to the call of `onSubmit`: when a validator rejects a field, the errors
     * become the validation errors and the submission stops with `loading` untouched; otherwise the
     * errors are cleared and `loading` is set while `onSubmit` runs.
     */
    method BeginSubmit() returns (proceed: bool)
      modifies this`errors, this`loading
      ensures proceed <==> FormErrors(values, rules) == map[]
      ensures !proceed ==> errors == FormErrors(values, rules) && loading == old(loading)
      ensures proceed ==> errors == map[] && loading
    {
      var validationErrors := ValidateForm(values, rules);
      if |validationErrors| > 0 {
        errors := validationErrors;
        return false;
      }
      loading := true;
      errors := map[];
      proceed := true;
    }

    /**
     * `handleSubmit` once `onSubmit` has settled: a failure message that names a field becomes the
     * only error; anything else leaves the errors alone. `loading` ends in every case.
     */
    method FinishSubmit(outcome: Submission)
      modifies this`errors, this`loading
      ensures errors == if SubmissionErrors(outcome) != map[] then SubmissionErrors(outcome) else old(errors)
      ensures !loading
    {
      if outcome.Resolved? && !outcome.success && outcome.error.Some? && outcome.error.value != "" {
        var newErrors: map<string, string> := map[];
        var lower := Lower(outcome.error.value);
        if Contains(lower, "email") {
          newErrors := newErrors["email" := outcome.error.value];
        } else if Contains(lower, "password") {
          newErrors := newErrors["password" := outcome.error.value];
        } else if Contains(lower, "name") {
          newErrors := newErrors["name" := outcome.error.value];
        }
        if |newErrors| > 0 {
          errors := newErrors;
        }
      }
      loading := false;
    }

    /**
     * `handleSubmit`: `onSubmit` is called exactly when every field passes its validator. Without the
     * call the errors are the validation errors; after it they are what the settled result maps to,
     * and `loading` is off again.
     */
    method HandleSubmit(outcome: Submission) returns (called: bool)
      modifies this`errors, this`loading
      ensures called <==> FormErrors(values, rules) == map[]
      ensures !called ==> errors == FormErrors(values, rules) && loading == old(loading)
      ensures called ==> errors == SubmissionErrors(outcome) && !loading
    {
      called := BeginSubmit();
      if called {
        FinishSubmit(outcome);
      }
    }
  }
}
