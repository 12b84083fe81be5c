/**
 * How the sign-in and sign-up screens wire the form controller to the session manager: the
 * validators each attaches to its fields, and where each message of `login` and `signup` ends up.
 */
module Screens {
  import opened Wrappers
  import opened Strings
  import opened EmailPattern
  import V = Validation
  import F = AuthForm
  import A = AuthContext

  /** The sign-in form: email and password. */
  const LoginRules: map<string, V.Rule> := map["email" := V.EmailRule, "password" := V.PasswordRule]

  /** The sign-up form: name, email and password. */
  const SignupRules: map<string, V.Rule> := map["name" := V.NameRule, "email" := V.EmailRule, "password" := V.PasswordRule]

  /** The sign-in form calls `login` exactly when the email has the email shape and the password has six characters or more. */
  lemma {:induction false} LoginFormGate(values: map<string, string>)
    requires "email" in values && "password" in values
    ensures V.FormErrors(values, LoginRules) == map[]
            <==> IsEmailShape(values["email"]) && |values["password"]| >= 6
  {
    assert LoginRules.Keys == {"email", "password"};
    V.NoErrorsIff(values, LoginRules);
    V.TwoFieldsPass(values, LoginRules, "email", "password");
    assert LoginRules["email"] == V.EmailRule && LoginRules["password"] == V.PasswordRule;
  }

  /**
   * Of the rejections `login` can give once the sign-in form lets a submission through, the email
   * and empty-password checks can no longer fail: only "User not found", "Incorrect password" and
   * the generic failure remain.
   */
  lemma {:induction false} LoginAfterFormGate(accounts: Option<seq<A.User>>, email: string, password: string)
    requires IsEmailShape(email) && |password| >= 6
    ensures var v := A.LoginVerdict(accounts, email, password);
      v.Failure? ==> v.error in {A.UserNotFound, A.IncorrectPassword, A.LoginFailed}
  {
  }

  /** The sign-up form calls `signup` exactly when the trimmed name has two characters or more, the email has the email shape and the password has six characters or more. */
  lemma {:induction false} SignupFormGate(values: map<string, string>)
    requires "name" in values && "email" in values && "password" in values
    ensures V.FormErrors(values, SignupRules) == map[]
            <==> |Trim(values["name"])| >= 2 && IsEmailShape(values["email"]) && |values["password"]| >= 6
  {
    assert SignupRules.Keys == {"name", "email", "password"};
    V.NoErrorsIff(values, SignupRules);
    V.ThreeFieldsPass(values, SignupRules, "name", "email", "password");
    assert SignupRules["name"] == V.NameRule && SignupRules["email"] == V.EmailRule
           && SignupRules["password"] == V.PasswordRule;
  }

  /**
   * Once the sign-up form lets a submission through, `signup` can only be refused because the
   * email is taken or the account list could not be read.
   */
  lemma {:induction false} SignupAfterFormGate(accounts: Option<seq<A.User>>, name: string, email: string, password: string, id: string)
    requires |Trim(name)| >= 2 && IsEmailShape(email) && |password| >= 6
    ensures var v := A.SignupVerdict(accounts, name, email, password, id);
      v.Failure? ==> v.error in {A.EmailTaken, A.SignupFailed}
  {
  }
}
