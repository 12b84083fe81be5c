/**
 * Where the form controller shows each message the session manager can answer with: the
 * message's text, read character by character, against the keyword rule of `handleSubmit`. A
 * message that names no field is only logged, so the user never sees it.
 */
module MessageRouting {
  import opened Wrappers
  import opened Strings
  import F = AuthForm
  import A = AuthContext

  /** The facts about the text "Invalid email format" that its routing needs. */
  lemma {:induction false} InvalidEmailText(message: string)
    requires message == "Invalid email format"
    ensures HasWordAt(message, "email", 8)
  {
  }

  /** "Invalid email format" is shown under the email field. */
  lemma {:induction false} InvalidEmailRoute(message: string)
    requires message == A.InvalidEmailFormat
    ensures F.FieldFor(message) == Some("email")
  {
    InvalidEmailText(message);
    F.EmailRouted(message, 8);
  }

  /** The facts about the text "Password is required" that its routing needs. */
  lemma {:induction false} PasswordRequiredText(message: string)
    requires message == "Password is required"
    ensures Lacks(message, 'm') && Lacks(message, 'M')
    ensures HasWordAt(message, "password", 0)
  {
  }

  /** "Password is required" is shown under the password field. */
  lemma {:induction false} PasswordRequiredRoute(message: string)
    requires message == A.PasswordRequired
    ensures F.FieldFor(message) == Some("password")
  {
    PasswordRequiredText(message);
    F.PasswordRouted(message, 1, 0);
  }

  /** The facts about the text "Incorrect password" that its routing needs. */
  lemma {:induction false} IncorrectPasswordText(message: string)
    requires message == "Incorrect password"
    ensures Lacks(message, 'm') && Lacks(message, 'M')
    ensures HasWordAt(message, "password", 10)
  {
  }

  /** "Incorrect password" is shown under the password field. */
  lemma {:induction false} IncorrectPasswordRoute(message: string)
    requires message == A.IncorrectPassword
    ensures F.FieldFor(message) == Some("password")
  {
    IncorrectPasswordText(message);
    F.PasswordRouted(message, 1, 10);
  }

  /** The facts about the text "User not found" that its routing needs. */
  lemma {:induction false} UserNotFoundText(message: string)
    requires message == "User not found"
    ensures Lacks(message, 'm') && Lacks(message, 'M') && Lacks(message, 'w') && Lacks(message, 'W')
  {}

  /** "User not found" is shown under no field. */
  lemma {:induction false} UserNotFoundRoute(message: string)
    requires message == A.UserNotFound
    ensures F.FieldFor(message) == None
  {
    UserNotFoundText(message);
    F.Unrouted(message);
  }

  /** The facts about the text "Login failed. Please try again." that its routing needs. */
  lemma {:induction false} LoginFailedText(message: string)
    requires message == "Login failed. Please try again."
    ensures Lacks(message, 'm') && Lacks(message, 'M') && Lacks(message, 'w') && Lacks(message, 'W')
  {}

  /** "Login failed. Please try again." is shown under no field. */
  lemma {:induction false} LoginFailedRoute(message: string)
    requires message == A.LoginFailed
    ensures F.FieldFor(message) == None
  {
    LoginFailedText(message);
    F.Unrouted(message);
  }

  /** The facts about the text "Name is required" that its routing needs. */
  lemma {:induction false} NameRequiredText(message: string)
    requires message == "Name is required"
    ensures Lacks(message, 'l') && Lacks(message, 'L')
    ensures Lacks(message, 'p') && Lacks(message, 'P')
    ensures HasWordAt(message, "name", 0)
  {
  }

  /** "Name is required" is shown under the name field. */
  lemma {:induction false} NameRequiredRoute(message: string)
    requires message == A.NameRequired
    ensures F.FieldFor(message) == Some("name")
  {
    NameRequiredText(message);
    F.NameRouted(message, 4, 0, 0);
  }

  /** The facts about the text "Password must be at least 6 characters" that its routing needs. */
  lemma {:induction false} PasswordTooShortText(message: string)
    requires message == "Password must be at least 6 characters"
    ensures Lacks(message, 'i') && Lacks(message, 'I')
    ensures HasWordAt(message, "password", 0)
  {
  }

  /** "Password must be at least 6 characters" is shown under the password field. */
  lemma {:induction false} PasswordTooShortRoute(message: string)
    requires message == A.PasswordTooShort
    ensures F.FieldFor(message) == Some("password")
  {
    PasswordTooShortText(message);
    F.PasswordRouted(message, 3, 0);
  }

  /** The facts about the text "User with this email already exists" that its routing needs. */
  lemma {:induction false} EmailTakenText(message: string)
    requires message == "User with this email already exists"
    ensures HasWordAt(message, "email", 15)
  {
  }

  /** "User with this email already exists" is shown under the email field. */
  lemma {:induction false} EmailTakenRoute(message: string)
    requires message == A.EmailTaken
    ensures F.FieldFor(message) == Some("email")
  {
    EmailTakenText(message);
    F.EmailRouted(message, 15);
  }

  /** The facts about the text "Signup failed. Please try again." that its routing needs. */
  lemma {:induction false} SignupFailedText(message: string)
    requires message == "Signup failed. Please try again."
    ensures Lacks(message, 'm') && Lacks(message, 'M') && Lacks(message, 'w') && Lacks(message, 'W')
  {}

  /** "Signup failed. Please try again." is shown under no field. */
  lemma {:induction false} SignupFailedRoute(message: string)
    requires message == A.SignupFailed
    ensures F.FieldFor(message) == None
  {
    SignupFailedText(message);
    F.Unrouted(message);
  }

  /**
   * Of the messages `login` can answer with, none goes under the name field, which the sign-in
   * screen does not have. The ones that go under no field, and so are only logged, are exactly
   * "User not found" and the generic failure.
   */
  lemma {:induction false} LoginMessageShown(m: string)
    requires m == A.InvalidEmailFormat || m == A.PasswordRequired || m == A.IncorrectPassword
             || m == A.UserNotFound || m == A.LoginFailed
    ensures F.FieldFor(m) != Some("name")
    ensures F.FieldFor(m) == None <==> m == A.UserNotFound || m == A.LoginFailed
  {
    if m == A.InvalidEmailFormat {
      InvalidEmailRoute(m);
    } else if m == A.PasswordRequired {
      PasswordRequiredRoute(m);
    } else if m == A.IncorrectPassword {
      IncorrectPasswordRoute(m);
    } else if m == A.UserNotFound {
      UserNotFoundRoute(m);
    } else {
      LoginFailedRoute(m);
    }
  }

  /**
   * A rejected `login` never puts its message under the missing name field, and it leaves the
   * sign-in screen without a visible error exactly when no account has the email or the attempt
   * failed outright.
   */
  lemma {:induction false} LoginErrorsShown(accounts: Option<seq<A.User>>, email: string, password: string)
    ensures var v := A.LoginVerdict(accounts, email, password);
      v.Failure? ==> F.FieldFor(v.error) != Some("name")
                     && (F.FieldFor(v.error) == None <==> v.error == A.UserNotFound || v.error == A.LoginFailed)
  {
    var v := A.LoginVerdict(accounts, email, password);
    if v.Failure? {
      LoginMessageShown(v.error);
    }
  }

  /**
   * A rejected `signup` shows its message under one of the sign-up screen's fields, unless it is
   * the generic failure: that one alone goes under no field and is only logged.
   */
  lemma {:induction false} SignupErrorsShown(accounts: Option<seq<A.User>>, name: string, email: string,
                                             password: string, id: string)
    ensures var v := A.SignupVerdict(accounts, name, email, password, id);
      v.Failure? ==> (F.FieldFor(v.error) == None <==> v.error == A.SignupFailed)
  {
    var v := A.SignupVerdict(accounts, name, email, password, id);
    if v.Failure? {
      var m := v.error;
      if m == A.NameRequired {
        NameRequiredRoute(m);
      } else if m == A.InvalidEmailFormat {
        InvalidEmailRoute(m);
      } else if m == A.PasswordTooShort {
        PasswordTooShortRoute(m);
      } else if m == A.EmailTaken {
        EmailTakenRoute(m);
      } else {
        SignupFailedRoute(m);
      }
    }
  }
}
