/**
 * The on-device account store and session manager (`AuthProvider`).
 *
 * The accounts live under the storage key `@mock_users` as a list of records and are read back
 * in full by every `login` and `signup`; the signed-in account is kept in memory (`user`) and a copy
 * of it under `@auth_user`, from which it is restored when the application starts.
 */
module AuthContext {
  import opened Wrappers
  import opened Strings
  import opened EmailPattern

  const UsersKey := "@mock_users"
  const SessionKey := "@auth_user"

  const InvalidEmailFormat := "Invalid email format"
  const PasswordRequired := "Password is required"
  const UserNotFound := "User not found"
  const IncorrectPassword := "Incorrect password"
  const LoginFailed := "Login failed. Please try again."
  const NameRequired := "Name is required"
  const PasswordTooShort := "Password must be at least 6 characters"
  const EmailTaken := "User with this email already exists"
  const SignupFailed := "Signup failed. Please try again."

  /** The password every account accepts. */
  const Fallback := "password"

  /** An account record; `password` is optional in the record type and stored as typed. */
  datatype User = User(id: string, name: string, email: string, password: Option<string>)

  /**
   * A storage value as `JSON.parse` reads it: the empty string (falsy, so never parsed), a list of
   * records, a single record, or text that does not parse.
   */
  datatype Stored = Blank | UserList(users: seq<User>) | UserRecord(user: User) | Malformed

  /** `{ success, error? }`, what `login` and `signup` resolve to. */
  datatype AuthResult = AuthResult(success: bool, error: Option<string>)

  /**
   * Which storage calls fail (reject) during one operation: reading the account list, writing it,
   * and writing or removing the saved session.
   */
  datatype Faults = Faults(readFails: bool, accountsWriteFails: bool, sessionWriteFails: bool)

  const NoFaults := Faults(false, false, false)

  /**
   * `getItem(@mock_users)` followed by `JSON.parse`, or `[]` when nothing (or the empty string) is
   * stored. `None` is the exception the operation's catch-all turns into its generic message: text
   * that does not parse, or a parsed value that is a single record rather than a list.
   */
  function ReadAccounts(store: map<string, Stored>): (r: Option<seq<User>>)
    ensures r.None? <==> UsersKey in store && (store[UsersKey].UserRecord? || store[UsersKey].Malformed?)
    ensures r.Some? && r.value != [] ==> UsersKey in store && store[UsersKey] == UserList(r.value)
  {
    if UsersKey !in store then Some([])
    else match store[UsersKey]
      case Blank => Some([])
      case UserList(users) => Some(users)
      case UserRecord(_) => None
      case Malformed => None
  }

  /** The case-insensitive email comparison `u.email.toLowerCase() === email.toLowerCase()`. */
  predicate SameEmail(u: User, email: string) {
    Lower(u.email) == Lower(email)
  }

  /** No two records share an email up to case. */
  predicate UniqueEmails(users: seq<User>) {
    forall i, j :: 0 <= i < j < |users| ==> Lower(users[i].email) != Lower(users[j].email)
  }

  /** `users.find(...)` by email: the position of the first record whose email matches up to case. */
  function FindByEmail(users: seq<User>, email: string): (r: Option<nat>)
    ensures r.Some? ==> r.value < |users| && SameEmail(users[r.value], email)
    ensures r.Some? ==> forall k :: 0 <= k < r.value ==> !SameEmail(users[k], email)
    ensures r.None? <==> forall k :: 0 <= k < |users| ==> !SameEmail(users[k], email)
  {
    if users == [] then None
    else if SameEmail(users[0], email) then Some(0)
    else match FindByEmail(users[1..], email)
      case None => None
      case Some(i) => Some(i + 1)
  }

  /** `email.split('@')[0]`: the text before the first '@', or all of it. */
  function LocalPart(email: string): (r: string)
    ensures r <= email && '@' !in r
    ensures |r| < |email| ==> email[|r|] == '@'
  {
    var i := IndexOf(email, '@');
    assert Split(email, '@')[0] == email[..i];
    Split(email, '@')[0]
  }

  /**
   * The credential rule of `login`: a non-empty stored password typed back, the email's local part,
   * or the fallback password.
   */
  predicate PasswordAccepted(u: User, password: string): (b: bool)
    ensures password == Fallback ==> b
    ensures b ==> password == Fallback || password == LocalPart(u.email)
                  || (u.password.Some? && password == u.password.value)
    ensures password == "" ==> (b <==> LocalPart(u.email) == "")
  {
    (u.password.Some? && u.password.value != "" && password == u.password.value)
    || password == LocalPart(u.email)
    || password == Fallback
  }

  /**
   * What `login` decides, given the account list it read (`None`: reading or parsing it threw).
   * The checks run in a fixed order and the first that fails names the rejection.
   */
  function LoginVerdict(accounts: Option<seq<User>>, email: string, password: string): (v: Result<User, string>)
    ensures !IsEmailShape(email) ==> v == Failure(InvalidEmailFormat)
    ensures IsEmailShape(email) && password == "" ==> v == Failure(PasswordRequired)
    ensures IsEmailShape(email) && password != "" && accounts.None? ==> v == Failure(LoginFailed)
    ensures v == Failure(UserNotFound)
            <==> IsEmailShape(email) && password != "" && accounts.Some?
                 && forall k :: 0 <= k < |accounts.value| ==> !SameEmail(accounts.value[k], email)
    ensures v == Failure(IncorrectPassword)
            <==> IsEmailShape(email) && password != "" && accounts.Some?
                 && FindByEmail(accounts.value, email).Some?
                 && !PasswordAccepted(accounts.value[FindByEmail(accounts.value, email).value], password)
    ensures v.Success? ==> accounts.Some? && FindByEmail(accounts.value, email).Some?
                           && v.value == accounts.value[FindByEmail(accounts.value, email).value]
    ensures v.Success? ==> accounts.Some? && v.value in accounts.value
                           && SameEmail(v.value, email) && PasswordAccepted(v.value, password)
    ensures v.Failure? ==> v.error in {InvalidEmailFormat, PasswordRequired, LoginFailed, UserNotFound, IncorrectPassword}
  {
    if !IsEmailShape(email) then Failure(InvalidEmailFormat)
    else if password == "" then Failure(PasswordRequired)
    else if accounts.None? then Failure(LoginFailed)
    else match FindByEmail(accounts.value, email)
      case None => Failure(UserNotFound)
      case Some(i) =>
        if PasswordAccepted(accounts.value[i], password) then Success(accounts.value[i])
        else Failure(IncorrectPassword)
  }

  /**
   * What `signup` decides, given the account list it read: the record to append, or the first
   * failed check. The record has the trimmed name, the lower-cased email and the password as typed.
   */
  function SignupVerdict(accounts: Option<seq<User>>, name: string, email: string, password: string, id: string)
    : (v: Result<User, string>)
    ensures AllSpace(name) ==> v == Failure(NameRequired)
    ensures !AllSpace(name) && !IsEmailShape(email) ==> v == Failure(InvalidEmailFormat)
    ensures !AllSpace(name) && IsEmailShape(email) && |password| < 6 ==> v == Failure(PasswordTooShort)
    ensures !AllSpace(name) && IsEmailShape(email) && |password| >= 6 && accounts.None? ==> v == Failure(SignupFailed)
    ensures !AllSpace(name) && IsEmailShape(email) && |password| >= 6 && accounts.Some?
            && (exists k :: 0 <= k < |accounts.value| && SameEmail(accounts.value[k], email))
            ==> v == Failure(EmailTaken)
    ensures v.Success? <==> !AllSpace(name) && IsEmailShape(email) && |password| >= 6 && accounts.Some?
                            && forall k :: 0 <= k < |accounts.value| ==> !SameEmail(accounts.value[k], email)
    ensures v.Success? ==> v.value == User(id, Trim(name), Lower(email), Some(password))
  {
    if Trim(name) == "" then Failure(NameRequired)
    else if !IsEmailShape(email) then Failure(InvalidEmailFormat)
    else if |password| < 6 then Failure(PasswordTooShort)
    else if accounts.None? then Failure(SignupFailed)
    else if FindByEmail(accounts.value, email).Some? then Failure(EmailTaken)
    else Success(User(id, Trim(name), Lower(email), Some(password)))
  }

  /** The `{ success, error? }` a verdict resolves to. */
  function Report(v: Result<User, string>): AuthResult {
    if v.Success? then AuthResult(true, None) else AuthResult(false, Some(v.error))
  }

  /**
   * The storage after `saveAuthState(userData)`: the record written under the session key, or the
   * key removed; a rejected write or removal is swallowed and leaves the storage as it was.
   */
  function Saved(store: map<string, Stored>, userData: Option<User>, fails: bool): (r: map<string, Stored>)
    ensures r - {SessionKey} == store - {SessionKey}
    ensures !fails ==> (SessionKey in r <==> userData.Some?)
    ensures fails ==> r == store
  {
    if fails then store
    else match userData
      case Some(u) => store[SessionKey := UserRecord(u)]
      case None => store - {SessionKey}
  }

  /** Writing or removing the saved session touches no other key, so the account list reads the same. */
  lemma {:induction false} SavedKeepsAccounts(store: map<string, Stored>, userData: Option<User>, fails: bool)
    ensures Saved(store, userData, fails) - {SessionKey} == store - {SessionKey}
    ensures ReadAccounts(Saved(store, userData, fails)) == ReadAccounts(store)
  {
    var after := Saved(store, userData, fails);
    assert UsersKey != SessionKey;
    assert UsersKey in after <==> UsersKey in store;
  }

  /** The session a start-up restores from the storage, if any. */
  function SavedSession(store: map<string, Stored>): (r: Option<User>)
    ensures r.Some? ==> SessionKey in store && store[SessionKey] == UserRecord(r.value)
    ensures r.None? ==> SessionKey !in store || !store[SessionKey].UserRecord?
  {
    if SessionKey in store && store[SessionKey].UserRecord? then Some(store[SessionKey].user) else None
  }

  /**
   * What `saveAuthState` writes is what a start-up restores: the record written, or no session
   * once the key is removed. A rejected call leaves the storage as it was.
   */
  lemma {:induction false} SaveThenRestore(store: map<string, Stored>, userData: Option<User>, fails: bool)
    ensures fails ==> Saved(store, userData, fails) == store
    ensures !fails ==> SavedSession(Saved(store, userData, fails)) == userData
    ensures !fails && userData.None? ==> SessionKey !in Saved(store, userData, fails)
  {
    if !fails && userData.Some? {
      assert Saved(store, userData, fails)[SessionKey] == UserRecord(userData.value);
    }
  }

  /** Under unique emails, `login` accepts exactly when some account with that email takes the password. */
  lemma {:induction false} LoginAcceptsIff(users: seq<User>, email: string, password: string)
    requires UniqueEmails(users) && IsEmailShape(email) && password != ""
    ensures LoginVerdict(Some(users), email, password).Success?
            <==> exists k :: 0 <= k < |users| && SameEmail(users[k], email) && PasswordAccepted(users[k], password)
  {
    var found := FindByEmail(users, email);
    if found.Some? {
      var i := found.value;
      assert forall k :: 0 <= k < |users| && SameEmail(users[k], email) ==> k == i;
    }
  }

  /** Each of the three passwords opens the account `login` finds (the local part only when it is not empty). */
  lemma {:induction false} ThreePasswordsOpen(users: seq<User>, email: string, i: nat)
    requires IsEmailShape(email) && FindByEmail(users, email) == Some(i)
    ensures LoginVerdict(Some(users), email, Fallback) == Success(users[i])
    ensures LocalPart(users[i].email) != "" ==> LoginVerdict(Some(users), email, LocalPart(users[i].email)) == Success(users[i])
    ensures users[i].password.Some? && users[i].password.value != ""
            ==> LoginVerdict(Some(users), email, users[i].password.value) == Success(users[i])
  {
  }

  /** A successful sign-up keeps the emails of the account list unique up to case. */
  lemma {:induction false} SignupKeepsEmailsUnique(users: seq<User>, name: string, email: string, password: string, id: string)
    requires UniqueEmails(users)
    requires SignupVerdict(Some(users), name, email, password, id).Success?
    ensures UniqueEmails(users + [SignupVerdict(Some(users), name, email, password, id).value])
  {
    var u := SignupVerdict(Some(users), name, email, password, id).value;
    var after := users + [u];
    LowerIdempotent(email);
    forall i, j | 0 <= i < j < |after| ensures Lower(after[i].email) != Lower(after[j].email) {
      if j == |users| {
        assert !SameEmail(users[i], email);
      }
    }
  }

  /** Logging in with the email and password just signed up with opens the new account. */
  lemma {:induction false} SignupThenLoginSucceeds(users: seq<User>, name: string, email: string, password: string, id: string)
    requires SignupVerdict(Some(users), name, email, password, id).Success?
    ensures var u := SignupVerdict(Some(users), name, email, password, id).value;
      LoginVerdict(Some(users + [u]), email, password) == Success(u)
  {
    var u := SignupVerdict(Some(users), name, email, password, id).value;
    assert IsEmailShape(email) && |password| >= 6 && u.password == Some(password);
    LowerIdempotent(email);
    FindAppended(users, u, email);
  }

  /** A record appended after records that all miss the email, and matching it, is the one `find` returns. */
  lemma {:induction false} FindAppended(users: seq<User>, u: User, email: string)
    requires forall k :: 0 <= k < |users| ==> !SameEmail(users[k], email)
    requires SameEmail(u, email)
    ensures FindByEmail(users + [u], email) == Some(|users|)
  {
    var after := users + [u];
    assert forall k :: 0 <= k < |users| ==> after[k] == users[k];
    assert after[|users|] == u;
  }

  /** Once an email has signed up, signing up again with it, in any case, is refused and adds nothing. */
  lemma {:induction false} SignupTwiceRefused(users: seq<User>, name: string, email: string, password: string, id: string,
                           name': string, email': string, password': string, id': string)
    requires SignupVerdict(Some(users), name, email, password, id).Success?
    requires Lower(email') == Lower(email)
    requires !AllSpace(name') && IsEmailShape(email') && |password'| >= 6
    ensures var u := SignupVerdict(Some(users), name, email, password, id).value;
      SignupVerdict(Some(users + [u]), name', email', password', id') == Failure(EmailTaken)
  {
    var u := SignupVerdict(Some(users), name, email, password, id).value;
    LowerIdempotent(email);
    assert SameEmail((users + [u])[|users|], email');
  }

  /** The session manager: the signed-in account, the start-up flag and the device storage. */
  class AuthProvider {
    /** `user`: the signed-in account, if any. */
    var session: Option<User>
    /** `loading`: true until the saved session has been looked up. */
    var loading: bool
    /** The device storage, each value as `JSON.parse` reads it. */
    var store: map<string, Stored>

    /** The account list as the next `login` or `signup` reads it. */
    function Accounts(): Option<seq<User>>
      reads this
    {
      ReadAccounts(store)
    }

    /** The store's invariant: a readable account list never holds the same email twice. */
    predicate AccountsUnique()
      reads this
    {
      Accounts().Some? ==> UniqueEmails(Accounts().value)
    }

    /** A provider mounted over the device storage: signed out and loading. */
    constructor (device: map<string, Stored>)
      ensures session == None && loading && store == device
    {
      session := None;
      loading := true;
      store := device;
    }

    /**
     * `loadAuthState`: adopts the saved record, as it is, when the session key holds one; keeps
     * the session otherwise, also when the read rejects; and always ends loading.
     */
    method LoadAuthState(readFails: bool)
      modifies this`session, this`loading
      ensures !loading
      ensures session == if !readFails && SavedSession(store).Some? then SavedSession(store) else old(session)
    {
      if !readFails && SessionKey in store {
        match store[SessionKey]
        case UserRecord(u) => session := Some(u);
        case Blank =>
        case UserList(_) =>
        case Malformed =>
      }
      loading := false;
    }

    /** `saveAuthState`: writes or removes the saved session; a rejected call is swallowed. */
    method SaveAuthState(userData: Option<User>, fails: bool)
      modifies this`store
      ensures store == Saved(old(store), userData, fails)
    {
      if !fails {
        match userData
        case Some(u) => store := store[SessionKey := UserRecord(u)];
        case None => store := store - {SessionKey};
      }
    }

    /**
     * `login`: checks the email shape and the password, reads the account list afresh, finds the
     * account by email up to case and applies the credential rule. On success the account becomes
     * the session and is saved; on any rejection nothing changes. The account list is never touched.
     */
    method Login(email: string, password: string, faults: Faults) returns (r: AuthResult)
      modifies this`session, this`store
      ensures var v := LoginVerdict(if faults.readFails then None else old(Accounts()), email, password);
        r == Report(v)
        && session == (if v.Success? then Some(v.value) else old(session))
        && store == (if v.Success? then Saved(old(store), session, faults.sessionWriteFails) else old(store))
      ensures store - {SessionKey} == old(store) - {SessionKey}
      ensures Accounts() == old(Accounts())
    {
      ghost var v := LoginVerdict(if faults.readFails then None else Accounts(), email, password);
      if !IsEmailShape(email) {
        assert v == Failure(InvalidEmailFormat);
        return Report(Failure(InvalidEmailFormat));
      }
      if password == "" {
        assert v == Failure(PasswordRequired);
        return Report(Failure(PasswordRequired));
      }
      var accounts := if faults.readFails then None else ReadAccounts(store);
      if accounts.None? {
        assert v == Failure(LoginFailed);
        return Report(Failure(LoginFailed));
      }
      var found := FindByEmail(accounts.value, email);
      if found.None? {
        assert v == Failure(UserNotFound);
        return Report(Failure(UserNotFound));
      }
      var user := accounts.value[found.value];
      if !PasswordAccepted(user, password) {
        assert v == Failure(IncorrectPassword);
        return Report(Failure(IncorrectPassword));
      }
      assert v == Success(user);
      SavedKeepsAccounts(store, Some(user), faults.sessionWriteFails);
      session := Some(user);
      SaveAuthState(session, faults.sessionWriteFails);
      r := Report(Success(user));
    }

    /**
     * `signup`: checks name, email shape and password length, reads the account list afresh and
     * refuses an email already there up to case. Otherwise it appends the new record, writes the
     * whole list back and signs the new account in. A rejected read or list write ends in the
     * generic message with nothing changed; a rejected session write is swallowed.
     */
    method Signup(name: string, email: string, password: string, id: string, faults: Faults) returns (r: AuthResult)
      modifies this`session, this`store
      ensures var v := SignupVerdict(if faults.readFails then None else old(Accounts()), name, email, password, id);
        if v.Success? && !faults.accountsWriteFails then
          r == AuthResult(true, None) && session == Some(v.value)
          && store == Saved(old(store)[UsersKey := UserList(old(Accounts()).value + [v.value])],
                            session, faults.sessionWriteFails)
        else
          r == AuthResult(false, Some(if v.Failure? then v.error else SignupFailed))
          && session == old(session) && store == old(store)
      ensures r.success ==> old(Accounts()).Some? && session.Some?
                            && Accounts() == Some(old(Accounts()).value + [session.value])
      ensures old(AccountsUnique()) ==> AccountsUnique()
    {
      ghost var v := SignupVerdict(if faults.readFails then None else Accounts(), name, email, password, id);
      if Trim(name) == "" {
        assert v == Failure(NameRequired);
        return AuthResult(false, Some(NameRequired));
      }
      if !IsEmailShape(email) {
        assert v == Failure(InvalidEmailFormat);
        return AuthResult(false, Some(InvalidEmailFormat));
      }
      if |password| < 6 {
        assert v == Failure(PasswordTooShort);
        return AuthResult(false, Some(PasswordTooShort));
      }
      var accounts := if faults.readFails then None else ReadAccounts(store);
      if accounts.None? {
        assert v == Failure(SignupFailed);
        return AuthResult(false, Some(SignupFailed));
      }
      var users := accounts.value;
      if FindByEmail(users, email).Some? {
        assert v == Failure(EmailTaken);
        return AuthResult(false, Some(EmailTaken));
      }
      var newUser := User(id, Trim(name), Lower(email), Some(password));
      assert v == Success(newUser);
      if faults.accountsWriteFails {
        return AuthResult(false, Some(SignupFailed));
      }
      if UniqueEmails(users) {
        SignupKeepsEmailsUnique(users, name, email, password, id);
      }
      assert users == old(Accounts()).value;
      AppendAndSignIn(users, newUser, faults.sessionWriteFails);
      r := AuthResult(true, None);
    }

    /**
     * The successful end of `signup`: the list with the new record pushed at its end is written
     * back whole, and the new account is signed in and saved.
     */
    method AppendAndSignIn(users: seq<User>, newUser: User, sessionWriteFails: bool)
      modifies this`session, this`store
      ensures session == Some(newUser)
      ensures store == Saved(old(store)[UsersKey := UserList(users + [newUser])], session, sessionWriteFails)
      ensures Accounts() == Some(users + [newUser])
    {
      var written := store[UsersKey := UserList(users + [newUser])];
      store := written;
      SavedKeepsAccounts(written, Some(newUser), sessionWriteFails);
      session := Some(newUser);
      SaveAuthState(session, sessionWriteFails);
    }

    /** `logout`: always ends signed out; the saved session is removed unless the removal is rejected. */
    method Logout(removeFails: bool)
      modifies this`session, this`store
      ensures session == None
      ensures store == Saved(old(store), None, removeFails)
    {
      session := None;
      SaveAuthState(None, removeFails);
    }
  }

  /**
   * A sign-up followed, on the same device, by a login with the same email and password: if the
   * sign-up succeeded and the login can read the account list, the login succeeds.
   */
  method SignupThenLogin(device: map<string, Stored>, name: string, email: string, password: string, id: string,
                         signupFaults: Faults, loginFaults: Faults)
    returns (signedUp: AuthResult, loggedIn: AuthResult)
    requires !loginFaults.readFails
    ensures signedUp.success ==> loggedIn.success
  {
    var provider := new AuthProvider(device);
    var before := provider.Accounts();
    signedUp := provider.Signup(name, email, password, id, signupFaults);
    if signedUp.success {
      SignupThenLoginSucceeds(before.value, name, email, password, id);
    }
    loggedIn := provider.Login(email, password, loginFaults);
  }

  /** After a logout whose removal went through, the next start-up restores no session. */
  method LogoutThenRestart(device: map<string, Stored>, readFails: bool) returns (restored: Option<User>)
    ensures restored == None
  {
    var provider := new AuthProvider(device);
    provider.LoadAuthState(readFails);
    provider.Logout(false);
    var next := new AuthProvider(provider.store);
    next.LoadAuthState(false);
    restored := next.session;
  }

  /**
   * After a successful login whose session write went through, the next start-up restores the
   * account that logged in.
   */
  method LoginThenRestart(device: map<string, Stored>, email: string, password: string)
    returns (r: AuthResult, restored: Option<User>)
    ensures r.success ==> restored.Some? && SameEmail(restored.value, email)
    ensures !r.success ==> restored == SavedSession(device)
  {
    var provider := new AuthProvider(device);
    r := provider.Login(email, password, NoFaults);
    var next := new AuthProvider(provider.store);
    next.LoadAuthState(false);
    restored := next.session;
  }
}
