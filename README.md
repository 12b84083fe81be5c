# auth_flow_rn: verified model of the authentication core

This project models the core of a React Native sign-in/sign-up application in Dafny:

- **AuthContext** (`auth_context.dfy`): the session manager. A device key/value storage holds the
  account list under `@mock_users` and the signed-in account under `@auth_user`. `login` and
  `signup` read the account list afresh. They check their inputs in a fixed order and answer
  `{ success, error? }`. `logout` clears the session. `loadAuthState` restores it at start-up.
  The provider is a class with the fields `session`, `loading` and `store`. The decision each
  operation takes is a pure function (`LoginVerdict`, `SignupVerdict`), and each method is proved
  against it.
- **EmailPattern** (`email_pattern.dfy`): the email shape `/^[^\s@]+@[^\s@]+\.[^\s@]+$/` shared by
  the session manager and the validators. It is checked in one pass and proved equal to a literal
  reading of the regular expression.
- **Validation** (`validation.dfy`): the field validators. It also holds `validateForm`, a loop
  that collects the reason of every field whose validator rejects it.
- **AuthForm** (`auth_form.dfy`): the form controller `useAuthForm`. It is a class with the fields
  `values`, `errors` and `loading`, and the methods `handleChange`, `clearErrors` and
  `handleSubmit`. It also maps a failure message to the field the message is shown under.
- **HomeScreen** (`home_screen.dfy`): the avatar initials `getInitials`.
- **Screens** (`screens.dfy`): how the sign-in and sign-up screens connect the two. Each screen
  attaches validators to its fields, and the lemmas state when a form calls `login`/`signup` and
  which rejection can still come back once it does.
- **MessageRouting** (`message_routing.dfy`): where each message of `login`/`signup` is shown. The
  rule of `handleSubmit` is applied to the text of each message. A message that names no field is
  only logged, so on the sign-in screen "User not found" and the generic failure are never shown.
- **Strings** (`strings.dfy`): the JavaScript string primitives the core uses, over `seq<char>`:
  `trim`, `\s`, `toLowerCase`/`toUpperCase`, `includes`, `split` and `join`. `IndexOf` is not a
  primitive the code calls: it finds the first separator, where `split` cuts.

Storage is an in-memory map from key to one of four shapes of stored value:

- `Blank`: the empty string, which is falsy and so is never parsed;
- a list of records;
- a single record;
- `Malformed`: text that does not parse.

`Login` and `Signup` take as a parameter which of their storage calls reject (`Faults`).
`LoadAuthState`, `SaveAuthState` and `Logout` make one storage call each and take a single flag
saying whether it rejects. The id
`Date.now()` would give is a parameter of `Signup`, and the settled `onSubmit` promise is a
parameter of `HandleSubmit`.

A malformed or unreadable account list is not read as an empty list. The `getItem` or
`JSON.parse` failure is caught by the operation's `catch`, so `login` answers "Login failed.
Please try again." and `signup` answers "Signup failed. Please try again." (`ReadAccounts` returns
`None`). A stored value that parses to a single record rather than a list ends the same way,
because `.find` throws on it.

## Model

| member | source | states |
|---|---|---|
| EmailPattern.IsEmailShape | src/context/AuthContext.tsx:59-62 | a string with the email shape contains an '@', does not start with it, and has at least five characters |
| EmailPattern.ShapeIsPattern | src/context/AuthContext.tsx:59-62 | the one-pass email check accepts a string exactly when the regular expression `^[^\s@]+@[^\s@]+\.[^\s@]+$` matches it, in both directions |
| EmailPattern.ShapeMatches | src/context/AuthContext.tsx:60-61 | a string the check accepts has a match of the regular expression |
| EmailPattern.MatchIsShape | src/context/AuthContext.tsx:60-61 | any match of the regular expression is accepted by the check |
| EmailPattern.ShapeHasNoSpace | src/utils/validation.ts:11-12 | a shaped email contains no white space at any position |
| EmailPattern.ShapeHasOneAt | src/context/AuthContext.tsx:60 | a shaped email has exactly one '@', and it is not the first character |
| EmailPattern.BlankIsNotShape | src/utils/validation.ts:7-14 | an empty or white-space-only string never has the email shape |
| Validation.ValidateEmail | src/utils/validation.ts:6-17 | valid iff the email has the shape; otherwise "Email is required" for empty or white-space-only input, else "Invalid email format"; no error when valid |
| Validation.PaddedEmailRejected | src/utils/validation.ts:11-14 | an email with white space at either end is rejected, since it is not trimmed before the shape test |
| Validation.ValidatePassword | src/utils/validation.ts:19-29 | valid iff the length is at least 6; the empty password gets "Password is required", a short one gets the length message |
| Validation.ValidateName | src/utils/validation.ts:31-41 | valid iff the trimmed name has at least 2 characters; white space only gets "Name is required", a trimmed length of 1 gets "Name must be at least 2 characters" |
| Validation.Apply | src/utils/validation.ts:47-50 | every rejection by any of the three validators carries a non-empty reason, so `validateForm` records it |
| Validation.FormErrors | src/utils/validation.ts:43-57 | the result's keys are fields that have a validator; a field is a key iff its validator rejects its value, and its entry is exactly that validator's reason |
| Validation.ValidateForm | src/utils/validation.ts:43-57 | the `forEach` loop over the fields returns exactly `FormErrors(fields, rules)` |
| Validation.NoErrorsIff | src/utils/validation.ts:43-57 | `validateForm` returns no entry exactly when every field that has a validator passes it |
| Validation.FormErrorsGrow | src/utils/validation.ts:46-54 | visiting one more field adds its reason if its validator flags it, and changes no other entry |
| AuthContext.ReadAccounts | src/context/AuthContext.tsx:76-77 | reading the list fails exactly when the stored value is malformed or a single record; a non-empty list read is the stored list, and nothing stored reads as empty |
| AuthContext.LocalPart | src/context/AuthContext.tsx:91 | `split('@')[0]` is the prefix of the email before its first '@', or the whole email when it has none |
| AuthContext.PasswordAccepted | src/context/AuthContext.tsx:89-92 | "password" always opens an account; only the fallback, the local part or the stored password does; the empty password opens exactly the accounts whose email starts with '@' |
| AuthContext.FindByEmail | src/context/AuthContext.tsx:80-82 | `find` returns the first record whose email equals the given one up to case, and none iff no record matches |
| AuthContext.LoginVerdict | src/context/AuthContext.tsx:64-104 | rejections in order: bad shape gives "Invalid email format", then an empty password gives "Password is required", then an unreadable list gives "Login failed. Please try again."; "User not found" exactly when the list is read and no record has the email; "Incorrect password" exactly when the first record with the email refuses the password; a success is that first record, and it accepts the password |
| AuthContext.LoginAcceptsIff | src/context/AuthContext.tsx:80-96 | with unique emails, `login` accepts iff some record with that email takes the password (its non-empty stored password, its email's text before the first '@', or "password") |
| AuthContext.ThreePasswordsOpen | src/context/AuthContext.tsx:89-92 | each of the three accepted passwords opens the account found; the local part only when it is not empty |
| AuthContext.SignupVerdict | src/context/AuthContext.tsx:106-153 | rejections in order: blank name, bad email shape, password shorter than 6, unreadable list, an email already present up to case; success iff all pass; the new record has the trimmed name, the lower-cased email and the password as typed |
| AuthContext.Saved | src/context/AuthContext.tsx:47-57 | `saveAuthState` changes only the session key; a call that goes through leaves the key present iff a record was given; a rejected call changes nothing |
| AuthContext.SaveThenRestore | src/context/AuthContext.tsx:47-57 | a write that goes through is read back at start-up as the saved session, a removal leaves no session key, and a rejected call leaves the storage as it was |
| AuthContext.SavedSession | src/context/AuthContext.tsx:36-38 | a start-up restores a session exactly when the session key holds a record, and restores that record |
| AuthContext.SavedKeepsAccounts | src/context/AuthContext.tsx:47-57 | writing or removing the saved session touches no other key, so the account list reads the same |
| AuthContext.SignupKeepsEmailsUnique | src/context/AuthContext.tsx:126-144 | if no two records share an email up to case before a successful sign-up, that still holds after the record is appended |
| AuthContext.FindAppended | src/context/AuthContext.tsx:80-82 | a matching record pushed after records that all miss the email is the one `find` returns |
| AuthContext.SignupThenLoginSucceeds | src/context/AuthContext.tsx:126-144 | logging in with the email and password just signed up with opens the new record |
| AuthContext.SignupTwiceRefused | src/context/AuthContext.tsx:125-132 | after a sign-up, a second sign-up with the same email in any case that passes the other checks gets "User with this email already exists" |
| AuthContext.AuthProvider.constructor | src/context/AuthContext.tsx:26-27 | a mounted provider is signed out and loading, over the device storage |
| AuthContext.AuthProvider.LoadAuthState | src/context/AuthContext.tsx:34-45 | adopts the saved record when the session key holds one and the read succeeds, otherwise keeps the session; loading always ends |
| AuthContext.AuthProvider.SaveAuthState | src/context/AuthContext.tsx:47-57 | writes the record under the session key, or removes the key; a rejected call leaves the storage unchanged |
| AuthContext.AuthProvider.Login | src/context/AuthContext.tsx:64-104 | answers as `LoginVerdict` on the list it reads; on success the found record becomes the session and is saved; on rejection nothing changes; no key other than the session key ever changes, and the account list is never touched |
| AuthContext.AuthProvider.Signup | src/context/AuthContext.tsx:106-153 | answers as `SignupVerdict`; on success appends exactly the new record at the end, keeps the earlier records, signs the new account in and saves it; a rejected list write gives the generic message with nothing changed; keeps emails unique |
| AuthContext.AuthProvider.AppendAndSignIn | src/context/AuthContext.tsx:142-148 | the list with the new record pushed at its end is written back whole and reads back as that list; the new record becomes the session and is saved |
| AuthContext.AuthProvider.Logout | src/context/AuthContext.tsx:155-162 | the session always ends empty; the saved session is removed unless the removal is rejected |
| AuthContext.SignupThenLogin | src/context/AuthContext.tsx:135-149 | on one device, a successful sign-up followed by a login with the same email and password succeeds whenever the login can read the list |
| AuthContext.LogoutThenRestart | src/context/AuthContext.tsx:155-162 | after a logout whose removal went through, a restart restores no session |
| AuthContext.LoginThenRestart | src/context/AuthContext.tsx:98-100 | after a successful login with working storage, a restart restores an account with that email; after a refused one, it restores what was saved before |
| AuthForm.FieldFor | src/hooks/useAuthForm.ts:61-70 | a message goes to the first of "email", "password", "name" that its lower-cased text contains, and to no field iff it contains none of them |
| AuthForm.SubmissionErrors | src/hooks/useAuthForm.ts:59-77 | a settled submission yields at most one error: the message unchanged, under the field it names; nothing for a success, a rejection, an empty message or a message naming no field |
| AuthForm.Form.constructor | src/hooks/useAuthForm.ts:24-26 | a form starts with its initial values, no errors and not loading |
| AuthForm.Form.HandleChange | src/hooks/useAuthForm.ts:28-35 | sets only that field's value; blanks that field's error only if it showed one; no other value or error changes |
| AuthForm.Form.ClearErrors | src/hooks/useAuthForm.ts:37-39 | the errors become empty |
| AuthForm.Form.BeginSubmit | src/hooks/useAuthForm.ts:41-54 | proceeds iff every field passes its validator; otherwise the errors become the validation errors and loading is untouched; on proceeding, errors are cleared and loading is set |
| AuthForm.Form.FinishSubmit | src/hooks/useAuthForm.ts:56-83 | a failure message that names a field becomes the only error, anything else leaves the errors alone; loading ends in every case |
| AuthForm.Form.HandleSubmit | src/hooks/useAuthForm.ts:41-84 | `onSubmit` is called iff validation passes; without the call the errors are the validation errors and loading is untouched; with it, the errors are what the settled result maps to and loading is off |
| HomeScreen.FirstTwo | src/screens/HomeScreen.tsx:40 | `substring(0, 2)` gives the prefix of exactly two characters, or the whole text when it is shorter |
| HomeScreen.HeadsOfSplit | src/screens/HomeScreen.tsx:36-39 | the joined upper-cased first characters of the pieces of `split(' ')` are exactly the upper-cased characters that start a word |
| HomeScreen.GetInitials | src/screens/HomeScreen.tsx:35-41 | the initials have at most two characters and are the first two word starts of the name, in order |
| HomeScreen.HeadsSkipEmpty | src/screens/HomeScreen.tsx:37-38 | empty pieces, from leading or repeated spaces, contribute nothing to the initials |
| HomeScreen.Avatar | src/screens/HomeScreen.tsx:57 | a missing or empty name shows "U"; any other name shows its first two word starts; the avatar text has at most two characters |
| Screens.LoginFormGate | src/screens/LoginScreen.tsx:35-44 | the sign-in form calls `login` exactly when the email has the shape and the password has at least 6 characters |
| Screens.LoginAfterFormGate | src/screens/LoginScreen.tsx:41-43 | once the sign-in form lets a submission through, `login` can only answer "User not found", "Incorrect password" or the generic failure |
| Screens.SignupFormGate | src/screens/SignupScreen.tsx:36-46 | the sign-up form calls `signup` exactly when the trimmed name has at least 2 characters, the email has the shape and the password has at least 6 characters |
| Screens.SignupAfterFormGate | src/screens/SignupScreen.tsx:43-45 | once the sign-up form lets a submission through, `signup` can only be refused as "User with this email already exists" or with the generic failure |
| AuthForm.EmailRouted | src/hooks/useAuthForm.ts:64-65 | a message whose lower-cased text contains "email" is shown under the email field |
| AuthForm.PasswordRouted | src/hooks/useAuthForm.ts:66-67 | a message containing "password" but missing a letter of "email" is shown under the password field |
| AuthForm.NameRouted | src/hooks/useAuthForm.ts:68-69 | a message containing "name" but missing a letter of "email" and one of "password" is shown under the name field |
| AuthForm.Unrouted | src/hooks/useAuthForm.ts:70-73 | a message with no 'm' and no 'w' in either case is shown under no field |
| MessageRouting.InvalidEmailRoute | src/hooks/useAuthForm.ts:64-65 | "Invalid email format" is shown under the email field |
| MessageRouting.PasswordRequiredRoute | src/hooks/useAuthForm.ts:66-67 | "Password is required" is shown under the password field |
| MessageRouting.IncorrectPasswordRoute | src/hooks/useAuthForm.ts:66-67 | "Incorrect password" is shown under the password field |
| MessageRouting.PasswordTooShortRoute | src/hooks/useAuthForm.ts:66-67 | "Password must be at least 6 characters" is shown under the password field |
| MessageRouting.NameRequiredRoute | src/hooks/useAuthForm.ts:68-69 | "Name is required" is shown under the name field |
| MessageRouting.EmailTakenRoute | src/hooks/useAuthForm.ts:64-65 | "User with this email already exists" is shown under the email field |
| MessageRouting.UserNotFoundRoute | src/hooks/useAuthForm.ts:70-73 | "User not found" is shown under no field, only logged |
| MessageRouting.LoginFailedRoute | src/hooks/useAuthForm.ts:70-73 | "Login failed. Please try again." is shown under no field, only logged |
| MessageRouting.SignupFailedRoute | src/hooks/useAuthForm.ts:70-73 | "Signup failed. Please try again." is shown under no field, only logged |
| MessageRouting.LoginMessageShown | src/hooks/useAuthForm.ts:61-73 | none of the five messages `login` can give goes under the name field; the ones under no field are exactly "User not found" and the generic failure |
| MessageRouting.LoginErrorsShown | src/hooks/useAuthForm.ts:61-73 | every rejection by `login` avoids the sign-in screen's missing name field, and is left unshown exactly when it is "User not found" or the generic failure |
| MessageRouting.SignupErrorsShown | src/hooks/useAuthForm.ts:61-73 | every rejection by `signup` is shown under a field, except the generic failure, which alone goes under none |
| Strings.WordPresent | src/hooks/useAuthForm.ts:61-64 | a text whose characters at some position lower-case to a word contains that word once lower-cased |
| Strings.WordAbsent | src/hooks/useAuthForm.ts:61-64 | a text lacking some letter of a lower-case word in both cases does not contain the word once lower-cased |
| Strings.Trim | src/utils/validation.ts:32-36 | `trim` keeps nothing longer than the text, with no white space at either end of what it keeps; it is empty iff the text is white space only |
| Strings.TrimIsInfix | src/context/AuthContext.tsx:137 | what `trim` keeps is an infix of the text, and everything before and after it is white space |
| Strings.Lower | src/context/AuthContext.tsx:81 | `toLowerCase` keeps the length and lower-cases each ASCII letter in place |
| Strings.LowerIdempotent | src/context/AuthContext.tsx:138 | lower-casing an already lower-cased email changes nothing, so a stored email matches the typed one |
| Strings.Contains | src/hooks/useAuthForm.ts:64-68 | `includes` holds iff the sub-text occurs at some position |
| Strings.IndexOf | src/context/AuthContext.tsx:91 | where `split` cuts: the first position of the separator, or the length when it is absent |
| Strings.Split | src/screens/HomeScreen.tsx:37 | `split` on one character gives at least one piece, and no piece contains the separator |
| Strings.JoinSplit | src/screens/HomeScreen.tsx:37-39 | joining the pieces of a split with the same separator gives back the text |
| Strings.SplitJoin | src/screens/HomeScreen.tsx:37-39 | splitting a join of separator-free pieces gives back the pieces |

## Left out

- Asynchronous interleaving is not modelled. Each operation runs to completion as one step. The
  await points are modelled only where they show: `handleSubmit` is split at the `onSubmit` call.
  Two sign-ups racing the duplicate check, and the stale `errors` closure of `handleChange`, are
  not modelled.
- AsyncStorage is an in-memory map. `JSON.stringify`/`JSON.parse` are modelled by four of the
  shapes a stored value can take: empty, a list of records, a single record, unparsable text.
  Which storage calls reject is a parameter, not a behaviour.
- A stored value that parses to `null`, a number, a string or a boolean is not modelled. Under
  `@mock_users`, `.find` would throw on it, as on `Malformed`. Under `@auth_user`, `loadAuthState`
  would adopt it as the user.
- A stored account list whose elements are not all records (for example `[{}]` or `[1]`) is not
  modelled. `find` throws a TypeError on `u.email.toLowerCase()` when it reaches such an element
  before a match, so whether `login`/`signup` end in the generic failure depends on its position.
- `Date.now().toString()` is the `id` parameter of `Signup`; its uniqueness is not modelled.
- AuthContext.AuthProvider.LoadAuthState, AuthContext.SavedSession: a session key holding a parsed
  list of records would be adopted as the "user" by the code. The model keeps the session
  (`SavedSession` gives none) in that case, because a list is not a `User`.
- Strings.Lower: `toLowerCase`/`toUpperCase` map only the ASCII letters. Full Unicode case mapping
  is not modelled.
- Validation.ValidatePassword, Validation.ValidateName, AuthContext.SignupVerdict, HomeScreen.FirstTwo,
  HomeScreen.Head: lengths and positions count characters, not UTF-16 code units. Text with
  characters outside the Basic Multilingual Plane differs: three such characters have `.length` 6
  and pass `password.length < 6`, but the model rejects them; `charAt(0)` and `substring(0, 2)`
  would return half of a surrogate pair.
- `console.error` logging is left out; it has no effect on state.
- React rendering, JSX, styles and theme constants are presentation only. So are the components,
  `useAuthAnimation` (animation timing with floating point) and the navigators. The navigators'
  only logic picks the signed-in or signed-out stack from `user`, gated by `loading`.
- `useAuth` outside a provider throwing is not modelled; it is a React context lookup.
