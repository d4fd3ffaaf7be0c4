/**
 * The account directory: the rules that registration and login apply to the
 * stored user list. Emails and passwords are compared exactly, as stored.
 */
module Accounts {
  import opened Options
  import opened Passwords

  /** A registered account. `joined` is the registration time as a number. */
  datatype User = User(id: string, name: string, email: string, password: string, joined: int)

  /** Why a registration or a login was refused. */
  datatype AuthError =
    | MissingField
    | PasswordMismatch
    | TermsNotAccepted
    | WeakPassword
    | DuplicateEmail
    | InvalidCredentials

  /** `users.some(user => user.email === email)`. */
  predicate EmailTaken(users: seq<User>, email: string)
    ensures EmailTaken(users, email) <==> exists u :: u in users && u.email == email
  {
    exists i :: 0 <= i < |users| && users[i].email == email
  }

  /** No two accounts share an email. */
  ghost predicate UniqueEmails(users: seq<User>)
  {
    forall i, j :: 0 <= i < j < |users| ==> users[i].email != users[j].email
  }

  /** Some account carries `id`. */
  ghost predicate HasUserId(users: seq<User>, id: string)
  {
    exists i :: 0 <= i < |users| && users[i].id == id
  }

  predicate Matches(u: User, email: string, password: string)
  {
    u.email == email && u.password == password
  }

  /** The checks of `handleRegister`, in the order it makes them; `Pass` means the account is created. */
  function RegisterCheck(users: seq<User>, fullName: string, email: string, password: string,
                         confirmPassword: string, terms: bool): (r: Outcome<AuthError>)
    ensures r == Pass <==>
            && fullName != [] && email != [] && password != [] && confirmPassword != []
            && password == confirmPassword
            && terms
            && CheckPasswordStrength(password).level != Weak
            && !EmailTaken(users, email)
  {
    if fullName == [] || email == [] || password == [] || confirmPassword == [] then Fail(MissingField)
    else if password != confirmPassword then Fail(PasswordMismatch)
    else if !terms then Fail(TermsNotAccepted)
    else if CheckPasswordStrength(password).level == Weak then Fail(WeakPassword)
    else if EmailTaken(users, email) then Fail(DuplicateEmail)
    else Pass
  }

  /** Each refusal is reported only when every earlier check passed and its own failed. */
  lemma RegisterReportsFirstFailure(users: seq<User>, fullName: string, email: string, password: string,
                                    confirmPassword: string, terms: bool)
    ensures var r := RegisterCheck(users, fullName, email, password, confirmPassword, terms);
            var filled := fullName != [] && email != [] && password != [] && confirmPassword != [];
            && (r == Fail(MissingField) <==> !filled)
            && (r == Fail(PasswordMismatch) <==> filled && password != confirmPassword)
            && (r == Fail(TermsNotAccepted) <==> filled && password == confirmPassword && !terms)
            && (r == Fail(WeakPassword) <==>
                  filled && password == confirmPassword && terms && Score(password) <= 2)
            && (r == Fail(DuplicateEmail) <==>
                  filled && password == confirmPassword && terms && Score(password) >= 3 && EmailTaken(users, email))
            && r != Fail(InvalidCredentials)
  {
  }

  /** An accepted password scores at least 3, so it has length at least 8 or at least three kinds of character. */
  lemma AcceptedPasswordIsNotWeak(users: seq<User>, fullName: string, email: string, password: string,
                                  confirmPassword: string, terms: bool)
    requires RegisterCheck(users, fullName, email, password, confirmPassword, terms) == Pass
    ensures Score(password) >= 3
    ensures |password| >= 8 || Point(HasLower(password)) + Point(HasUpper(password))
                               + Point(HasDigit(password)) + Point(HasSymbol(password)) >= 3
  {
  }

  /** Appending the account a successful registration creates keeps emails unique. */
  lemma RegisterKeepsEmailsUnique(users: seq<User>, fullName: string, email: string, password: string,
                                  confirmPassword: string, terms: bool, id: string, now: int)
    requires UniqueEmails(users)
    requires RegisterCheck(users, fullName, email, password, confirmPassword, terms) == Pass
    ensures UniqueEmails(users + [User(id, fullName, email, password, now)])
  {
  }

  /** The duplicate check is case-sensitive: an email differing only in case is not taken. */
  lemma EmailCaseSensitive(u: User)
    requires u.email == "ana@mail.org"
    ensures !EmailTaken([u], "Ana@mail.org")
  {
  }

  /** `users.find(u => u.email === email && u.password === password)`: the first matching account. */
  function FindUser(users: seq<User>, email: string, password: string): (r: Option<User>)
    ensures r.None? <==> forall i :: 0 <= i < |users| ==> !Matches(users[i], email, password)
    ensures r.Some? ==> exists i :: 0 <= i < |users| && users[i] == r.value && Matches(users[i], email, password)
                                    && forall j :: 0 <= j < i ==> !Matches(users[j], email, password)
  {
    if users == [] then None
    else if Matches(users[0], email, password) then Some(users[0])
    else
      var r := FindUser(users[1..], email, password);
      if r.Some? then
        ghost var i :| 0 <= i < |users| - 1 && users[1..][i] == r.value && Matches(users[1..][i], email, password)
                       && forall j :: 0 <= j < i ==> !Matches(users[1..][j], email, password);
        assert users[i + 1] == r.value;
        assert forall j :: 0 <= j < i + 1 ==> !Matches(users[j], email, password) by {
          forall j | 0 <= j < i + 1
            ensures !Matches(users[j], email, password)
          {
            if j > 0 {
              assert users[j] == users[1..][j - 1];
            }
          }
        }
        r
      else
        assert forall i :: 0 <= i < |users| ==> !Matches(users[i], email, password) by {
          forall i | 0 <= i < |users|
            ensures !Matches(users[i], email, password)
          {
            if i > 0 {
              assert users[i] == users[1..][i - 1];
            }
          }
        }
        r
  }

  /** The login check of `handleLogin`: both fields filled, then the first account matching both exactly. */
  function Authenticate(users: seq<User>, email: string, password: string): (r: Result<User, AuthError>)
    ensures email == [] || password == [] ==> r == Failure(MissingField)
    ensures email != [] && password != [] ==>
              (r.Success? <==> exists i :: 0 <= i < |users| && Matches(users[i], email, password))
    ensures r.Success? ==> r.value in users && Matches(r.value, email, password)
    ensures r.Failure? ==> r.error == MissingField || r.error == InvalidCredentials
    ensures r.Success? ==> FindUser(users, email, password) == Some(r.value)
    ensures email != [] && password != [] && r.Failure? ==> r.error == InvalidCredentials
  {
    if email == [] || password == [] then Failure(MissingField)
    else
      match FindUser(users, email, password)
      case Some(u) => Success(u)
      case None => Failure(InvalidCredentials)
  }

  /** With unique emails, the right password logs in the account with that email and a wrong one is refused. */
  lemma AuthenticateByEmail(users: seq<User>, i: nat, password: string)
    requires UniqueEmails(users)
    requires i < |users| && users[i].email != [] && password != []
    ensures password == users[i].password ==> Authenticate(users, users[i].email, password) == Success(users[i])
    ensures password != users[i].password ==> Authenticate(users, users[i].email, password) == Failure(InvalidCredentials)
  {
  }
}
