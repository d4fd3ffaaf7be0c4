/**
 * The application state the script keeps in globals and local storage: the
 * account list, the signed-in account, the last calculation and the shared
 * footprint log. Storage reads are in memory; the clock and the id generator
 * are parameters of the operations that use them.
 */
module App {
  import opened Options
  import opened Footprint
  import opened History
  import opened Accounts

  /** Why a save was refused. */
  datatype SaveError = NotLoggedIn | NoCalculation

  /** The log entry `saveFootprint` writes for `user`'s `calculation` on day `today`. */
  function NewEntry(user: User, calculation: Calculation, today: int): (e: Entry)
    ensures e.userId == user.id && e.userName == user.name
    ensures e.emissions == calculation.total && e.date == today && e.details == calculation.details
  {
    Entry(user.id, user.name, calculation.total, today, calculation.details)
  }

  class AppState {
    var users: seq<User>
    var currentUser: Option<User>
    var currentCalculation: Option<Calculation>
    var history: seq<Entry>

    /**
     * Emails are unique, the signed-in account is a registered one, and every
     * logged footprint belongs to a registered account.
     */
    ghost predicate Valid()
      reads this
    {
      && UniqueEmails(users)
      && (currentUser.Some? ==> currentUser.value in users)
      && (forall i :: 0 <= i < |history| ==> HasUserId(users, history[i].userId))
    }

    /** A first visit: nothing stored yet, nobody signed in. */
    constructor ()
      ensures Valid()
      ensures users == [] && currentUser == None && currentCalculation == None && history == []
    {
      users := [];
      currentUser := None;
      currentCalculation := None;
      history := [];
    }

    /** `calculateFootprint`: computes the footprint and keeps it as the current calculation. */
    method Calculate(electricity: real, car: real, publicTransport: real, diet: string, period: string)
      requires Valid()
      modifies this`currentCalculation
      ensures Valid()
      ensures currentCalculation == Some(CalculateFootprint(electricity, car, publicTransport, diet, period))
    {
      currentCalculation := Some(CalculateFootprint(electricity, car, publicTransport, diet, period));
    }

    /** `saveFootprint`: appends the current calculation to the log under the signed-in account. */
    method SaveFootprint(today: int) returns (r: Outcome<SaveError>)
      requires Valid()
      modifies this`history
      ensures Valid()
      ensures currentUser.None? ==> r == Fail(NotLoggedIn) && history == old(history)
      ensures currentUser.Some? && currentCalculation.None? ==> r == Fail(NoCalculation) && history == old(history)
      ensures currentUser.Some? && currentCalculation.Some? ==>
                && r == Pass
                && history == old(history) + [NewEntry(currentUser.value, currentCalculation.value, today)]
                && history[|history| - 1].userId == currentUser.value.id
                && history[|history| - 1].emissions == currentCalculation.value.total
    {
      if currentUser.None? {
        return Fail(NotLoggedIn);
      }
      if currentCalculation.None? {
        return Fail(NoCalculation);
      }
      var user := currentUser.value;
      assert HasUserId(users, user.id) by {
        var k :| 0 <= k < |users| && users[k] == user;
      }
      history := history + [NewEntry(user, currentCalculation.value, today)];
      r := Pass;
    }

    /**
     * `handleRegister`: on success the new account (with the generated `id`
     * and the time `now`) is appended and signed in; otherwise nothing changes.
     */
    method Register(fullName: string, email: string, password: string, confirmPassword: string,
                    terms: bool, id: string, now: int) returns (r: Outcome<AuthError>)
      requires Valid()
      modifies this`users, this`currentUser
      ensures Valid()
      ensures r == RegisterCheck(old(users), fullName, email, password, confirmPassword, terms)
      ensures r.Pass? ==> users == old(users) + [User(id, fullName, email, password, now)]
                          && currentUser == Some(User(id, fullName, email, password, now))
      ensures r.Fail? ==> users == old(users) && currentUser == old(currentUser)
    {
      r := RegisterCheck(users, fullName, email, password, confirmPassword, terms);
      if r.Pass? {
        var newUser := User(id, fullName, email, password, now);
        RegisterKeepsEmailsUnique(users, fullName, email, password, confirmPassword, terms, id, now);
        var users' := users + [newUser];
        forall i | 0 <= i < |history|
          ensures HasUserId(users', history[i].userId)
        {
          assert HasUserId(users, history[i].userId);
          var k :| 0 <= k < |users| && users[k].id == history[i].userId;
          assert users'[k] == users[k];
        }
        users := users';
        currentUser := Some(newUser);
      }
    }

    /** `handleLogin`: signs in the first account matching both fields; otherwise the session is kept. */
    method Login(email: string, password: string) returns (r: Result<User, AuthError>)
      requires Valid()
      modifies this`currentUser
      ensures Valid()
      ensures r == Authenticate(users, email, password)
      ensures r.Success? ==> currentUser == Some(r.value)
      ensures r.Failure? ==> currentUser == old(currentUser)
    {
      r := Authenticate(users, email, password);
      if r.Success? {
        currentUser := Some(r.value);
      }
    }

    /** `handleLogout`: clears the session and nothing else. */
    method Logout()
      requires Valid()
      modifies this`currentUser
      ensures Valid()
      ensures currentUser == None
    {
      currentUser := None;
    }
  }
}
