/** Registration, login and logout. */
module UserController {
  import opened Outcomes
  import opened ObjectIds
  import opened Accounts
  import opened AuthMiddleware

  /** `User.findOne({ email })`: the first user, in insertion order, with that
      e-mail. */
  function FindByEmail(users: seq<User>, email: string): (r: Option<User>)
    ensures r.Some? <==> EmailTaken(users, email)
    ensures r.Some? ==> r.value in users && r.value.email == email
  {
    if users == [] then None
    else if users[0].email == email then Some(users[0])
    else
      var rest := FindByEmail(users[1..], email);
      assert forall i | 0 <= i < |users| - 1 :: users[1..][i] == users[i + 1];
      rest
  }

  /** `register`: refuses an e-mail that is already registered; otherwise
      saves one new user with the given name, e-mail and password. A save
      that fails (an `_id` already in use) ends in the catch block. */
  method Register(registry: UserRegistry, name: string, email: string, password: string,
                  newId: ObjectId) returns (r: Outcome<User>)
    requires registry.Valid()
    modifies registry
    ensures registry.Valid()
    ensures EmailTaken(old(registry.users), email) ==> r == Fail(Conflict)
    ensures r.Ok? <==> !EmailTaken(old(registry.users), email) && !IdTaken(old(registry.users), newId)
    ensures r.Ok? ==>
      && r.value == User(newId, name, email, password)
      && registry.users == old(registry.users) + [r.value]
      && FindByEmail(registry.users, email) == Some(r.value)
    ensures r.Fail? ==> registry.users == old(registry.users)
  {
    var userExists := FindByEmail(registry.users, email);
    if userExists.Some? {
      return Fail(Conflict);
    }
    if IdTaken(registry.users, newId) {
      return Fail(Error);
    }
    var user := User(newId, name, email, password);
    registry.users := registry.users + [user];
    r := Ok(user);
    FoundAtEnd(old(registry.users), user);
  }

  /** A user appended to a list where nobody has that e-mail is the one found. */
  lemma {:induction false} FoundAtEnd(users: seq<User>, user: User)
    requires !EmailTaken(users, user.email)
    ensures FindByEmail(users + [user], user.email) == Some(user)
  {
    if users != [] {
      assert (users + [user])[1..] == users[1..] + [user];
      assert !EmailTaken(users[1..], user.email) by {
        forall i | 0 <= i < |users| - 1 ensures users[1..][i].email != user.email {
          assert users[1..][i] == users[i + 1];
        }
      }
      FoundAtEnd(users[1..], user);
    }
  }

  /** `login`: the session gets the user with that e-mail when the password
      check passes; an unknown e-mail or a failed check leaves the session as
      it was. The password check lives in the User model and is a parameter. */
  method Login(registry: UserRegistry, session: Session, email: string, password: string,
               checkPassword: (User, string) -> bool) returns (r: Outcome<User>)
    modifies session
    ensures var found := FindByEmail(registry.users, email);
      r.Ok? <==> found.Some? && checkPassword(found.value, password)
    ensures r.Ok? ==>
      && Some(r.value) == FindByEmail(registry.users, email)
      && session.user == Some(r.value)
      && r.value in registry.users && r.value.email == email
      && IsLoggedIn(session.user) == Allow
    ensures r.Fail? ==> r.failure == Unauthenticated && session.user == old(session.user)
  {
    var user := FindByEmail(registry.users, email);
    if user.None? || !checkPassword(user.value, password) {
      return Fail(Unauthenticated);
    }
    session.user := user;
    r := Ok(user.value);
  }

  /** `logout`: the session is destroyed, so `isLoggedIn` refuses the next
      request. */
  method Logout(session: Session)
    modifies session
    ensures session.user == None
    ensures IsLoggedIn(session.user) == Deny(Unauthenticated)
  {
    session.user := None;
  }
}
