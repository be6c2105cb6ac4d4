/** Users, the user collection and the per-client session. The User schema
    itself (hashing, `checkPassword`) is not part of this model. */
module Accounts {
  import opened Outcomes
  import opened ObjectIds

  datatype User = User(id: ObjectId, name: string, email: string, password: string)

  /** `req.session`: the user who logged in on this client, if any. */
  class Session {
    var user: Option<User>

    constructor ()
      ensures user == None
    {
      user := None;
    }
  }

  predicate EmailTaken(users: seq<User>, email: string) {
    exists i | 0 <= i < |users| :: users[i].email == email
  }

  predicate IdTaken(users: seq<User>, id: ObjectId) {
    exists i | 0 <= i < |users| :: users[i].id == id
  }

  /** The users collection, in insertion order. */
  class UserRegistry {
    var users: seq<User>

    /** Ids and e-mails are unique: registration refuses a known e-mail and
        the store refuses a known `_id`. */
    ghost predicate Valid()
      reads this
    {
      forall i, j | 0 <= i < j < |users| ::
        users[i].email != users[j].email && users[i].id != users[j].id
    }

    constructor ()
      ensures Valid() && users == []
    {
      users := [];
    }
  }
}
