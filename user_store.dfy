/**
 * The credential store the routes reach through the database session: the `User`
 * table (`id`, `name`, `email`, `hashed_password`) keyed by email, and the
 * autoincrement counter that hands out ids.
 */
module UserStore {
  import opened Wrappers
  import opened PasswordHasher

  /** A row of the `User` table. */
  datatype User = User(id: nat, name: string, email: string, hashedPassword: Digest)

  /** The contents of the table and the next id its sequence will hand out. */
  datatype Table = Table(users: map<string, User>, nextId: nat)

  /** The table as a freshly created database holds it. */
  const EmptyTable := Table(map[], 1)

  /**
   * Each row is filed under its own email, and ids are positive, below the next one
   * to be handed out, and distinct.
   */
  ghost predicate WellFormed(t: Table) {
    && 1 <= t.nextId
    && (forall e :: e in t.users ==> t.users[e].email == e && 1 <= t.users[e].id < t.nextId)
    && (forall e1, e2 :: e1 in t.users && e2 in t.users && e1 != e2 ==> t.users[e1].id != t.users[e2].id)
  }

  /** The session's view of the `User` table. */
  class CredentialStore {
    var users: map<string, User>
    var nextId: nat

    ghost predicate Valid()
      reads this
    {
      WellFormed(Snapshot())
    }

    function Snapshot(): Table
      reads this
    {
      Table(users, nextId)
    }

    constructor ()
      ensures Valid() && Snapshot() == EmptyTable
    {
      users := map[];
      nextId := 1;
    }

    /**
     * The session's query for the first user row with this email: a row is found
     * exactly when one is stored under the email, and in a well-formed store the row
     * found carries the email searched for.
     */
    function FindByEmail(email: string): (found: Option<User>)
      reads this
      ensures found.Some? <==> email in users
      ensures found.Some? ==> found.value == users[email]
      ensures Valid() && found.Some? ==> found.value.email == email
    {
      if email in users then Some(users[email]) else None
    }

    /**
     * Adding, committing and reloading a new row: the row gets the
     * next id and is returned with it. The email must not be in use: the caller checks.
     */
    method Add(name: string, email: string, hashedPassword: Digest) returns (user: User)
      requires Valid() && email !in users
      modifies this
      ensures Valid()
      ensures user == User(old(nextId), name, email, hashedPassword)
      ensures users == old(users)[email := user] && nextId == old(nextId) + 1
    {
      user := User(nextId, name, email, hashedPassword);
      users := users[email := user];
      nextId := nextId + 1;
    }
  }
}
