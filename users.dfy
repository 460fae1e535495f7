/**
 * The user collection behind the `User` model: the two calls signup makes,
 * `User.findOne({ email })` and `User.create({...})`. The database is
 * modelled as the sequence of stored documents, in insertion order, and an
 * identifier counter standing for the generated `_id`.
 */
module Users {
  import opened Wrappers

  /** A stored user document, with the fields signup writes. */
  datatype User = User(id: nat, email: string, password: string, fullName: string, profilePic: string)

  /** The first stored user whose email equals `email` (the match is exact). */
  function FindByEmail(users: seq<User>, email: string): (r: Option<User>)
    ensures r.Some? ==> r.value in users && r.value.email == email
    ensures r.None? <==> forall u :: u in users ==> u.email != email
  {
    if users == [] then None
    else if users[0].email == email then Some(users[0])
    else FindByEmail(users[1..], email)
  }

  /** No two stored users share an email. */
  ghost predicate UniqueEmails(users: seq<User>) {
    forall i, j :: 0 <= i < j < |users| ==> users[i].email != users[j].email
  }

  /** Every stored identifier is below the counter, and no two are equal. */
  ghost predicate FreshIds(users: seq<User>, nextId: nat) {
    && (forall i :: 0 <= i < |users| ==> users[i].id < nextId)
    && (forall i, j :: 0 <= i < j < |users| ==> users[i].id != users[j].id)
  }

  /** The collection's invariant. */
  ghost predicate WellFormed(users: seq<User>, nextId: nat) {
    UniqueEmails(users) && FreshIds(users, nextId)
  }

  /**
   * Appending a user whose email is not yet taken and whose identifier is the
   * counter keeps the invariant once the counter moves past it.
   */
  lemma AppendKeepsWellFormed(users: seq<User>, nextId: nat, u: User)
    requires WellFormed(users, nextId)
    requires FindByEmail(users, u.email).None? && u.id == nextId
    ensures WellFormed(users + [u], nextId + 1)
  {
    var us := users + [u];
    forall i, j | 0 <= i < j < |us| ensures us[i].email != us[j].email {
      if j == |users| {
        assert us[i] in users;
      }
    }
  }

  class UserStore {
    var users: seq<User>
    var nextId: nat

    ghost predicate Valid()
      reads this
    {
      WellFormed(users, nextId)
    }

    constructor ()
      ensures Valid() && users == [] && nextId == 0
    {
      users := [];
      nextId := 0;
    }

    /** `User.findOne({ email })`: some user with this email, or none. */
    method FindOne(email: string) returns (r: Option<User>)
      ensures r.Some? ==> r.value in users && r.value.email == email
      ensures r.None? <==> forall u :: u in users ==> u.email != email
      ensures r == FindByEmail(users, email)
    {
      r := FindByEmail(users, email);
    }

    /**
     * `User.create({...})`: stores one new document under a fresh identifier
     * and returns it; nothing already stored changes.
     */
    method Create(email: string, password: string, fullName: string, profilePic: string)
      returns (u: User)
      modifies this
      ensures u == User(old(nextId), email, password, fullName, profilePic)
      ensures users == old(users) + [u] && nextId == old(nextId) + 1
      ensures old(Valid()) && FindByEmail(old(users), email).None? ==> Valid()
    {
      u := User(nextId, email, password, fullName, profilePic);
      if Valid() && FindByEmail(users, email).None? {
        AppendKeepsWellFormed(users, nextId, u);
      }
      users := users + [u];
      nextId := nextId + 1;
    }
  }
}
