/** The user table: lookups by primary key and by email, the unique keys the
    database enforces, and the fields an insert or an update would collide on. */
module Accounts {
  import opened Wrappers
  import opened Schema

  /** `User.findByPk(user_id)`. */
  function UserById(users: seq<User>, uid: nat): (r: Option<nat>)
    ensures r.Some? ==> r.value < |users| && users[r.value].userId == uid
    ensures r.None? <==> forall i :: 0 <= i < |users| ==> users[i].userId != uid
  {
    FindLast(users, (u: User) => u.userId == uid)
  }

  /** `User.findOne({ where: { email } })`. */
  function UserByEmail(users: seq<User>, email: string): (r: Option<nat>)
    ensures r.Some? ==> r.value < |users| && users[r.value].email == email
    ensures r.None? <==> forall i :: 0 <= i < |users| ==> users[i].email != email
  {
    FindLast(users, (u: User) => u.email == email)
  }

  /** The unique constraints of the user table: `user_id`, the login `id`,
      the nickname `name` and `email` each identify at most one row. */
  predicate UniqueKeys(users: seq<User>)
  {
    forall i, j :: 0 <= i < j < |users| ==>
      && users[i].userId != users[j].userId
      && users[i].login != users[j].login
      && users[i].name != users[j].name
      && users[i].email != users[j].email
  }

  /** A user other than `me` holds `email` (`user_id: { [Op.ne]: me }`). */
  predicate EmailTakenByOther(users: seq<User>, email: string, me: nat)
  {
    exists i :: 0 <= i < |users| && users[i].email == email && users[i].userId != me
  }

  /** A user other than `me` holds the nickname `name`. */
  predicate NameTakenByOther(users: seq<User>, name: string, me: nat)
  {
    exists i :: 0 <= i < |users| && users[i].name == name && users[i].userId != me
  }

  /** The columns (named as the database reports them) on which inserting a
      new account would violate a unique constraint. */
  function RegisterClashes(users: seq<User>, login: string, name: string, email: string): (fs: set<string>)
    ensures fs <= {"email", "id", "name"}
    ensures "email" in fs <==> exists i :: 0 <= i < |users| && users[i].email == email
    ensures "id" in fs <==> exists i :: 0 <= i < |users| && users[i].login == login
    ensures "name" in fs <==> exists i :: 0 <= i < |users| && users[i].name == name
  {
    (if exists i :: 0 <= i < |users| && users[i].email == email then {"email"} else {})
    + (if exists i :: 0 <= i < |users| && users[i].login == login then {"id"} else {})
    + (if exists i :: 0 <= i < |users| && users[i].name == name then {"name"} else {})
  }

  /** The columns on which saving user `me` with a new nickname and email
      would violate a unique constraint; the login id is never changed here. */
  function SaveClashes(users: seq<User>, me: nat, name: string, email: string): (fs: set<string>)
    ensures fs <= {"email", "name"}
    ensures "email" in fs <==> EmailTakenByOther(users, email, me)
    ensures "name" in fs <==> NameTakenByOther(users, name, me)
  {
    (if EmailTakenByOther(users, email, me) then {"email"} else {})
    + (if NameTakenByOther(users, name, me) then {"name"} else {})
  }

  /** Under the unique keys, the primary-key lookup finds the one row with that key. */
  lemma UserByIdFindsTheRow(users: seq<User>, k: nat)
    requires UniqueKeys(users) && k < |users|
    ensures UserById(users, users[k].userId) == Some(k)
  {
  }

  /** Under the unique keys, the email lookup finds the one row with that email. */
  lemma UserByEmailFindsTheRow(users: seq<User>, k: nat)
    requires UniqueKeys(users) && k < |users|
    ensures UserByEmail(users, users[k].email) == Some(k)
  {
  }

  /** Inserting an account that collides on no column, under a fresh
      `user_id`, keeps every key unique. */
  lemma RegisterKeepsKeysUnique(users: seq<User>, u: User)
    requires UniqueKeys(users)
    requires RegisterClashes(users, u.login, u.name, u.email) == {}
    requires forall i :: 0 <= i < |users| ==> users[i].userId < u.userId
    ensures UniqueKeys(users + [u])
  {
  }

  /** Giving row `k` a nickname and email on which no other user collides
      keeps every key unique. */
  lemma SaveKeepsKeysUnique(users: seq<User>, k: nat, name: string, email: string)
    requires UniqueKeys(users) && k < |users|
    requires SaveClashes(users, users[k].userId, name, email) == {}
    ensures UniqueKeys(users[k := users[k].(name := name, email := email)])
  {
  }

  /** Replacing the credential of row `k` keeps every key unique. */
  lemma CredentialChangeKeepsKeysUnique(users: seq<User>, k: nat, c: Credential)
    requires UniqueKeys(users) && k < |users|
    ensures UniqueKeys(users[k := users[k].(credential := c)])
  {
  }
}
