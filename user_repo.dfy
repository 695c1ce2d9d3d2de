/** The in-memory user store (repositories/user.go): a slice of users keyed
    by username, appended to by Create and overwritten in place by Update. */
module UserRepo {
  import opened Common
  import opened Entities

  /** Usernames in the store are pairwise different. */
  ghost predicate UniqueUsernames(data: seq<User>) {
    forall i, j :: 0 <= i < j < |data| ==> data[i].username != data[j].username
  }

  /** The store after Update(u): the first user with u's username becomes u;
      with no such user the store is unchanged. */
  function ReplaceFirst(data: seq<User>, u: User): (r: seq<User>)
    ensures |r| == |data|
  {
    match FirstIndex(data, UserName, u.username)
    case None => data
    case Some(k) => data[k := u]
  }

  class UserRepository {
    var data: seq<User>

    constructor (data: seq<User>)
      ensures this.data == data
    {
      this.data := data;
    }

    /** Appends `u` unless its username is already taken. */
    method Create(u: User) returns (err: Option<Error>)
      modifies this
      ensures err.Some? <==> FirstIndex(old(data), UserName, u.username).Some?
      ensures err.Some? ==> err.value == DuplicateUsername && data == old(data)
      ensures err.None? ==> data == old(data) + [u]
      ensures UniqueUsernames(old(data)) ==> UniqueUsernames(data)
    {
      var i := 0;
      while i < |data|
        invariant 0 <= i <= |data|
        invariant forall j :: 0 <= j < i ==> data[j].username != u.username
      {
        if data[i].username == u.username {
          FirstIndexAt(data, UserName, u.username, i);
          return Some(DuplicateUsername);
        }
        i := i + 1;
      }
      data := data + [u];
      return None;
    }

    /** The first stored user with the given username, or EMPTY_DATA. */
    method GetByUsername(username: string) returns (r: Result<User>)
      ensures FirstIndex(data, UserName, username).Some? ==> r == Success(data[FirstIndex(data, UserName, username).value])
      ensures FirstIndex(data, UserName, username).None? ==> r == Failure(EmptyData)
    {
      var i := 0;
      while i < |data|
        invariant 0 <= i <= |data|
        invariant forall j :: 0 <= j < i ==> data[j].username != username
      {
        if data[i].username == username {
          FirstIndexAt(data, UserName, username, i);
          return Success(data[i]);
        }
        i := i + 1;
      }
      return Failure(EmptyData);
    }

    /** Overwrites the first user with u's username, or reports
        "user not found" and changes nothing. */
    method Update(u: User) returns (err: Option<Error>)
      modifies this
      ensures data == ReplaceFirst(old(data), u)
      ensures err.None? <==> FirstIndex(old(data), UserName, u.username).Some?
      ensures err.Some? ==> err.value == UserNotFound
    {
      var i := 0;
      while i < |data|
        invariant 0 <= i <= |data|
        invariant forall j :: 0 <= j < i ==> data[j].username != u.username
      {
        if data[i].username == u.username {
          FirstIndexAt(data, UserName, u.username, i);
          data := data[i := u];
          return None;
        }
        i := i + 1;
      }
      return Some(UserNotFound);
    }
  }

  /** A successful Create keeps usernames unique. */
  lemma CreateKeepsUsernamesUnique(data: seq<User>, u: User)
    requires UniqueUsernames(data)
    requires FirstIndex(data, UserName, u.username).None?
    ensures UniqueUsernames(data + [u])
  {
  }

  /** Update leaves every other entry and the length alone, keeps usernames
      unique, and afterwards GetByUsername(u.username) yields u. */
  lemma {:induction false} ReadAfterUpdate(data: seq<User>, u: User)
    requires FirstIndex(data, UserName, u.username).Some?
    ensures var k := FirstIndex(data, UserName, u.username).value;
      var r := ReplaceFirst(data, u);
      && r == data[k := u]
      && FirstIndex(r, UserName, u.username) == Some(k)
      && r[k] == u
      && (forall i :: 0 <= i < |data| && i != k ==> r[i] == data[i])
      && (UniqueUsernames(data) ==> UniqueUsernames(r))
  {
    var k := FirstIndex(data, UserName, u.username).value;
    var r := ReplaceFirst(data, u);
    assert r == data[k := u];
    FirstIndexAt(r, UserName, u.username, k);
  }

  /** Overwriting the entry found for a username with a user of the same
      username leaves that entry the one found. */
  lemma FindAfterReplace(data: seq<User>, k: nat, u: User)
    requires k < |data| && FirstIndex(data, UserName, data[k].username) == Some(k)
    requires u.username == data[k].username
    ensures FirstIndex(data[k := u], UserName, u.username) == Some(k)
  {
    FirstIndexAt(data[k := u], UserName, u.username, k);
  }

  /** Applying the same Update twice leaves the store as applying it once. */
  lemma {:induction false} UpdateIdempotent(data: seq<User>, u: User)
    ensures ReplaceFirst(ReplaceFirst(data, u), u) == ReplaceFirst(data, u)
  {
    if FirstIndex(data, UserName, u.username).Some? {
      ReadAfterUpdate(data, u);
    }
  }
}
