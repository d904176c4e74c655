/**
 * The in-memory user store (repository/UserRepository.kt). The store holds
 * one list of users, which every write replaces with a new list: insert
 * appends a copy of the user under a fresh id, update replaces the entries
 * that share the user's id, delete drops them. Lookups return the first
 * matching entry.
 */
module Repository {
  import opened Options
  import opened Users
  import opened Text
  import opened Selection

  /** What a lookup compares: the id, or the exact (case-sensitive) email. */
  datatype Key = IdKey(id: int) | EmailKey(email: string)

  predicate HasKey(u: User, k: Key) {
    match k
    case IdKey(id) => u.id == id
    case EmailKey(e) => u.email == e
  }

  /** The position of the first entry with key `k`. */
  function FirstIndex(users: seq<User>, k: Key): (r: Option<nat>)
    ensures r.None? <==> forall i :: 0 <= i < |users| ==> !HasKey(users[i], k)
    ensures r.Some? ==> r.value < |users| && HasKey(users[r.value], k)
    ensures r.Some? ==> forall j :: 0 <= j < r.value ==> !HasKey(users[j], k)
  {
    if users == [] then None
    else if HasKey(users[0], k) then Some(0)
    else match FirstIndex(users[1..], k)
      case None => None
      case Some(i) => Some(i + 1)
  }

  /** `List.find`: the first entry with key `k`, or null when there is none. */
  function Find(users: seq<User>, k: Key): (r: Option<User>)
    ensures r.None? <==> forall i :: 0 <= i < |users| ==> !HasKey(users[i], k)
    ensures r.Some? ==> exists i :: 0 <= i < |users| && users[i] == r.value && HasKey(r.value, k)
                                    && forall j :: 0 <= j < i ==> !HasKey(users[j], k)
  {
    match FirstIndex(users, k)
    case None => None
    case Some(i) => Some(users[i])
  }

  /** `maxOfOrNull { it.id }`: the largest id, or null for an empty store. */
  function MaxId(users: seq<User>): (m: Option<Long>)
    ensures m.None? <==> users == []
    ensures m.Some? ==> forall i :: 0 <= i < |users| ==> users[i].id <= m.value
    ensures m.Some? ==> exists i :: 0 <= i < |users| && users[i].id == m.value
  {
    if users == [] then None
    else
      var init := users[..|users| - 1];
      var last := users[|users| - 1].id;
      match MaxId(init)
      case None => Some(last)
      case Some(v) =>
        if v < last then Some(last)
        else
          assert exists i :: 0 <= i < |init| && init[i].id == v;
          Some(v)
  }

  /**
   * The id `insertUser` assigns: one more than the largest id, or 1 for an
   * empty store, in `Long` arithmetic (so it wraps at `Long.MAX_VALUE`).
   */
  function NextId(users: seq<User>): (n: Long)
    ensures users == [] ==> n == 1
    ensures MaxId(users).Some? && MaxId(users).value < LONG_MAX ==> n == MaxId(users).value + 1
    ensures MaxId(users) == Some(LONG_MAX) ==> n == LONG_MIN
  {
    var m: Long := match MaxId(users) case None => 0 case Some(v) => v;
    AddLong(m, 1)
  }

  /** Unless the largest id is `Long.MAX_VALUE`, the new id is larger than every stored id. */
  lemma NextIdFresh(users: seq<User>)
    requires MaxId(users).None? || MaxId(users).value < LONG_MAX
    ensures forall i :: 0 <= i < |users| ==> users[i].id < NextId(users)
  {
  }

  /** Unless the ids wrapped, the id just assigned is the new largest id. */
  lemma MaxIdAfterInsert(users: seq<User>, user: User)
    requires MaxId(users).None? || MaxId(users).value < LONG_MAX
    ensures MaxId(Inserted(users, user)) == Some(NextId(users))
  {
    var r := Inserted(users, user);
    assert r[..|r| - 1] == users;
  }

  /** Unless the ids are about to wrap, the id after an insert is one more than the id it assigned. */
  lemma NextIdAfterInsert(users: seq<User>, user: User)
    requires MaxId(users).None? || MaxId(users).value < LONG_MAX - 1
    ensures NextId(Inserted(users, user)) == NextId(users) + 1
  {
    MaxIdAfterInsert(users, user);
  }

  /** Two inserts append two copies of the user, under the two ids the inserts assign. */
  lemma InsertTwiceIds(users: seq<User>, user: User, first: Long, second: Long)
    requires NextId(users) == first && NextId(Inserted(users, user)) == second
    ensures Inserted(Inserted(users, user), user) == users + [user.(id := first), user.(id := second)]
  {
    var once := users + [user.(id := first)];
    assert Inserted(users, user) == once;
    assert once + [user.(id := second)] == users + [user.(id := first), user.(id := second)];
  }

  /**
   * Inserting the same user twice appends two copies under consecutive ids,
   * unless the ids are about to wrap.
   */
  lemma InsertTwice(users: seq<User>, user: User)
    requires MaxId(users).None? || MaxId(users).value < LONG_MAX - 1
    ensures var n := NextId(users);
      Inserted(Inserted(users, user), user) == users + [user.(id := n), user.(id := n + 1)]
  {
    var n := NextId(users);
    NextIdAfterInsert(users, user);
    InsertTwiceIds(users, user, n, n + 1);
  }

  /** At `Long.MAX_VALUE` the increment wraps to `Long.MIN_VALUE`. */
  lemma NextIdWraps(u: User)
    requires u.id == LONG_MAX
    ensures NextId([u]) == LONG_MIN
  {
  }

  /** The list after `insertUser(user)`. */
  function Inserted(users: seq<User>, user: User): (r: seq<User>)
    ensures |r| == |users| + 1 && r[..|users|] == users
    ensures r[|users|] == user.(id := NextId(users))
  {
    users + [user.(id := NextId(users))]
  }

  /** The list after `updateUser(user)`: every entry with the user's id replaced by it. */
  function Updated(users: seq<User>, user: User): (r: seq<User>)
    ensures |r| == |users|
    ensures forall i :: 0 <= i < |users| && users[i].id == user.id ==> r[i] == user
    ensures forall i :: 0 <= i < |users| && users[i].id != user.id ==> r[i] == users[i]
  {
    seq(|users|, i requires 0 <= i < |users| => if users[i].id == user.id then user else users[i])
  }

  /** The list after `deleteUser(user)`: the entries with a different id, in order. */
  function Deleted(users: seq<User>, user: User): (r: seq<User>)
    ensures |r| <= |users|
  {
    Select(users, IdIsNot(user.id))
  }

  /** `searchUsers(query)` on a given list: all of it for a blank query, else the hits in order. */
  function Search(users: seq<User>, query: string): (r: seq<User>)
    ensures IsBlank(query) ==> r == users
    ensures !IsBlank(query) ==> r == Select(users, SearchHit(query))
  {
    if IsBlank(query) then users else Select(users, SearchHit(query))
  }

  class UserRepository {
    /** `_users.value`: the current contents of the store. */
    var users: seq<User>

    /** A new store is empty. */
    constructor()
      ensures users == []
    {
      users := [];
    }

    /** `getUserById(id)`: the first entry with that id, or null. */
    function GetUserById(id: Long): (r: Option<User>)
      reads this
      ensures r.None? <==> forall i :: 0 <= i < |users| ==> users[i].id != id
      ensures r.Some? ==> exists i :: 0 <= i < |users| && users[i] == r.value && r.value.id == id
                                      && forall j :: 0 <= j < i ==> users[j].id != id
    {
      Find(users, IdKey(id))
    }

    /** `getUserByEmail(email)`: the first entry whose email is exactly `email`, or null. */
    function GetUserByEmail(email: string): (r: Option<User>)
      reads this
      ensures r.None? <==> forall i :: 0 <= i < |users| ==> users[i].email != email
      ensures r.Some? ==> exists i :: 0 <= i < |users| && users[i] == r.value && r.value.email == email
                                      && forall j :: 0 <= j < i ==> users[j].email != email
    {
      Find(users, EmailKey(email))
    }

    /** `insertUser(user)`: appends a copy under the next id and returns that id. */
    method InsertUser(user: User) returns (newId: Long)
      modifies this
      ensures newId == NextId(old(users))
      ensures users == Inserted(old(users), user)
    {
      newId := NextId(users);
      users := users + [user.(id := newId)];
    }

    /** `updateUser(user)`: replaces every entry that has the user's id. */
    method UpdateUser(user: User)
      modifies this
      ensures users == Updated(old(users), user)
    {
      users := Updated(users, user);
    }

    /** `deleteUser(user)`: drops every entry that has the user's id. */
    method DeleteUser(user: User)
      modifies this
      ensures users == Deleted(old(users), user)
    {
      users := Deleted(users, user);
    }

    /** `searchUsers(query)` on the current contents. */
    function SearchUsers(query: string): (r: seq<User>)
      reads this
      ensures forall u :: u in r <==> u in users && (IsBlank(query) || Matches(u, SearchHit(query)))
      ensures forall u :: multiset(r)[u] == if IsBlank(query) || Matches(u, SearchHit(query)) then multiset(users)[u] else 0
      ensures IsSubsequence(r, users)
    {
      SearchMembership(users, query);
      SelectAllMatching(users, Everyone);
      SelectIsSubsequence(users, Everyone);
      SelectIsSubsequence(users, SearchHit(query));
      Search(users, query)
    }

    /** `setUsers(list)`: the contents become exactly `list`. */
    method SetUsers(list: seq<User>)
      modifies this
      ensures users == list
    {
      users := list;
    }

    /** `clearUsers()`: the store becomes empty. */
    method ClearUsers()
      modifies this
      ensures users == []
    {
      users := [];
    }
  }

  /** Looking up a key after appending one entry, when no earlier entry has the key. */
  lemma FindAfterAppend(users: seq<User>, x: User, k: Key)
    requires forall i :: 0 <= i < |users| ==> !HasKey(users[i], k)
    ensures Find(users + [x], k) == if HasKey(x, k) then Some(x) else None
  {
    var s := users + [x];
    if HasKey(x, k) {
      assert Find(s, k).Some? by { assert HasKey(s[|users|], k); }
      var i :| 0 <= i < |s| && s[i] == Find(s, k).value && HasKey(s[i], k)
                && forall j :: 0 <= j < i ==> !HasKey(s[j], k);
      assert i == |users|;
    }
  }

  /**
   * After `insertUser(user)` returns `n`, `getUserById(n)` yields the user
   * under id `n`, unless the id arithmetic wrapped.
   */
  lemma InsertThenGet(users: seq<User>, user: User)
    requires MaxId(users).None? || MaxId(users).value < LONG_MAX
    ensures Find(Inserted(users, user), IdKey(NextId(users))) == Some(user.(id := NextId(users)))
  {
    NextIdFresh(users);
    FindAfterAppend(users, user.(id := NextId(users)), IdKey(NextId(users)));
  }

  /** `insertUser` does not look at emails: a second user with a stored email is appended all the same. */
  lemma InsertAllowsDuplicateEmail(users: seq<User>, user: User)
    requires exists i :: 0 <= i < |users| && users[i].email == user.email
    ensures !EmailsUnique(Inserted(users, user))
  {
    var i :| 0 <= i < |users| && users[i].email == user.email;
    var r := Inserted(users, user);
    assert r[i].email == r[|users|].email;
  }

  /** An update whose id is not stored leaves the list unchanged. */
  lemma UpdateAbsentIdUnchanged(users: seq<User>, user: User)
    requires forall i :: 0 <= i < |users| ==> users[i].id != user.id
    ensures Updated(users, user) == users
  {
  }

  /** After an update, looking up the id yields the new user exactly when the id was stored. */
  lemma UpdateThenGet(users: seq<User>, user: User)
    ensures Find(Updated(users, user), IdKey(user.id)) ==
      if exists i :: 0 <= i < |users| && users[i].id == user.id then Some(user) else None
  {
    var r := Updated(users, user);
    if exists i :: 0 <= i < |users| && users[i].id == user.id {
      var i :| 0 <= i < |users| && users[i].id == user.id;
      assert HasKey(r[i], IdKey(user.id));
    }
  }

  /** Updating twice with the same user is the same as updating once. */
  lemma UpdateIdempotent(users: seq<User>, user: User)
    ensures Updated(Updated(users, user), user) == Updated(users, user)
  {
  }

  /**
   * Delete keeps exactly the entries with a different id, each as often as
   * it was stored, in their order.
   */
  lemma DeleteMembership(users: seq<User>, user: User, u: User)
    ensures u in Deleted(users, user) <==> u in users && u.id != user.id
    ensures multiset(Deleted(users, user))[u] == if u.id != user.id then multiset(users)[u] else 0
    ensures IsSubsequence(Deleted(users, user), users)
  {
    SelectMembership(users, IdIsNot(user.id), u);
    SelectCounts(users, IdIsNot(user.id), u);
    SelectIsSubsequence(users, IdIsNot(user.id));
  }

  /** After a delete, looking up the deleted id yields nothing. */
  lemma DeleteThenGet(users: seq<User>, user: User)
    ensures Find(Deleted(users, user), IdKey(user.id)) == None
  {
    var r := Deleted(users, user);
    forall i | 0 <= i < |r|
      ensures r[i].id != user.id
    {
      SelectMembership(users, IdIsNot(user.id), r[i]);
    }
  }

  /** Deleting twice is the same as deleting once. */
  lemma DeleteIdempotent(users: seq<User>, user: User)
    ensures Deleted(Deleted(users, user), user) == Deleted(users, user)
  {
    SelectIdempotent(users, IdIsNot(user.id));
  }

  /**
   * A user is in the search result exactly when it is stored and the query
   * is blank or occurs, ignoring case, in its first name, last name or email;
   * such a user is returned as many times as it is stored.
   */
  lemma SearchMembership(users: seq<User>, query: string)
    ensures forall u :: u in Search(users, query) <==> u in users && (IsBlank(query) || Matches(u, SearchHit(query)))
    ensures forall u ::
              multiset(Search(users, query))[u] ==
              if IsBlank(query) || Matches(u, SearchHit(query)) then multiset(users)[u] else 0
  {
    forall u | true
      ensures u in Search(users, query) <==> u in users && (IsBlank(query) || Matches(u, SearchHit(query)))
      ensures multiset(Search(users, query))[u] ==
        if IsBlank(query) || Matches(u, SearchHit(query)) then multiset(users)[u] else 0
    {
      SelectMembership(users, SearchHit(query), u);
      SelectCounts(users, SearchHit(query), u);
    }
  }
}
