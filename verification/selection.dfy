/**
 * Order-preserving selection of users by a criterion. The list filters of
 * filter/UserFilter.java and the repository's delete and search all keep,
 * in input order, exactly the users that satisfy a per-user test; this
 * module states that shape once and proves its properties.
 */
module Selection {
  import opened Users
  import opened Text

  /**
   * Java's `s.toLowerCase().trim()`, as the list filters apply it to both
   * sides: the lowercased slice left once the code points up to U+0020 at
   * either end are removed.
   */
  function Normalize(s: string): (r: string)
    ensures |r| <= |s|
    ensures r == [] <==> forall k :: 0 <= k < |s| ==> Strippable(JavaTrim, s[k])
  {
    LowerKeepsStrippable(s);
    Trim(JavaTrim, Lower(s))
  }

  /**
   * The normalised form is a slice of the lowercased string that starts and
   * ends with a character above U+0020, and everything outside that slice is
   * a code point up to U+0020 of the original.
   */
  lemma NormalizeIsTrimmedSlice(s: string)
    ensures var r := Normalize(s); r == [] || (!Strippable(JavaTrim, r[0]) && !Strippable(JavaTrim, r[|r| - 1]))
    ensures exists i, j ::
              && 0 <= i <= j <= |s| && Normalize(s) == Lower(s)[i..j]
              && (forall k :: 0 <= k < i ==> Strippable(JavaTrim, s[k]))
              && (forall k :: j <= k < |s| ==> Strippable(JavaTrim, s[k]))
  {
    var low := Lower(s);
    var start := SkipForward(JavaTrim, low, 0);
    var end := if start == |low| then start else SkipBackward(JavaTrim, low, |low|);
    assert Normalize(s) == low[start..end];
    forall k | 0 <= k < start
      ensures Strippable(JavaTrim, s[k])
    {
      assert low[k] == LowerChar(s[k]);
    }
    forall k | end <= k < |s|
      ensures Strippable(JavaTrim, s[k])
    {
      assert low[k] == LowerChar(s[k]);
    }
  }

  /** Lowercasing never turns a visible character into a control or space character, or back. */
  lemma LowerKeepsStrippable(s: string)
    ensures forall k :: 0 <= k < |s| ==> (Strippable(JavaTrim, Lower(s)[k]) <==> Strippable(JavaTrim, s[k]))
  {
  }

  /** The per-user tests the filters, the delete and the search apply. */
  datatype Criterion =
    | Everyone
    | FirstNamePrefix(term: string)
    | LastNamePrefix(term: string)
    | EmailContains(term: string)
    | PhonePrefix(term: string)
    | IdIsNot(id: int)
    | SearchHit(query: string)
    | Both(left: Criterion, right: Criterion)

  predicate Matches(u: User, c: Criterion) {
    match c
    case Everyone => true
    case FirstNamePrefix(t) => StartsWith(Normalize(u.firstName), Normalize(t))
    case LastNamePrefix(t) => StartsWith(Normalize(u.lastName), Normalize(t))
    case EmailContains(t) => Contains(Normalize(u.email), Normalize(t))
    case PhonePrefix(t) => StartsWith(Trim(JavaTrim, u.phone), Trim(JavaTrim, t))
    case IdIsNot(id) => u.id != id
    case SearchHit(q) =>
      ContainsIgnoreCase(u.firstName, q) || ContainsIgnoreCase(u.lastName, q) || ContainsIgnoreCase(u.email, q)
    case Both(a, b) => Matches(u, a) && Matches(u, b)
  }

  /** A user matches a conjunction when it matches both sides. */
  lemma MatchesBoth(u: User, a: Criterion, b: Criterion)
    ensures Matches(u, Both(a, b)) <==> Matches(u, a) && Matches(u, b)
  {
  }

  /** The users that match `c`, in input order. */
  function Select(users: seq<User>, c: Criterion): (r: seq<User>)
    ensures |r| <= |users|
  {
    if users == [] then []
    else
      var rest := Select(users[..|users| - 1], c);
      var last := users[|users| - 1];
      if Matches(last, c) then rest + [last] else rest
  }

  /** Selecting from a list with one more user at the end. */
  lemma SelectSnoc(users: seq<User>, x: User, c: Criterion)
    ensures Select(users + [x], c) == if Matches(x, c) then Select(users, c) + [x] else Select(users, c)
  {
    assert (users + [x])[..|users|] == users;
  }

  /** A matching user appended to the list is appended to the selection. */
  lemma SelectSnocKept(users: seq<User>, x: User, c: Criterion)
    requires Matches(x, c)
    ensures Select(users + [x], c) == Select(users, c) + [x]
  {
    SelectSnoc(users, x, c);
  }

  /** A user that does not match, appended to the list, leaves the selection as it was. */
  lemma SelectSnocDropped(users: seq<User>, x: User, c: Criterion)
    requires !Matches(x, c)
    ensures Select(users + [x], c) == Select(users, c)
  {
    SelectSnoc(users, x, c);
  }

  /** `r` is `s` with some elements removed and the rest in their original order. */
  predicate IsSubsequence(r: seq<User>, s: seq<User>)
    decreases |s|
  {
    if r == [] then true
    else if s == [] then false
    else
      var dropped := IsSubsequence(r, s[..|s| - 1]);
      (r[|r| - 1] == s[|s| - 1] && IsSubsequence(r[..|r| - 1], s[..|s| - 1])) || dropped
  }

  /** A user is selected exactly when it is in the input and matches. */
  lemma {:induction false} SelectMembership(users: seq<User>, c: Criterion, u: User)
    ensures u in Select(users, c) <==> u in users && Matches(u, c)
  {
    if users != [] {
      var init := users[..|users| - 1];
      SelectMembership(init, c, u);
      assert users == init + [users[|users| - 1]];
    }
  }

  /**
   * A matching user is kept as many times as it occurs in the input, and a
   * user that does not match is not kept at all: no repeated entry is lost.
   */
  lemma {:induction false} SelectCounts(users: seq<User>, c: Criterion, u: User)
    ensures multiset(Select(users, c))[u] == if Matches(u, c) then multiset(users)[u] else 0
  {
    if users != [] {
      var init, last := users[..|users| - 1], users[|users| - 1];
      assert users == init + [last];
      SelectCounts(init, c, u);
      SelectSnoc(init, last, c);
      CountsStep(init, last, Select(init, c), Select(users, c), Matches(last, c), Matches(u, c), u);
    }
  }

  /** The step of SelectCounts, for one more user at the end, kept or not. */
  lemma CountsStep(init: seq<User>, last: User, rest: seq<User>, r: seq<User>, keepLast: bool, keepU: bool, u: User)
    requires multiset(rest)[u] == if keepU then multiset(init)[u] else 0
    requires r == if keepLast then rest + [last] else rest
    requires last == u ==> keepLast == keepU
    ensures multiset(r)[u] == if keepU then multiset(init + [last])[u] else 0
  {
    assert multiset(init + [last]) == multiset(init) + multiset{last};
    if keepLast {
      assert multiset(r) == multiset(rest) + multiset{last};
    }
  }

  /** The selection keeps input order: it is a subsequence of the input. */
  lemma {:induction false} SelectIsSubsequence(users: seq<User>, c: Criterion)
    ensures IsSubsequence(Select(users, c), users)
  {
    if users != [] {
      var init := users[..|users| - 1];
      SelectIsSubsequence(init, c);
      var r := Select(users, c);
      if Matches(users[|users| - 1], c) {
        assert r[..|r| - 1] == Select(init, c);
      } else if r != [] {
        assert r == Select(init, c);
      }
    }
  }

  /** Selecting from a concatenation selects from each part, in order. */
  lemma {:induction false} SelectAppend(a: seq<User>, b: seq<User>, c: Criterion)
    ensures Select(a + b, c) == Select(a, c) + Select(b, c)
  {
    if b == [] {
      assert a + b == a;
    } else {
      var initB, x := b[..|b| - 1], b[|b| - 1];
      assert b == initB + [x];
      assert a + b == (a + initB) + [x];
      SelectAppend(a, initB, c);
      SelectSnoc(a + initB, x, c);
      SelectSnoc(initB, x, c);
      AppendStep(Select(a, c), Select(initB, c), x, Matches(x, c), Select(a + b, c), Select(b, c));
    }
  }

  /** The step of SelectAppend: appending `x`, or not, to both sides keeps them equal. */
  lemma AppendStep(front: seq<User>, back: seq<User>, x: User, keep: bool, whole: seq<User>, backAfter: seq<User>)
    requires whole == if keep then (front + back) + [x] else front + back
    requires backAfter == if keep then back + [x] else back
    ensures whole == front + backAfter
  {
    if keep {
      assert (front + back) + [x] == front + (back + [x]);
    }
  }

  /** When every user matches, nothing is dropped. */
  lemma {:induction false} SelectAllMatching(users: seq<User>, c: Criterion)
    requires forall i :: 0 <= i < |users| ==> Matches(users[i], c)
    ensures Select(users, c) == users
  {
    if users != [] {
      var init, last := users[..|users| - 1], users[|users| - 1];
      assert users == init + [last];
      SelectAllMatching(init, c);
      SelectSnocKept(init, last, c);
    }
  }

  /** When no user matches, the selection is empty. */
  lemma {:induction false} SelectNoneMatching(users: seq<User>, c: Criterion)
    requires forall i :: 0 <= i < |users| ==> !Matches(users[i], c)
    ensures Select(users, c) == []
  {
    if users != [] {
      SelectNoneMatching(users[..|users| - 1], c);
    }
  }

  /** Selecting again with a second criterion selects by both at once. */
  lemma {:induction false} SelectThenSelect(users: seq<User>, a: Criterion, b: Criterion)
    ensures Select(Select(users, a), b) == Select(users, Both(a, b))
  {
    if users != [] {
      var init := users[..|users| - 1];
      var last := users[|users| - 1];
      SelectThenSelect(init, a, b);
      if Matches(last, a) {
        SelectAppend(Select(init, a), [last], b);
      }
    }
  }

  /** Selecting twice with the same criterion is the same as selecting once. */
  lemma SelectIdempotent(users: seq<User>, c: Criterion)
    ensures Select(Select(users, c), c) == Select(users, c)
  {
    var r := Select(users, c);
    forall i | 0 <= i < |r|
      ensures Matches(r[i], c)
    {
      SelectMembership(users, c, r[i]);
    }
    SelectAllMatching(r, c);
  }

  /**
   * A term that is empty once trimmed is a prefix of every name, so a
   * first- or last-name selection by it keeps every user.
   */
  lemma BlankTermKeepsAll(users: seq<User>, term: string)
    requires IsJavaBlank(term)
    ensures Select(users, FirstNamePrefix(term)) == users
    ensures Select(users, LastNamePrefix(term)) == users
    ensures Select(users, EmailContains(term)) == users
    ensures Select(users, PhonePrefix(term)) == users
  {
    assert Normalize(term) == [];
    forall i | 0 <= i < |users|
      ensures Matches(users[i], FirstNamePrefix(term)) && Matches(users[i], LastNamePrefix(term))
      ensures Matches(users[i], EmailContains(term)) && Matches(users[i], PhonePrefix(term))
    {
      var e := Normalize(users[i].email);
      assert OccursAt(e, [], 0);
      ContainsIffOccurs(e, []);
    }
    SelectAllMatching(users, FirstNamePrefix(term));
    SelectAllMatching(users, LastNamePrefix(term));
    SelectAllMatching(users, EmailContains(term));
    SelectAllMatching(users, PhonePrefix(term));
  }
}
