/**
 * The list filters of filter/UserFilter.java. Each filter walks the list
 * once and appends the users that pass its test to a fresh list; the
 * combined filter runs the four of them one after another. Each method is
 * proved to compute the matching `Selection.Select`.
 */
module UserFilter {
  import opened Options
  import opened Users
  import opened Text
  import opened Selection

  /** `filterByFirstName`: case-insensitive prefix match on the trimmed first name. */
  method FilterByFirstName(users: seq<User>, firstName: string) returns (filtered: seq<User>)
    ensures filtered == Select(users, FirstNamePrefix(firstName))
  {
    filtered := [];
    var searchTerm := Normalize(firstName);
    for i := 0 to |users|
      invariant filtered == Select(users[..i], FirstNamePrefix(firstName))
    {
      assert users[..i + 1][..i] == users[..i];
      var userFirstName := Normalize(users[i].firstName);
      if StartsWith(userFirstName, searchTerm) {
        filtered := filtered + [users[i]];
      }
    }
    assert users[..|users|] == users;
  }

  /**
   * `filterByLastName`: a copy of the whole list when the term is blank once
   * trimmed, otherwise a case-insensitive prefix match on the trimmed last
   * name. The shortcut agrees with the general test (`BlankTermKeepsAll`).
   */
  method FilterByLastName(users: seq<User>, lastName: string) returns (filtered: seq<User>)
    ensures filtered == Select(users, LastNamePrefix(lastName))
    ensures IsJavaBlank(lastName) ==> filtered == users
  {
    if IsJavaBlank(lastName) {
      BlankTermKeepsAll(users, lastName);
      return users;
    }
    filtered := [];
    var searchTerm := Normalize(lastName);
    for i := 0 to |users|
      invariant filtered == Select(users[..i], LastNamePrefix(lastName))
    {
      assert users[..i + 1][..i] == users[..i];
      var userLastName := Normalize(users[i].lastName);
      if StartsWith(userLastName, searchTerm) {
        filtered := filtered + [users[i]];
      }
    }
    assert users[..|users|] == users;
  }

  /** `filterByEmail`: case-insensitive substring match on the trimmed email. */
  method FilterByEmail(users: seq<User>, email: string) returns (filtered: seq<User>)
    ensures filtered == Select(users, EmailContains(email))
  {
    filtered := [];
    var searchTerm := Normalize(email);
    for i := 0 to |users|
      invariant filtered == Select(users[..i], EmailContains(email))
    {
      assert users[..i + 1][..i] == users[..i];
      var userEmail := Normalize(users[i].email);
      if Contains(userEmail, searchTerm) {
        filtered := filtered + [users[i]];
      }
    }
    assert users[..|users|] == users;
  }

  /** `filterByPhone`: prefix match on the trimmed phone, with no lowercasing. */
  method FilterByPhone(users: seq<User>, phone: string) returns (filtered: seq<User>)
    ensures filtered == Select(users, PhonePrefix(phone))
  {
    filtered := [];
    var searchTerm := Trim(JavaTrim, phone);
    for i := 0 to |users|
      invariant filtered == Select(users[..i], PhonePrefix(phone))
    {
      assert users[..i + 1][..i] == users[..i];
      var userPhone := Trim(JavaTrim, users[i].phone);
      if StartsWith(userPhone, searchTerm) {
        filtered := filtered + [users[i]];
      }
    }
    assert users[..|users|] == users;
  }

  /** The four filters `filterUsers` chains, in the order it applies them. */
  datatype FilterField = ByFirstName | ByLastName | ByEmail | ByPhone

  /** The test each filter applies for a term. */
  function FieldCriterion(field: FilterField, term: string): Criterion {
    match field
    case ByFirstName => FirstNamePrefix(term)
    case ByLastName => LastNamePrefix(term)
    case ByEmail => EmailContains(term)
    case ByPhone => PhonePrefix(term)
  }

  /** A criterion given to `filterUsers`: null, or blank once trimmed, means absent. */
  function Stage(field: FilterField, term: Option<string>): (c: Criterion)
    ensures term.None? ==> c == Everyone
    ensures term.Some? && IsJavaBlank(term.value) ==> c == Everyone
    ensures term.Some? && !IsJavaBlank(term.value) ==> c == FieldCriterion(field, term.value)
  {
    if term.None? || IsJavaBlank(term.value) then Everyone else FieldCriterion(field, term.value)
  }

  /** The conjunction of the four criteria `filterUsers` receives, absent ones dropped. */
  function Query(firstName: Option<string>, lastName: Option<string>,
                 email: Option<string>, phone: Option<string>): Criterion
  {
    Both(Both(Both(Stage(ByFirstName, firstName), Stage(ByLastName, lastName)), Stage(ByEmail, email)),
         Stage(ByPhone, phone))
  }

  /**
   * One step of `filterUsers`: when the criterion is given and not blank,
   * the field's filter runs on the users selected so far; otherwise they
   * pass through unchanged.
   */
  method ApplyStage(field: FilterField, term: Option<string>, users: seq<User>) returns (after: seq<User>)
    ensures after == Select(users, Stage(field, term))
  {
    if term.Some? && !IsJavaBlank(term.value) {
      match field {
        case ByFirstName => after := FilterByFirstName(users, term.value);
        case ByLastName => after := FilterByLastName(users, term.value);
        case ByEmail => after := FilterByEmail(users, term.value);
        case ByPhone => after := FilterByPhone(users, term.value);
      }
    } else {
      SelectAllMatching(users, Everyone);
      after := users;
    }
  }

  /**
   * `filterUsers`: an empty list for a null list; otherwise the first-name,
   * last-name, email and phone filters in that order, each skipped when its
   * criterion is null or blank. The result is the selection by the
   * conjunction of the criteria given.
   */
  method FilterUsers(users: Option<seq<User>>, firstName: Option<string>, lastName: Option<string>,
                     email: Option<string>, phone: Option<string>) returns (filteredUsers: seq<User>)
    ensures users.None? ==> filteredUsers == []
    ensures users.Some? ==> filteredUsers == Select(users.value, Query(firstName, lastName, email, phone))
  {
    if users.None? {
      return [];
    }
    var all := users.value;
    var c1, c2 := Stage(ByFirstName, firstName), Stage(ByLastName, lastName);
    var c3, c4 := Stage(ByEmail, email), Stage(ByPhone, phone);
    filteredUsers := ApplyStage(ByFirstName, firstName, all);
    filteredUsers := ApplyStage(ByLastName, lastName, filteredUsers);
    SelectThenSelect(all, c1, c2);
    filteredUsers := ApplyStage(ByEmail, email, filteredUsers);
    SelectThenSelect(all, Both(c1, c2), c3);
    filteredUsers := ApplyStage(ByPhone, phone, filteredUsers);
    SelectThenSelect(all, Both(Both(c1, c2), c3), c4);
  }

  /** A user passes a stage when the stage is absent or the user passes its test. */
  lemma StageMatches(u: User, field: FilterField, term: Option<string>)
    ensures Matches(u, Stage(field, term)) <==>
      (term.Some? && !IsJavaBlank(term.value) ==> Matches(u, FieldCriterion(field, term.value)))
  {
  }

  /** A user passes the query when it passes each of the four stages. */
  lemma QueryMatches(u: User, firstName: Option<string>, lastName: Option<string>,
                     email: Option<string>, phone: Option<string>)
    ensures Matches(u, Query(firstName, lastName, email, phone)) <==>
      Matches(u, Stage(ByFirstName, firstName)) && Matches(u, Stage(ByLastName, lastName))
      && Matches(u, Stage(ByEmail, email)) && Matches(u, Stage(ByPhone, phone))
  {
    var s1, s2 := Stage(ByFirstName, firstName), Stage(ByLastName, lastName);
    var s3, s4 := Stage(ByEmail, email), Stage(ByPhone, phone);
    MatchesBoth(u, Both(Both(s1, s2), s3), s4);
    MatchesBoth(u, Both(s1, s2), s3);
    MatchesBoth(u, s1, s2);
  }

  /**
   * A user survives `filterUsers` exactly when it is in the list and passes
   * every criterion that was given and not blank, and it survives as many
   * times as it is listed.
   */
  lemma FilterUsersMembership(users: seq<User>, firstName: Option<string>, lastName: Option<string>,
                              email: Option<string>, phone: Option<string>, u: User)
    ensures u in Select(users, Query(firstName, lastName, email, phone)) <==>
      u in users
      && (firstName.Some? && !IsJavaBlank(firstName.value) ==> Matches(u, FirstNamePrefix(firstName.value)))
      && (lastName.Some? && !IsJavaBlank(lastName.value) ==> Matches(u, LastNamePrefix(lastName.value)))
      && (email.Some? && !IsJavaBlank(email.value) ==> Matches(u, EmailContains(email.value)))
      && (phone.Some? && !IsJavaBlank(phone.value) ==> Matches(u, PhonePrefix(phone.value)))
    ensures multiset(Select(users, Query(firstName, lastName, email, phone)))[u] ==
      if Matches(u, Query(firstName, lastName, email, phone)) then multiset(users)[u] else 0
  {
    SelectMembership(users, Query(firstName, lastName, email, phone), u);
    SelectCounts(users, Query(firstName, lastName, email, phone), u);
    QueryMatches(u, firstName, lastName, email, phone);
    StageMatches(u, ByFirstName, firstName);
    StageMatches(u, ByLastName, lastName);
    StageMatches(u, ByEmail, email);
    StageMatches(u, ByPhone, phone);
  }

  /** With every criterion null or blank, `filterUsers` returns the whole list. */
  lemma NoCriteriaKeepsAll(users: seq<User>, firstName: Option<string>, lastName: Option<string>,
                           email: Option<string>, phone: Option<string>)
    requires firstName.None? || IsJavaBlank(firstName.value)
    requires lastName.None? || IsJavaBlank(lastName.value)
    requires email.None? || IsJavaBlank(email.value)
    requires phone.None? || IsJavaBlank(phone.value)
    ensures Select(users, Query(firstName, lastName, email, phone)) == users
  {
    forall i | 0 <= i < |users|
      ensures Matches(users[i], Query(firstName, lastName, email, phone))
    {
      QueryMatches(users[i], firstName, lastName, email, phone);
    }
    SelectAllMatching(users, Query(firstName, lastName, email, phone));
  }
}

module UserFilterExamples {
  import opened Users
  import opened Text
  import opened Selection

  const John := User(1, "John", "Doe", "john.doe@example.com", "1234567890", "", "")
  const Jane := User(2, "Jane", "Smith", "jane.smith@example.com", "0987654321", "", "")
  const Jonathan := User(3, "Jonathan", "Davis", "jonathan.davis@example.com", "1122334455", "", "")
  const Alice := User(4, "Alice", "Wonder", "alice.wonder@example.com", "5544332211", "", "")

  /** Lowercased and trimmed first names of the four users. */
  lemma NormalizedNames()
    ensures Normalize("John") == "john" && Normalize("Jane") == "jane"
    ensures Normalize("Jonathan") == "jonathan" && Normalize("Alice") == "alice"
    ensures Normalize("jo") == "jo" && Normalize("john") == "john"
  {
    assert Lower("John") == "john";
    assert Lower("Jane") == "jane";
    assert Lower("Jonathan") == "jonathan";
    assert Lower("Alice") == "alice";
    assert Lower("jo") == "jo";
    assert Lower("john") == "john";
    TrimUnchanged(JavaTrim, "john");
    TrimUnchanged(JavaTrim, "jane");
    TrimUnchanged(JavaTrim, "jonathan");
    TrimUnchanged(JavaTrim, "alice");
    TrimUnchanged(JavaTrim, "jo");
  }

  /** Which of the normalised names start with "jo". */
  lemma PrefixesOfJo()
    ensures StartsWith("john", "jo") && StartsWith("jonathan", "jo")
    ensures !StartsWith("jane", "jo") && !StartsWith("alice", "jo")
  {
    assert "john"[..2] == "jo" && "jonathan"[..2] == "jo";
    assert "jane"[..2] != "jo" by { assert "jane"[1] != "jo"[1]; }
    assert "alice"[..2] != "jo" by { assert "alice"[0] != "jo"[0]; }
  }

  /** Which of the normalised names start with "john": only "john" itself. */
  lemma PrefixesOfJohn()
    ensures StartsWith("john", "john")
    ensures !StartsWith("jonathan", "john") && !StartsWith("jane", "john") && !StartsWith("alice", "john")
  {
    assert "jonathan"[..4] != "john" by { assert "jonathan"[3] != "john"[3]; }
    assert "jane"[..4] != "john" by { assert "jane"[1] != "john"[1]; }
    assert "alice"[..4] != "john" by { assert "alice"[0] != "john"[0]; }
  }

  /** Whether `u` matches a first-name term, given the normalised forms of both. */
  lemma FirstNameMatch(u: User, term: string, name: string, t: string)
    requires Normalize(u.firstName) == name && Normalize(term) == t
    ensures Matches(u, FirstNamePrefix(term)) <==> StartsWith(name, t)
  {
  }

  /** Selecting from two users. */
  lemma SelectPair(a: User, b: User, crit: Criterion)
    ensures Select([a, b], crit) == (if Matches(a, crit) then [a] else []) + (if Matches(b, crit) then [b] else [])
  {
    SelectSnoc([], a, crit);
    assert [] + [a] == [a];
    SelectSnoc([a], b, crit);
    assert [a] + [b] == [a, b];
  }

  /** Selecting from four users, two at a time. */
  lemma SelectFour(a: User, b: User, c: User, d: User, crit: Criterion)
    ensures Select([a, b, c, d], crit) == Select([a, b], crit) + Select([c, d], crit)
  {
    SelectAppend([a, b], [c, d], crit);
    assert [a, b] + [c, d] == [a, b, c, d];
  }

  /**
   * On four users whose first names normalise to "john", "jane",
   * "jonathan" and "alice", a term normalising to "jo" keeps the first and
   * the third.
   */
  lemma PartialTermSelects(a: User, b: User, c: User, d: User, term: string)
    requires Normalize(term) == "jo"
    requires Normalize(a.firstName) == "john" && Normalize(b.firstName) == "jane"
    requires Normalize(c.firstName) == "jonathan" && Normalize(d.firstName) == "alice"
    ensures Select([a, b, c, d], FirstNamePrefix(term)) == [a, c]
  {
    PrefixesOfJo();
    FirstNameMatch(a, term, "john", "jo");
    FirstNameMatch(b, term, "jane", "jo");
    FirstNameMatch(c, term, "jonathan", "jo");
    FirstNameMatch(d, term, "alice", "jo");
    SelectPair(a, b, FirstNamePrefix(term));
    SelectPair(c, d, FirstNamePrefix(term));
    SelectFour(a, b, c, d, FirstNamePrefix(term));
  }

  /**
   * On the same four users, a term normalising to "john" keeps only the
   * first: "jonathan" does not start with "john".
   */
  lemma ExactTermSelects(a: User, b: User, c: User, d: User, term: string)
    requires Normalize(term) == "john"
    requires Normalize(a.firstName) == "john" && Normalize(b.firstName) == "jane"
    requires Normalize(c.firstName) == "jonathan" && Normalize(d.firstName) == "alice"
    ensures Select([a, b, c, d], FirstNamePrefix(term)) == [a]
  {
    PrefixesOfJohn();
    FirstNameMatch(a, term, "john", "john");
    FirstNameMatch(b, term, "jane", "john");
    FirstNameMatch(c, term, "jonathan", "john");
    FirstNameMatch(d, term, "alice", "john");
    SelectPair(a, b, FirstNamePrefix(term));
    SelectPair(c, d, FirstNamePrefix(term));
    SelectFour(a, b, c, d, FirstNamePrefix(term));
  }

  /** "jo" selects John and Jonathan, in list order. */
  lemma PartialFirstNameExample()
    ensures Select([John, Jane, Jonathan, Alice], FirstNamePrefix("jo")) == [John, Jonathan]
  {
    NormalizedNames();
    PartialTermSelects(John, Jane, Jonathan, Alice, "jo");
  }

  /** "john" selects John only. */
  lemma ExactFirstNameExample()
    ensures Select([John, Jane, Jonathan, Alice], FirstNamePrefix("john")) == [John]
  {
    NormalizedNames();
    ExactTermSelects(John, Jane, Jonathan, Alice, "john");
  }
}
