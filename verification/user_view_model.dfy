/**
 * The user view model (viewmodel/UserViewModel.kt): it holds the list
 * screen's state, runs add, update and delete through the validator and the
 * operation strategies, and keeps a first-name filtered view of the users.
 * Coroutine launches are modelled as synchronous steps; exceptions raised by
 * the repository are given as `Option<Exception>` parameters.
 */
module ViewModel {
  import opened Options
  import opened Users
  import opened Messages
  import opened Results
  import opened ValidationResults
  import opened ValidationStrategy
  import opened Selection
  import opened UserFilter
  import opened Repository
  import opened OperationStrategy

  /** The error an add reports when the email is already stored. */
  const DuplicateEmailError := Exception(Some(Text("A user with this email already exists.")))

  /** The store after an operation, and the error it puts in `uiState`, if any. */
  datatype Outcome = Outcome(users: seq<User>, error: Option<Exception>)

  /**
   * `performUserOperation` as a function of the store. With validation on,
   * an invalid user, or an add whose email is stored, stops before any
   * write. Otherwise the strategy writes once (or raises `strategyFault`)
   * and, on success, the `onSuccess` callback repeats the same write (or
   * raises `callbackFault`, which the outer catch turns into an error).
   */
  function Perform(users: seq<User>, user: User, strategy: UserOperationStrategy, performValidation: bool,
                   isValidEmail: string -> bool, strategyFault: Option<Exception>,
                   callbackFault: Option<Exception>): Outcome
  {
    var validation := Validate(user, isValidEmail);
    if performValidation && !validation.IsValid() then
      Outcome(users, Some(Exception(validation.GetErrorMessage())))
    else if performValidation && strategy == AddUserStrategy && Find(users, EmailKey(user.email)).Some? then
      Outcome(users, Some(DuplicateEmailError))
    else if strategyFault.Some? then
      Outcome(users, strategyFault)
    else
      var once := Write(strategy, users, user);
      if callbackFault.Some? then Outcome(once, callbackFault)
      else Outcome(Write(strategy, once, user), None)
  }

  /**
   * `applyFilters(users)` as a value: the list itself when the filter is
   * null or empty, else the first-name filter's result.
   */
  function FilteredView(filter: Option<string>, users: seq<User>): seq<User> {
    if filter.None? || filter.value == [] then users else Select(users, FirstNamePrefix(filter.value))
  }

  class UserViewModel {
    const repository: UserRepository
    const isValidEmail: string -> bool
    /** `_uiState.value`. */
    var uiState: Result<seq<User>>
    /** `_searchQuery.value`. */
    var searchQuery: string
    /** `_filteredUsers.value`. */
    var filteredUsers: seq<User>
    var currentFilterFirstName: Option<string>

    /** The state right after construction, before any collector has run. */
    constructor(repository: UserRepository, isValidEmail: string -> bool)
      ensures this.repository == repository && this.isValidEmail == isValidEmail
      ensures uiState == Loading && searchQuery == [] && filteredUsers == [] && currentFilterFirstName == None
    {
      this.repository := repository;
      this.isValidEmail := isValidEmail;
      uiState := Loading;
      searchQuery := [];
      filteredUsers := [];
      currentFilterFirstName := None;
    }

    /** The filtered view agrees with the users `uiState` holds, whenever it holds any. */
    predicate ViewConsistent()
      reads this
    {
      uiState.Success? ==> filteredUsers == FilteredView(currentFilterFirstName, uiState.data)
    }

    /** `updateSearchQuery(query)`: stores the query; nothing else changes. */
    method UpdateSearchQuery(query: string)
      modifies this
      ensures searchQuery == query
      ensures uiState == old(uiState) && filteredUsers == old(filteredUsers)
      ensures currentFilterFirstName == old(currentFilterFirstName)
    {
      searchQuery := query;
    }

    /**
     * `performUserOperation(user, strategy, performValidation, onSuccess)`,
     * where `onSuccess` repeats the strategy's write.
     */
    method PerformUserOperation(user: User, strategy: UserOperationStrategy, performValidation: bool,
                                strategyFault: Option<Exception>, callbackFault: Option<Exception>)
      modifies this, repository
      ensures var out := Perform(old(repository.users), user, strategy, performValidation, isValidEmail,
                                 strategyFault, callbackFault);
        repository.users == out.users
        && uiState == (if out.error.Some? then Error(out.error.value) else old(uiState))
      ensures searchQuery == old(searchQuery) && filteredUsers == old(filteredUsers)
      ensures currentFilterFirstName == old(currentFilterFirstName)
    {
      if performValidation {
        var validationResult := Validate(user, isValidEmail);
        if !validationResult.IsValid() {
          uiState := Error(Exception(validationResult.GetErrorMessage()));
          return;
        }
        if strategy == AddUserStrategy {
          var existingUser := repository.GetUserByEmail(user.email);
          if existingUser.Some? {
            uiState := Error(DuplicateEmailError);
            return;
          }
        }
      }
      var result := Execute(strategy, user, repository, strategyFault);
      match result {
        case Success(_) =>
          if callbackFault.Some? {
            uiState := Error(callbackFault.value);
            return;
          }
          match strategy {
            case AddUserStrategy =>
              var _ := repository.InsertUser(user);
            case UpdateUserStrategy =>
              repository.UpdateUser(user);
            case DeleteUserStrategy =>
              repository.DeleteUser(user);
          }
        case Error(e) =>
          uiState := Error(e);
        case Loading =>
      }
    }

    /** `addUser(user)`: validated, duplicate-checked, written by the add strategy. */
    method AddUser(user: User, strategyFault: Option<Exception>, callbackFault: Option<Exception>)
      modifies this, repository
      ensures var out := Perform(old(repository.users), user, AddUserStrategy, true, isValidEmail,
                                 strategyFault, callbackFault);
        repository.users == out.users
        && uiState == (if out.error.Some? then Error(out.error.value) else old(uiState))
      ensures searchQuery == old(searchQuery) && filteredUsers == old(filteredUsers)
      ensures currentFilterFirstName == old(currentFilterFirstName)
    {
      PerformUserOperation(user, AddUserStrategy, true, strategyFault, callbackFault);
    }

    /** `updateUser(user)`: validated, then written by the update strategy. */
    method UpdateUser(user: User, strategyFault: Option<Exception>, callbackFault: Option<Exception>)
      modifies this, repository
      ensures var out := Perform(old(repository.users), user, UpdateUserStrategy, true, isValidEmail,
                                 strategyFault, callbackFault);
        repository.users == out.users
        && uiState == (if out.error.Some? then Error(out.error.value) else old(uiState))
      ensures searchQuery == old(searchQuery) && filteredUsers == old(filteredUsers)
      ensures currentFilterFirstName == old(currentFilterFirstName)
    {
      PerformUserOperation(user, UpdateUserStrategy, true, strategyFault, callbackFault);
    }

    /** `deleteUser(user)`: no validation, written by the delete strategy. */
    method DeleteUser(user: User, strategyFault: Option<Exception>, callbackFault: Option<Exception>)
      modifies this, repository
      ensures var out := Perform(old(repository.users), user, DeleteUserStrategy, false, isValidEmail,
                                 strategyFault, callbackFault);
        repository.users == out.users
        && uiState == (if out.error.Some? then Error(out.error.value) else old(uiState))
      ensures searchQuery == old(searchQuery) && filteredUsers == old(filteredUsers)
      ensures currentFilterFirstName == old(currentFilterFirstName)
    {
      PerformUserOperation(user, DeleteUserStrategy, false, strategyFault, callbackFault);
    }

    /** `applyFilters(users)`: recomputes the filtered view from `users`. */
    method ApplyFilters(users: seq<User>)
      modifies this
      ensures filteredUsers == FilteredView(currentFilterFirstName, users)
      ensures uiState == old(uiState) && searchQuery == old(searchQuery)
      ensures currentFilterFirstName == old(currentFilterFirstName)
    {
      if currentFilterFirstName.None? || currentFilterFirstName.value == [] {
        filteredUsers := users;
      } else {
        filteredUsers := FilterByFirstName(users, currentFilterFirstName.value);
      }
    }

    /**
     * `setFirstNameFilter(firstName)`: stores the filter and recomputes the
     * view only when `uiState` holds a user list.
     */
    method SetFirstNameFilter(firstName: Option<string>)
      modifies this
      ensures currentFilterFirstName == firstName
      ensures old(uiState).Success? ==> filteredUsers == FilteredView(firstName, old(uiState).data)
      ensures !old(uiState).Success? ==> filteredUsers == old(filteredUsers)
      ensures uiState == old(uiState) && searchQuery == old(searchQuery)
      ensures ViewConsistent()
    {
      currentFilterFirstName := firstName;
      if uiState.Success? {
        ApplyFilters(uiState.data);
      }
    }

    /** `clearFilters()`: drops the filter and recomputes the view only when `uiState` holds a user list. */
    method ClearFilters()
      modifies this
      ensures currentFilterFirstName == None
      ensures old(uiState).Success? ==> filteredUsers == old(uiState).data
      ensures !old(uiState).Success? ==> filteredUsers == old(filteredUsers)
      ensures uiState == old(uiState) && searchQuery == old(searchQuery)
      ensures ViewConsistent()
    {
      currentFilterFirstName := None;
      if uiState.Success? {
        ApplyFilters(uiState.data);
      }
    }

    /** The `allUsers` collector: each emission becomes `Success(users)` and refreshes the view. */
    method OnAllUsersEmitted(users: seq<User>)
      modifies this
      ensures uiState == Success(users)
      ensures filteredUsers == FilteredView(currentFilterFirstName, users)
      ensures currentFilterFirstName == old(currentFilterFirstName) && searchQuery == old(searchQuery)
      ensures ViewConsistent()
    {
      uiState := Success(users);
      ApplyFilters(users);
    }
  }

  /**
   * With validation on, an invalid user stops the operation: the store is
   * unchanged and the validator's message is reported.
   */
  lemma InvalidUserIsNotWritten(users: seq<User>, user: User, strategy: UserOperationStrategy,
                                isValidEmail: string -> bool, strategyFault: Option<Exception>,
                                callbackFault: Option<Exception>)
    requires !Validate(user, isValidEmail).IsValid()
    ensures var out := Perform(users, user, strategy, true, isValidEmail, strategyFault, callbackFault);
      out.users == users && out.error == Some(Exception(Some(Validate(user, isValidEmail).message)))
  {
  }

  /**
   * Adding a valid user whose email is already stored reports the duplicate
   * error and inserts nothing.
   */
  lemma DuplicateEmailIsNotAdded(users: seq<User>, user: User, isValidEmail: string -> bool,
                                 strategyFault: Option<Exception>, callbackFault: Option<Exception>)
    requires Validate(user, isValidEmail).IsValid()
    requires exists i :: 0 <= i < |users| && users[i].email == user.email
    ensures var out := Perform(users, user, AddUserStrategy, true, isValidEmail, strategyFault, callbackFault);
      out.users == users && out.error == Some(DuplicateEmailError)
  {
    var i :| 0 <= i < |users| && users[i].email == user.email;
    assert HasKey(users[i], EmailKey(user.email));
  }

  /**
   * A successful add writes twice: the store gains two copies of the user,
   * under consecutive ids, and so holds its email twice.
   */
  lemma SuccessfulAddInsertsTwice(users: seq<User>, user: User, isValidEmail: string -> bool)
    requires Validate(user, isValidEmail).IsValid()
    requires forall i :: 0 <= i < |users| ==> users[i].email != user.email
    requires MaxId(users).None? || MaxId(users).value < LONG_MAX - 1
    ensures var n := NextId(users);
      var out := Perform(users, user, AddUserStrategy, true, isValidEmail, None, None);
      out.error == None && out.users == users + [user.(id := n), user.(id := n + 1)]
      && !EmailsUnique(out.users)
  {
    SuccessfulAddWritesTwice(users, user, isValidEmail);
    AddTwiceAppendsTwo(users, user);
    TwoCopiesShareEmail(users, user, NextId(users));
  }

  /** An add that passes both checks and raises nothing runs the insert twice. */
  lemma SuccessfulAddWritesTwice(users: seq<User>, user: User, isValidEmail: string -> bool)
    requires Validate(user, isValidEmail).IsValid()
    requires forall i :: 0 <= i < |users| ==> users[i].email != user.email
    ensures Perform(users, user, AddUserStrategy, true, isValidEmail, None, None)
      == Outcome(Write(AddUserStrategy, Write(AddUserStrategy, users, user), user), None)
  {
    assert Find(users, EmailKey(user.email)).None?;
  }

  /** Two appended copies of one user break email uniqueness. */
  lemma TwoCopiesShareEmail(users: seq<User>, user: User, n: Long)
    requires n < LONG_MAX
    ensures !EmailsUnique(users + [user.(id := n), user.(id := n + 1)])
  {
    var r := users + [user.(id := n), user.(id := n + 1)];
    assert r[|users|].email == r[|users| + 1].email;
  }

  /**
   * Update checks validity but not the email: a successful update writes
   * twice, which leaves the same store as one update.
   */
  lemma SuccessfulUpdateIsSingleUpdate(users: seq<User>, user: User, isValidEmail: string -> bool)
    requires Validate(user, isValidEmail).IsValid()
    ensures var out := Perform(users, user, UpdateUserStrategy, true, isValidEmail, None, None);
      out.error == None && out.users == Updated(users, user)
  {
    WriteIdempotentExceptAdd(UpdateUserStrategy, users, user);
  }

  /**
   * Delete skips validation and the duplicate check: it succeeds for any
   * user, and its double write leaves the same store as one delete.
   */
  lemma DeleteSkipsChecks(users: seq<User>, user: User, isValidEmail: string -> bool)
    ensures var out := Perform(users, user, DeleteUserStrategy, false, isValidEmail, None, None);
      out.error == None && out.users == Deleted(users, user)
  {
    WriteIdempotentExceptAdd(DeleteUserStrategy, users, user);
  }

  /**
   * When the strategy's write raises `e`, the store is unchanged and `e` is
   * reported; when the repeated write raises `e`, the first write stays and
   * `e` is reported.
   */
  lemma FaultsAreReported(users: seq<User>, user: User, strategy: UserOperationStrategy,
                          performValidation: bool, isValidEmail: string -> bool, e: Exception)
    requires !performValidation || Validate(user, isValidEmail).IsValid()
    requires performValidation && strategy == AddUserStrategy ==>
      forall i :: 0 <= i < |users| ==> users[i].email != user.email
    ensures Perform(users, user, strategy, performValidation, isValidEmail, Some(e), None) == Outcome(users, Some(e))
    ensures Perform(users, user, strategy, performValidation, isValidEmail, None, Some(e))
      == Outcome(Write(strategy, users, user), Some(e))
  {
  }

  /**
   * The filtered view is always a first-name selection: by the filter's
   * term, or by nobody's term when there is no filter. An empty filter
   * keeps everyone, as the selection by an empty term does.
   */
  lemma FilteredViewIsSelection(filter: Option<string>, users: seq<User>)
    ensures FilteredView(filter, users) ==
      Select(users, if filter.None? then Everyone else FirstNamePrefix(filter.value))
  {
    if filter.None? {
      SelectAllMatching(users, Everyone);
    } else if filter.value == [] {
      BlankTermKeepsAll(users, filter.value);
    }
  }
}
