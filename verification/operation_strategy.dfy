/**
 * The add, update and delete strategies (strategy/UserOperationStrategy.kt).
 * Each performs one repository write and reports the outcome as a
 * `Result<Unit>`; an exception from the write comes back as `Error(e)` and
 * is never rethrown.
 */
module OperationStrategy {
  import opened Options
  import opened Users
  import opened Results
  import opened Repository

  datatype UserOperationStrategy = AddUserStrategy | UpdateUserStrategy | DeleteUserStrategy

  /** The list after the strategy's repository write. */
  function Write(strategy: UserOperationStrategy, users: seq<User>, user: User): (r: seq<User>)
    ensures strategy == AddUserStrategy ==> |r| == |users| + 1
    ensures strategy == UpdateUserStrategy ==> |r| == |users|
    ensures strategy == DeleteUserStrategy ==> |r| <= |users|
  {
    match strategy
    case AddUserStrategy => Inserted(users, user)
    case UpdateUserStrategy => Updated(users, user)
    case DeleteUserStrategy => Deleted(users, user)
  }

  /**
   * `execute(user, repository)`. `fault` stands for the exception the
   * repository call raises, if any: with no fault the write happens once and
   * the result is `Success(Unit)`; with a fault the store is left as it was
   * and the result is `Error(e)`.
   */
  method Execute(strategy: UserOperationStrategy, user: User, repository: UserRepository,
                 fault: Option<Exception>) returns (r: Result<()>)
    modifies repository
    ensures fault.None? ==> r == Success(()) && repository.users == Write(strategy, old(repository.users), user)
    ensures fault.Some? ==> r == Error(fault.value) && repository.users == old(repository.users)
  {
    if fault.Some? {
      return Error(fault.value);
    }
    match strategy {
      case AddUserStrategy =>
        var _ := repository.InsertUser(user);
      case UpdateUserStrategy =>
        repository.UpdateUser(user);
      case DeleteUserStrategy =>
        repository.DeleteUser(user);
    }
    r := Success(());
  }

  /** Repeating an update or a delete changes nothing more. */
  lemma WriteIdempotentExceptAdd(strategy: UserOperationStrategy, users: seq<User>, user: User)
    requires strategy != AddUserStrategy
    ensures Write(strategy, Write(strategy, users, user), user) == Write(strategy, users, user)
  {
    if strategy == UpdateUserStrategy {
      UpdateIdempotent(users, user);
    } else {
      DeleteIdempotent(users, user);
    }
  }

  /**
   * Repeating an insert appends a second copy: two entries with the user's
   * fields under consecutive ids, unless the id arithmetic wrapped.
   */
  lemma AddTwiceAppendsTwo(users: seq<User>, user: User)
    requires MaxId(users).None? || MaxId(users).value < LONG_MAX - 1
    ensures var n := NextId(users);
      Write(AddUserStrategy, Write(AddUserStrategy, users, user), user)
        == users + [user.(id := n), user.(id := n + 1)]
  {
    InsertTwice(users, user);
  }
}
