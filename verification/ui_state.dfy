/** The three-state screen state and its holder (ui/state/UserUiState.kt). */
module UiState {
  import opened Users

  datatype UserUiState =
    | Loading
    | Success(users: seq<User>)
    | Error(message: string)

  /** Holds one `UserUiState`; each method overwrites it, whatever it was. */
  class UserStateHolder {
    var uiState: UserUiState

    /** A new holder starts in `Loading`. */
    constructor()
      ensures uiState == Loading
    {
      uiState := Loading;
    }

    /** `updateUsers(users)`. */
    method UpdateUsers(users: seq<User>)
      modifies this
      ensures uiState == Success(users)
    {
      uiState := Success(users);
    }

    /** `setError(message)`. */
    method SetError(message: string)
      modifies this
      ensures uiState == Error(message)
    {
      uiState := Error(message);
    }

    /** `setLoading()`. */
    method SetLoading()
      modifies this
      ensures uiState == Loading
    {
      uiState := Loading;
    }
  }
}
