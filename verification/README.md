# User management core, modelled in Dafny

This project models the business logic of a small Android user-management
app (Kotlin and Java). A `User` record holds an id, first and last name,
email, phone, date of birth and address. The parts modelled are:

- the field checks of `ValidationUtils`: blank fields, the phone pattern and
  the `yyyy-MM-dd` date check with the Gregorian leap-year rule;
- the validator `UserValidationStrategy`, which reports the first broken
  rule in a fixed priority order;
- the two result types, `ValidationResult` and the three-state `Result`;
- the four list filters of `UserFilter` and their chained combination;
- the in-memory `UserRepository`;
- the add, update and delete operation strategies;
- the `UserViewModel`, which runs every operation through validation, a
  duplicate-email check and a strategy, and keeps a first-name filtered view;
- the `UserStateHolder`;
- the form logic of the `UserForm` composable: per-field validation, field
  updates, whole-form validation and the Save click.

Modules follow the source files: `Users`, `Results`, `ValidationResults`,
`ValidationUtils`, `ValidationStrategy`, `UserFilter`, `Repository`,
`OperationStrategy`, `ViewModel`, `UiState` and `Form`. Four modules are
shared helpers:

- `Options`: the nullable value;
- `Text`: Java and Kotlin trimming, blankness, lowercasing, prefix and
  substring tests;
- `Numerals`: decimal digits and their values;
- `Selection`: order-preserving selection of users by a criterion, which the
  filters, delete and search share.

Pure functions stay functions. Whatever the source updates in place is a
class with `modifies` clauses:

- the repository's list;
- the view model's flows and filter;
- the state holder;
- the form state.

Each list filter is a loop proved against `Selection.Select`.

The code differs from what its documentation and tests describe in several
places. The model follows the code, and lemmas exhibit each difference:

- The validator never looks at the date of birth or the address. A user
  with the date `2023-02-29` is accepted (`ValidationStrategy.AcceptsInvalidDob`).
- `isValidDate` has no future-date rule. `3000-01-01` is accepted, although
  the app's tests list it as invalid (`ValidationUtils.FutureDateAccepted`).
- Every successful add, update or delete writes twice: once in the strategy
  and once more in the `onSuccess` callback. An add therefore stores two
  copies of the user under consecutive ids (`ViewModel.SuccessfulAddInsertsTwice`).
  Update and delete end in the same store as a single write.
- The in-memory repository does not enforce unique emails; the Room table's
  unique index does. Only `addUser`'s own lookup rejects a stored email.
- An update or delete whose id is not stored changes nothing and is reported
  as a success (`Repository.UpdateAbsentIdUnchanged`).

## Model

| member | source | states |
|---|---|---|
| Users.AddLong | app/src/main/java/com/example/usermanagement/repository/UserRepository.kt:25 | Kotlin `Long` addition: the exact sum when it fits in 64 bits, otherwise wrapped by 2^64 |
| Users.DefaultUser | app/src/main/java/com/example/usermanagement/data/User.kt:14-30 | `User()` has id 0 and every string field empty |
| Users.FullName | app/src/main/java/com/example/usermanagement/data/User.kt:35-36 | the full name is the first name, one space, then the last name |
| Results.SuccessResult | app/src/main/java/com/example/usermanagement/util/Result.kt:32 | `success(data)` is the Success state holding `data` |
| Results.ErrorResult | app/src/main/java/com/example/usermanagement/util/Result.kt:39 | `error(e)` is the Error state holding `e` |
| Results.LoadingResult | app/src/main/java/com/example/usermanagement/util/Result.kt:45 | `loading()` is the Loading state |
| ValidationResults.ValidationResult.GetErrorMessage | app/src/main/java/com/example/usermanagement/util/ValidationResult.java:44-46 | null exactly for a valid result; otherwise the message the result was built with |
| ValidationResults.ValidationSuccess | app/src/main/java/com/example/usermanagement/util/ValidationResult.java:19-21 | `success()` is valid and has no message |
| ValidationResults.ValidationError | app/src/main/java/com/example/usermanagement/util/ValidationResult.java:28-30 | `error(m)` is invalid and reports `m` |
| ValidationResults.BuiltByFactories | app/src/main/java/com/example/usermanagement/util/ValidationResult.java:10-13 | with the constructor private, every result is `success()` or some `error(m)`, and it is valid exactly when it is `success()` |
| ValidationUtils.IsFieldBlank | app/src/main/java/com/example/usermanagement/util/ValidationUtils.kt:68-70 | a value is blank exactly when trimming its Kotlin whitespace leaves nothing |
| ValidationUtils.PhoneIsNumber | app/src/main/java/com/example/usermanagement/util/ValidationUtils.kt:22-24 | a phone is accepted exactly when it is a number from 10 to 10^15 - 1 in decimal (2 to 15 digits, no leading zero), with or without a leading '+' |
| ValidationUtils.ValidPhoneNotBlank | app/src/main/java/com/example/usermanagement/util/ValidationUtils.kt:22-24 | an accepted phone is never blank, so the validator's blank-phone rule always fires before its format rule |
| ValidationUtils.PhoneExamples | app/src/main/java/com/example/usermanagement/util/ValidationUtils.kt:22-24 | on sample phones: `+123456789012345`, `1234567890` and `+1234567890` are accepted; `abc123` is rejected, and so are a 16-digit number, a leading zero, `1`, `+` and the empty string |
| ValidationUtils.FormattedDateValid | app/src/main/java/com/example/usermanagement/util/ValidationUtils.kt:31-61 | a rendered `yyyy-MM-dd` date is accepted exactly when it is a day of the Gregorian calendar |
| ValidationUtils.ValidDateIsCalendarDate | app/src/main/java/com/example/usermanagement/util/ValidationUtils.kt:31-61 | every accepted string trims to the rendering of a Gregorian calendar day; with FormattedDateValid this fully characterises the accepted strings |
| ValidationUtils.WhenAgreesWithCalendar | app/src/main/java/com/example/usermanagement/util/ValidationUtils.kt:49-60 | the month range check and the `when (month)` day bounds agree with a reference table of month lengths |
| ValidationUtils.ValidDateIgnoresSurroundingWhitespace | app/src/main/java/com/example/usermanagement/util/ValidationUtils.kt:32-36 | a non-empty string is accepted exactly when its trimmed form is |
| ValidationUtils.LeapDay | app/src/main/java/com/example/usermanagement/util/ValidationUtils.kt:53-57 | February 29th of year y is accepted exactly when y is a Gregorian leap year |
| ValidationUtils.MonthLengths | app/src/main/java/com/example/usermanagement/util/ValidationUtils.kt:58-59 | outside February, day 30 is always accepted; day 31 is accepted exactly outside April, June, September and November |
| ValidationUtils.PlainDateAccepted | app/src/androidTest/java/com/example/usermanagement/UserCreationTest.kt:356 | `1990-01-01` is accepted |
| ValidationUtils.LeapDay2000Accepted | app/src/androidTest/java/com/example/usermanagement/UserCreationTest.kt:357 | `2000-02-29` is accepted |
| ValidationUtils.LeapDay2023Rejected | app/src/androidTest/java/com/example/usermanagement/UserCreationTest.kt:385 | `2023-02-29` is rejected |
| ValidationUtils.FutureDateAccepted | app/src/androidTest/java/com/example/usermanagement/UserCreationTest.kt:386 | `3000-01-01` is accepted: there is no future-date rule, although this test expects one |
| ValidationUtils.MonthThirteenRejected | app/src/androidTest/java/com/example/usermanagement/UserCreationTest.kt:387 | `1990-13-01` is rejected |
| ValidationUtils.DayThirtyTwoRejected | app/src/androidTest/java/com/example/usermanagement/UserCreationTest.kt:388 | `1990-01-32` is rejected |
| ValidationUtils.RejectedShapeExamples | app/src/androidTest/java/com/example/usermanagement/UserCreationTest.kt:383-390 | the empty string, `1990/01/01`, `01-01-1990` and `invalid-date` are rejected |
| ValidationUtils.PaddedDateAccepted | app/src/androidTest/java/com/example/usermanagement/UserCreationTest.kt:415 | ` 1990-01-01 ` is accepted once trimmed |
| ValidationStrategy.ReportsFirstBrokenRule | app/src/main/java/com/example/usermanagement/strategy/ValidationStrategy.kt:15-29 | the validator reports a code exactly when the user breaks that rule and no rule of higher priority (first name, last name, email blank, email format, phone blank, phone format) |
| ValidationStrategy.ValidIffNoRuleBroken | app/src/main/java/com/example/usermanagement/strategy/ValidationStrategy.kt:15-29 | the result is `success()` exactly when no rule is broken |
| ValidationStrategy.ValidUserFields | app/src/main/java/com/example/usermanagement/strategy/ValidationStrategy.kt:15-29 | a valid user has non-blank names, a non-blank well-formed email and a well-formed phone |
| ValidationStrategy.IgnoresDobAndAddress | app/src/main/java/com/example/usermanagement/strategy/ValidationStrategy.kt:14-30 | changing the date of birth or the address never changes the result |
| ValidationStrategy.AcceptsInvalidDob | app/src/main/java/com/example/usermanagement/strategy/ValidationStrategy.kt:14-30 | a user whose date of birth is `2023-02-29` passes validation, although that date is not valid |
| ValidationStrategy.EmptyUserFailsOnFirstName | app/src/main/java/com/example/usermanagement/strategy/ValidationStrategy.kt:16-17 | `User()` fails with the first-name error |
| Selection.Normalize | app/src/main/java/com/example/usermanagement/filter/UserFilter.java:23-29 | `toLowerCase().trim()` never lengthens a string, and is empty exactly when every character is trimmable |
| Text.TrimIsSlice | app/src/main/java/com/example/usermanagement/filter/UserFilter.java:23 | `trim()` returns a slice of its input, and every character it cuts off before or after that slice is one the trim rule strips |
| Selection.NormalizeIsTrimmedSlice | app/src/main/java/com/example/usermanagement/filter/UserFilter.java:23-29 | `toLowerCase().trim()` is a slice of the lowercased string that begins and ends with a character above U+0020, and every character cut off before or after it is a code point up to U+0020 |
| Selection.SelectMembership | app/src/main/java/com/example/usermanagement/filter/UserFilter.java:28-40 | a user is in a filter's result exactly when it is in the input and passes the test |
| Selection.SelectCounts | app/src/main/java/com/example/usermanagement/filter/UserFilter.java:28-40 | a filter keeps a passing user as many times as the input lists it, and a failing user not at all |
| Selection.SelectIsSubsequence | app/src/main/java/com/example/usermanagement/filter/UserFilter.java:28-40 | a filter keeps input order: the result is a subsequence of the input |
| Selection.SelectAppend | app/src/main/java/com/example/usermanagement/filter/UserFilter.java:28-40 | filtering a concatenation filters each part, in order |
| Selection.SelectThenSelect | app/src/main/java/com/example/usermanagement/filter/UserFilter.java:205-247 | filtering the result of a filter is filtering once by both tests |
| Selection.SelectIdempotent | app/src/main/java/com/example/usermanagement/filter/UserFilter.java:28-40 | filtering twice with the same test is filtering once |
| Selection.BlankTermKeepsAll | app/src/main/java/com/example/usermanagement/filter/UserFilter.java:69-72 | a term that trims to nothing keeps every user under all four tests, so the last-name filter's shortcut changes nothing |
| UserFilter.FilterByFirstName | app/src/main/java/com/example/usermanagement/filter/UserFilter.java:21-49 | the result is the users whose lowercased, trimmed first name starts with the lowercased, trimmed term, in order |
| UserFilter.FilterByLastName | app/src/main/java/com/example/usermanagement/filter/UserFilter.java:65-106 | a copy of the list for a blank term; otherwise the users whose normalised last name starts with the normalised term, in order |
| UserFilter.FilterByEmail | app/src/main/java/com/example/usermanagement/filter/UserFilter.java:114-143 | the users whose normalised email contains the normalised term, in order |
| UserFilter.FilterByPhone | app/src/main/java/com/example/usermanagement/filter/UserFilter.java:151-180 | the users whose trimmed phone starts with the trimmed term (no lowercasing), in order |
| UserFilter.Stage | app/src/main/java/com/example/usermanagement/filter/UserFilter.java:199-202 | a null criterion, or one blank once trimmed, is absent and keeps everyone; any other criterion is its field's test |
| UserFilter.ApplyStage | app/src/main/java/com/example/usermanagement/filter/UserFilter.java:205-247 | one stage of `filterUsers` filters the users so far by that stage's test |
| UserFilter.FilterUsers | app/src/main/java/com/example/usermanagement/filter/UserFilter.java:191-256 | a null list gives an empty list; otherwise the four chained filters select by the conjunction of the criteria given |
| UserFilter.StageMatches | app/src/main/java/com/example/usermanagement/filter/UserFilter.java:199-214 | a user passes a stage when the criterion is absent or the user passes the field's test |
| UserFilter.QueryMatches | app/src/main/java/com/example/usermanagement/filter/UserFilter.java:205-247 | a user passes the chained query exactly when it passes each of the four stages |
| UserFilter.FilterUsersMembership | app/src/main/java/com/example/usermanagement/filter/UserFilter.java:191-256 | a user survives `filterUsers` exactly when it is in the list and passes every criterion that was given and not blank, and survives as many times as it is listed |
| UserFilter.NoCriteriaKeepsAll | app/src/main/java/com/example/usermanagement/filter/UserFilter.java:191-256 | with every criterion null or blank, the whole list comes back |
| UserFilterExamples.PartialFirstNameExample | app/src/androidTest/java/com/example/usermanagement/ui/screens/UserFilterTest.java:57-80 | on the test's four users, the term `jo` selects John and Jonathan |
| UserFilterExamples.ExactFirstNameExample | app/src/androidTest/java/com/example/usermanagement/ui/screens/UserFilterTest.java:83-87 | on the test's four users, the term `john` selects only John |
| Repository.Find | app/src/main/java/com/example/usermanagement/repository/UserRepository.kt:15-21 | `find` gives null exactly when no entry has the key, and otherwise the first entry that has it |
| Repository.MaxId | app/src/main/java/com/example/usermanagement/repository/UserRepository.kt:25 | `maxOfOrNull` gives null exactly for an empty store, and otherwise a stored id that bounds every id |
| Repository.NextId | app/src/main/java/com/example/usermanagement/repository/UserRepository.kt:25 | the new id is 1 for an empty store, otherwise the largest id plus one, wrapping to `Long.MIN_VALUE` after `Long.MAX_VALUE` |
| Repository.NextIdFresh | app/src/main/java/com/example/usermanagement/repository/UserRepository.kt:25 | unless the ids wrap, the new id is larger than every stored id |
| Repository.NextIdWraps | app/src/main/java/com/example/usermanagement/repository/UserRepository.kt:25 | after `Long.MAX_VALUE` the next id is `Long.MIN_VALUE` |
| Repository.MaxIdAfterInsert | app/src/main/java/com/example/usermanagement/repository/UserRepository.kt:23-28 | unless the ids wrap, the id just assigned is the new largest id |
| Repository.NextIdAfterInsert | app/src/main/java/com/example/usermanagement/repository/UserRepository.kt:23-28 | unless the ids wrap, the id after an insert is one more than the id it assigned |
| Repository.InsertTwice | app/src/main/java/com/example/usermanagement/repository/UserRepository.kt:23-28 | two inserts of one user append two copies under consecutive ids |
| Repository.Inserted | app/src/main/java/com/example/usermanagement/repository/UserRepository.kt:26 | the old list is kept, and one copy of the user under the new id is appended |
| Repository.Updated | app/src/main/java/com/example/usermanagement/repository/UserRepository.kt:31 | same length; every entry with the user's id becomes the user, and every other entry is unchanged |
| Repository.Deleted | app/src/main/java/com/example/usermanagement/repository/UserRepository.kt:35 | the list after a delete is never longer than before |
| Repository.Search | app/src/main/java/com/example/usermanagement/repository/UserRepository.kt:38-50 | a blank query gives the whole list, and any other query gives the matching selection |
| Repository.UserRepository.constructor | app/src/main/java/com/example/usermanagement/repository/UserRepository.kt:11 | a new store is empty |
| Repository.UserRepository.GetUserById | app/src/main/java/com/example/usermanagement/repository/UserRepository.kt:15-17 | null exactly when no entry has the id, otherwise the first entry with it |
| Repository.UserRepository.GetUserByEmail | app/src/main/java/com/example/usermanagement/repository/UserRepository.kt:19-21 | null exactly when no entry has the exact email, otherwise the first entry with it |
| Repository.UserRepository.InsertUser | app/src/main/java/com/example/usermanagement/repository/UserRepository.kt:23-28 | returns the next id and appends the user under it |
| Repository.UserRepository.UpdateUser | app/src/main/java/com/example/usermanagement/repository/UserRepository.kt:30-32 | the store becomes the updated list |
| Repository.UserRepository.DeleteUser | app/src/main/java/com/example/usermanagement/repository/UserRepository.kt:34-36 | the store becomes the list without the user's id |
| Repository.UserRepository.SearchUsers | app/src/main/java/com/example/usermanagement/repository/UserRepository.kt:38-50 | a user is in the result exactly when it is stored and the query is blank or occurs, ignoring case, in its first name, last name or email; it is returned as often as it is stored, and order is kept |
| Repository.UserRepository.SetUsers | app/src/main/java/com/example/usermanagement/repository/UserRepository.kt:53-55 | the store becomes exactly the given list |
| Repository.UserRepository.ClearUsers | app/src/main/java/com/example/usermanagement/repository/UserRepository.kt:58-60 | the store becomes empty |
| Repository.InsertThenGet | app/src/main/java/com/example/usermanagement/repository/UserRepository.kt:23-28 | after an insert, looking up the returned id gives the user under that id |
| Repository.InsertAllowsDuplicateEmail | app/src/main/java/com/example/usermanagement/repository/UserRepository.kt:23-28 | inserting a user whose email is already stored leaves two entries with that email |
| Repository.UpdateAbsentIdUnchanged | app/src/main/java/com/example/usermanagement/repository/UserRepository.kt:30-32 | an update whose id is not stored changes nothing |
| Repository.UpdateThenGet | app/src/main/java/com/example/usermanagement/repository/UserRepository.kt:30-32 | after an update, looking up the id gives the new user exactly when the id was stored |
| Repository.UpdateIdempotent | app/src/main/java/com/example/usermanagement/repository/UserRepository.kt:30-32 | updating twice with one user is updating once |
| Repository.DeleteMembership | app/src/main/java/com/example/usermanagement/repository/UserRepository.kt:34-36 | delete keeps exactly the entries with another id, each as often as it was stored, in order |
| Repository.DeleteThenGet | app/src/main/java/com/example/usermanagement/repository/UserRepository.kt:34-36 | after a delete, looking up the id gives null |
| Repository.DeleteIdempotent | app/src/main/java/com/example/usermanagement/repository/UserRepository.kt:34-36 | deleting twice is deleting once |
| Repository.SearchMembership | app/src/main/java/com/example/usermanagement/repository/UserRepository.kt:38-50 | a user is in the search result exactly when it is stored and the query is blank or matches its first name, last name or email, ignoring case; each such user is returned as often as it is stored |
| OperationStrategy.Write | app/src/main/java/com/example/usermanagement/strategy/UserOperationStrategy.kt:29-69 | an add lengthens the list by one, an update keeps its length, and a delete never lengthens it |
| OperationStrategy.Execute | app/src/main/java/com/example/usermanagement/strategy/UserOperationStrategy.kt:27-74 | with no exception, the write happens once and the result is `Success(Unit)`; an exception becomes `Error(e)` and the store is left as it was |
| OperationStrategy.WriteIdempotentExceptAdd | app/src/main/java/com/example/usermanagement/strategy/UserOperationStrategy.kt:47-74 | repeating an update or a delete changes nothing more |
| OperationStrategy.AddTwiceAppendsTwo | app/src/main/java/com/example/usermanagement/strategy/UserOperationStrategy.kt:27-34 | repeating an add appends a second copy under the next id |
| UiState.UserStateHolder.constructor | app/src/main/java/com/example/usermanagement/ui/state/UserUiState.kt:15 | a new holder starts in Loading |
| UiState.UserStateHolder.UpdateUsers | app/src/main/java/com/example/usermanagement/ui/state/UserUiState.kt:18-20 | the state becomes Success with the list |
| UiState.UserStateHolder.SetError | app/src/main/java/com/example/usermanagement/ui/state/UserUiState.kt:22-24 | the state becomes Error with the message |
| UiState.UserStateHolder.SetLoading | app/src/main/java/com/example/usermanagement/ui/state/UserUiState.kt:26-28 | the state becomes Loading |
| ViewModel.UserViewModel.constructor | app/src/main/java/com/example/usermanagement/viewmodel/UserViewModel.kt:28-50 | the initial flows: Loading, an empty query, an empty filtered list and no filter |
| ViewModel.UserViewModel.UpdateSearchQuery | app/src/main/java/com/example/usermanagement/viewmodel/UserViewModel.kt:111-113 | only the query changes |
| ViewModel.UserViewModel.PerformUserOperation | app/src/main/java/com/example/usermanagement/viewmodel/UserViewModel.kt:163-200 | the store and `uiState` end as `Perform` says: validation, the duplicate check on add, the strategy write, then the callback's second write; every failure is reported as an Error state; the query and filtered view are untouched |
| ViewModel.UserViewModel.AddUser | app/src/main/java/com/example/usermanagement/viewmodel/UserViewModel.kt:126-131 | the operation runs with the add strategy and validation |
| ViewModel.UserViewModel.UpdateUser | app/src/main/java/com/example/usermanagement/viewmodel/UserViewModel.kt:137-142 | the operation runs with the update strategy and validation |
| ViewModel.UserViewModel.DeleteUser | app/src/main/java/com/example/usermanagement/viewmodel/UserViewModel.kt:149-154 | the operation runs with the delete strategy and no validation |
| ViewModel.UserViewModel.ApplyFilters | app/src/main/java/com/example/usermanagement/viewmodel/UserViewModel.kt:206-212 | the filtered view is the list itself for a null or empty filter, and the first-name filter's result otherwise |
| ViewModel.UserViewModel.SetFirstNameFilter | app/src/main/java/com/example/usermanagement/viewmodel/UserViewModel.kt:218-225 | the filter is stored; the view is recomputed only when `uiState` holds a list; the view stays consistent with `uiState` |
| ViewModel.UserViewModel.ClearFilters | app/src/main/java/com/example/usermanagement/viewmodel/UserViewModel.kt:230-237 | the filter is dropped; when `uiState` holds a list, the view becomes that whole list; the view stays consistent |
| ViewModel.UserViewModel.OnAllUsersEmitted | app/src/main/java/com/example/usermanagement/viewmodel/UserViewModel.kt:56-61 | each emission becomes `Success(users)` and refreshes the filtered view, which stays consistent |
| ViewModel.InvalidUserIsNotWritten | app/src/main/java/com/example/usermanagement/viewmodel/UserViewModel.kt:171-176 | with validation on, an invalid user leaves the store unchanged and reports the validator's message |
| ViewModel.DuplicateEmailIsNotAdded | app/src/main/java/com/example/usermanagement/viewmodel/UserViewModel.kt:178-184 | adding a valid user whose email is stored reports the duplicate error and writes nothing |
| ViewModel.SuccessfulAddWritesTwice | app/src/main/java/com/example/usermanagement/viewmodel/UserViewModel.kt:187-190 | a successful add runs the insert in the strategy and again in the callback |
| ViewModel.SuccessfulAddInsertsTwice | app/src/main/java/com/example/usermanagement/viewmodel/UserViewModel.kt:126-131 | a successful add stores two copies of the user under consecutive ids, so the email is stored twice |
| ViewModel.SuccessfulUpdateIsSingleUpdate | app/src/main/java/com/example/usermanagement/viewmodel/UserViewModel.kt:137-142 | a successful update's double write leaves the same store as one update |
| ViewModel.DeleteSkipsChecks | app/src/main/java/com/example/usermanagement/viewmodel/UserViewModel.kt:149-154 | a delete succeeds for any user, and its double write leaves the same store as one delete |
| ViewModel.FaultsAreReported | app/src/main/java/com/example/usermanagement/viewmodel/UserViewModel.kt:187-198 | an exception from the strategy leaves the store unchanged; one from the callback leaves the first write in place; both are reported |
| ViewModel.FilteredViewIsSelection | app/src/main/java/com/example/usermanagement/viewmodel/UserViewModel.kt:206-212 | the filtered view is always a first-name selection, and an empty filter keeps everyone |
| Form.WithField | app/src/main/java/com/example/usermanagement/ui/components/UserForm.kt:66-71 | `copy` sets the one field and leaves every other field, the id, the date of birth and the address as they were |
| Form.FormErrors | app/src/main/java/com/example/usermanagement/ui/components/UserForm.kt:82-90 | the errors map has exactly the four field names as keys |
| Form.FormErrorsEntry | app/src/main/java/com/example/usermanagement/ui/components/UserForm.kt:82-90 | each field's entry is that field's check on the user's value |
| Form.NamesDistinct | app/src/main/java/com/example/usermanagement/ui/components/UserForm.kt:22-24 | distinct fields have distinct names, so each owns its own entry |
| Form.EntryNullIffFieldPasses | app/src/main/java/com/example/usermanagement/ui/components/UserForm.kt:46-63 | a field's check gives null exactly when the user breaks none of the validator's rules for that field |
| Form.NoErrorsIffEveryFieldPasses | app/src/main/java/com/example/usermanagement/ui/components/UserForm.kt:81-92 | the map is free of errors exactly when every field's check passes |
| Form.FormAcceptsIffValidatorAccepts | app/src/main/java/com/example/usermanagement/ui/components/UserForm.kt:81-92 | the form shows no error exactly when the user validator accepts the user |
| Form.FormShowsValidatorError | app/src/main/java/com/example/usermanagement/ui/components/UserForm.kt:46-63 | when the validator rejects with a code, the form shows that code's message on that code's field |
| Form.FormIgnoresDobAndAddress | app/src/main/java/com/example/usermanagement/ui/components/UserForm.kt:81-92 | the form's errors never depend on the date of birth or the address |
| Form.UserForm.constructor | app/src/main/java/com/example/usermanagement/ui/components/UserForm.kt:43 | the form starts with the initial user, no errors and no save running |
| Form.UserForm.UpdateField | app/src/main/java/com/example/usermanagement/ui/components/UserForm.kt:65-79 | the field is set, its entry is replaced by its check on the new value, and the updated user is what `onUserChange` receives |
| Form.UserForm.ValidateForm | app/src/main/java/com/example/usermanagement/ui/components/UserForm.kt:81-92 | the errors become one entry per field; the result is true exactly when all entries are null, which is exactly when the validator accepts the user |
| Form.UserForm.ClickSave | app/src/main/java/com/example/usermanagement/ui/components/UserForm.kt:136-145 | ignored while a save runs; otherwise the form is validated, and it submits and sets `isLoading` exactly when the validator accepts the user |
| Form.UpdateKeepsOtherErrors | app/src/main/java/com/example/usermanagement/ui/components/UserForm.kt:73-77 | a field update leaves every other field's entry, or its absence, as it was |

## Left out

- Room, the DAO and SQLite are not modelled; the repository modelled is the in-memory `UserRepository`. The Room table's unique email index is not part of this model.
- Coroutines and flows are not modelled. This covers `viewModelScope.launch`, `StateFlow`, the 300 ms `debounce`, `loadUsers`, `_fetchUsers`, `observeSearch` and `refreshUsers`, and the `loadUsers()` call in each `onSuccess` callback. Launches are modelled as synchronous steps. The `allUsers` collector is `OnAllUsersEmitted`.
- `isValidEmail` is a parameter, since Android's `Patterns.EMAIL_ADDRESS` is not part of this model.
- Localised strings: the validator's messages are their resource identifiers (`Messages.ErrorCode`), not translated text.
- `System.out.println` logging and the private `getCharCodes` debug helper only produce output, and are left out.
- Digits are '0' to '9'. Android's regular expressions are built on ICU, whose `\d` may also accept other Unicode decimal digits in the phone and date patterns, and `toInt()` would parse them; such digits are not modelled.
- Lowercasing is ASCII-only and locale-free, while `toLowerCase()` follows the JVM's default locale and the full Unicode tables.
- Null strings are not modelled; Kotlin strings are non-null. `UserFilter.FilterByLastName` leaves out the null-term branch and the skip of users with a null last name. `UserFilter.FilterByFirstName` leaves out the `NullPointerException` a null term would raise.
- The Compose layout of `UserForm` (text fields, button, progress indicator) is not modelled. `onUserChange` and `onSubmit` are modelled as outputs (the returned user, the `submitted` flag).
- Form.UserForm.ClickSave: `isLoading` is never reset, as in the source; the submission itself is not run.
- Exceptions are `Option<Exception>` parameters (`strategyFault`, `callbackFault`) that stand for what a repository call raises. The in-memory store itself never throws.
- ValidationResults.ValidationError: `error(null)`, an invalid result with a null message, is not modelled. Every modelled invalid result carries a message.
- The Java-style getters of `User` are the record's field selectors.
- The view model's state before its collectors first run is the constructor's state. The `init` block's `loadUsers` and `observeSearch` are left out with the coroutines.
- `UserViewModelFactory` only constructs objects, and is not modelled.
- Repository.InsertThenGet: stated only while the largest id is below `Long.MAX_VALUE`; at that limit the id wraps (`Repository.NextIdWraps`).
- Repository.InsertTwice: stated only while the largest id is below `Long.MAX_VALUE - 1`, for the same reason.
- OperationStrategy.AddTwiceAppendsTwo: stated only while the largest id is below `Long.MAX_VALUE - 1`.
- ViewModel.SuccessfulAddInsertsTwice: stated only while the largest id is below `Long.MAX_VALUE - 1`.
