# DriveBuddy authentication gate, modelled in Dafny

This project models `AuthenticationViewModel` from DriveBuddy. It is the
app's local credential gate. It registers an account under a lower-cased e-mail
with a SHA-256 digest of the password, logs in by looking the account up and
comparing digests, changes the password of the logged-in user, and logs out.
Its observable fields are `email`, `password`, `isAuthenticated`,
`errorMessage`, `currentUser` and `currentUserID`. The UI binds to these fields.

Files:

- `optional.dfy`: `Option`, standing for Swift optionals.
- `case_folding.dfy`: `Lower`, which lower-cases e-mails (ASCII letters only).
- `email_format.dfy`: `validateEmail`. `MatchesEmailPattern` states the
  language of the regular expression `[A-Z0-9a-z._%+-]+@[A-Za-z0-9.-]+\.[A-Za-z]{2,}`
  as a split into local part, `@`, host, `.` and top-level domain.
  `ValidateEmail` decides it by finding the first `@` and the last `.`. A lemma
  proves that the two agree on every string.
- `auth_spec.dfy`: the state machine as pure transitions over `State`, which
  holds the view model's fields together with the record store.
  - The store is a map from lower-cased e-mail to `Account`. It is the Core Data
    context's view, unsaved changes included. `persisted` holds what the last
    successful save committed.
  - The current user is kept as its key in the store, so updating the stored
    record updates the current user.
  - `WellFormed` is the invariant that every operation keeps:
    - every record sits under its own e-mail, which is lower-case;
    - identifiers are unique;
    - the session fields agree with each other.
- `auth_properties.dfy`: properties of sequences of operations, for example
  registering and then logging in, or changing the password and then logging in.
- `authentication_vm.dfy`: the class `AuthenticationViewModel`. Its fields are
  updated in place by `SignUp`, `Login`, `ChangePassword` and `Logout`. Each
  method is proved to reach exactly the state of the matching transition and to
  keep the invariant.

The following come from outside the model and are passed in as parameters:

- whether a fetch or a save succeeds;
- the UUID of a new account;
- the digest function (the class constant `hash`). Nothing is assumed about it.

## Model

| member | source | states |
|---|---|---|
| `EmailFormat.ValidateEmailMatchesPattern` | DriveBuddy/ViewModel/AuthenticationVM.swift:125-129 | `ValidateEmail(s)` holds exactly when the whole of `s` is one or more of `[A-Za-z0-9._%+-]`, then `@`, then one or more of `[A-Za-z0-9.-]`, then `.`, then two or more ASCII letters |
| `EmailFormat.FirstIndexOfSpec` | DriveBuddy/ViewModel/AuthenticationVM.swift:126 | the search for the `@` that ends the local part finds an `@` with none before it, or reports that there is none |
| `EmailFormat.LastIndexOfSpec` | DriveBuddy/ViewModel/AuthenticationVM.swift:126 | the search for the `.` that starts the top-level domain finds a `.` with none after it, or reports that there is none |
| `EmailFormat.PatternAccepts` | DriveBuddy/ViewModel/AuthenticationVM.swift:126 | `a@b.com` and `A.B-c@mail.example.io` match the pattern |
| `EmailFormat.PatternRejects` | DriveBuddy/ViewModel/AuthenticationVM.swift:126 | `not-an-email` (no `@`) and `a@b.c` (one-letter top-level domain) do not match the pattern |
| `EmailFormat.NoAtSignNoMatch` | DriveBuddy/ViewModel/AuthenticationVM.swift:126 | a string without `@` never matches the e-mail pattern |
| `EmailFormat.LowerPreservesEmailPattern` | DriveBuddy/ViewModel/AuthenticationVM.swift:36-51 | an address that passed the format check is still well-formed after lower-casing, so every e-mail signUp stores is well-formed |
| `CaseFolding.LowerIsLowercase` | DriveBuddy/ViewModel/AuthenticationVM.swift:51 | a lowered e-mail has the same length and contains no upper-case letter |
| `CaseFolding.LowerFixesLowercase` | DriveBuddy/ViewModel/AuthenticationVM.swift:84 | lowering an already lower-case e-mail, such as a stored one, returns it unchanged (used by `AuthSpec.LoginWithStoredEmail`) |
| `CaseFolding.LowerIdempotent` | DriveBuddy/ViewModel/AuthenticationVM.swift:42-51 | lowering an e-mail twice gives the same key as lowering it once |
| `AuthSpec.Initial` | DriveBuddy/ViewModel/AuthenticationVM.swift:14-25 | a new view model has empty inputs, no error, no session, and the context's records |
| `AuthSpec.InitialWellFormed` | DriveBuddy/ViewModel/AuthenticationVM.swift:23-25 | a new view model over well-formed records satisfies the invariant |
| `AuthSpec.SignUpStepSpec` | DriveBuddy/ViewModel/AuthenticationVM.swift:28-71 | signUp checks in this order: empty fields, then e-mail format, then fetch, then an existing account; the first failure decides the message, and a failed fetch or a failed save gives the account-creation error. A refusal or a failed fetch changes only `errorMessage`. Existing accounts are never overwritten, and the store gains at most the one new account, whose e-mail is lower-case and well-formed. Success adds exactly `Account(newId, lower(email), hash(password), false)`, saves, and clears `isAuthenticated`, `currentUser` and `currentUserID`. A failed save leaves the insert in the context but not in `persisted`. The inputs are never changed |
| `AuthSpec.SignUpPreservesWellFormed` | DriveBuddy/ViewModel/AuthenticationVM.swift:41-56 | given a fresh identifier, signUp keeps every record under its own lower-case e-mail, keeps identifiers unique, and keeps the session consistent |
| `AuthSpec.InsertPreservesStoreValid` | DriveBuddy/ViewModel/AuthenticationVM.swift:47-53 | inserting a record under a new lower-case e-mail with an unused identifier keeps the store invariant |
| `AuthSpec.LoginStep` | DriveBuddy/ViewModel/AuthenticationVM.swift:75-122 | login succeeds (no error) exactly when: both fields are non-empty, the fetch succeeds, an account is stored under `lower(email)`, and its digest equals `hash(password)`. Success authenticates as that account, setting its key and its id. Empty fields, a failed fetch, an unknown user and a wrong password each give their own message and change nothing else, so an earlier session survives. The store is never changed |
| `AuthSpec.LoginWithStoredEmail` | DriveBuddy/ViewModel/AuthenticationVM.swift:84-104 | logging in with an account's own stored e-mail and a password whose digest matches finds that account and authenticates as it |
| `AuthSpec.LoginPreservesWellFormed` | DriveBuddy/ViewModel/AuthenticationVM.swift:96-104 | login keeps the invariant; the session it sets names a stored account and that account's id |
| `AuthSpec.ChangePasswordStep` | DriveBuddy/ViewModel/AuthenticationVM.swift:132-183 | returns true exactly when all of these hold, checked in this order: a user is logged in, all three inputs are non-empty, `hash(current)` equals the stored digest, `new == confirm`, `|new| >= 6`, and the save succeeds. Each of the first five checks has its own message and changes nothing else. Past them, the stored digest becomes `hash(new)` even if the save then fails. On true, the change is persisted and `password` is cleared. On a failed save, `persisted` keeps the old digest and the message is set |
| `AuthSpec.ChangePasswordPreservesWellFormed` | DriveBuddy/ViewModel/AuthenticationVM.swift:172 | overwriting the digest keeps every record's e-mail and identifier, so the invariant holds |
| `AuthSpec.LogoutStep` | DriveBuddy/ViewModel/AuthenticationVM.swift:186-192 | logout always clears the session and the `email`/`password` inputs, and leaves `errorMessage` and the store unchanged |
| `AuthSpec.LogoutPreservesWellFormed` | DriveBuddy/ViewModel/AuthenticationVM.swift:186-192 | logout keeps the invariant |
| `AuthProperties.SignUpThenLogin` | DriveBuddy/ViewModel/AuthenticationVM.swift:47-104 | after a successful registration, logging in with the same password and any e-mail that lowers to the same address authenticates as the new account, with its new id |
| `AuthProperties.SecondRegistrationRefused` | DriveBuddy/ViewModel/AuthenticationVM.swift:41-67 | once an address is registered, a registration under any spelling that lowers to it is refused, and the store keeps its size |
| `AuthProperties.RegisterTwiceDifferentCase` | DriveBuddy/ViewModel/AuthenticationVM.swift:41-67 | on an empty store, `A@B.com` registers, then `a@b.com` is refused as already registered, and the store holds exactly one account |
| `AuthProperties.ChangePasswordThenLogin` | DriveBuddy/ViewModel/AuthenticationVM.swift:153-178 | after a successful change, the new password logs the same user in. The old password, when its digest differs, is refused as invalid and leaves the session as it was |
| `AuthProperties.MismatchedConfirmationKeepsPassword` | DriveBuddy/ViewModel/AuthenticationVM.swift:160-163 | a mismatched confirmation returns false with its own message, leaves the store unchanged, and the old password still logs in |
| `AuthProperties.LogoutThenChangePassword` | DriveBuddy/ViewModel/AuthenticationVM.swift:139-142 | after logout, changePassword returns false with "no user logged in" and leaves the store alone |
| `AuthProperties.FailedSaveStillRegistered` | DriveBuddy/ViewModel/AuthenticationVM.swift:47-70 | when the save of a registration fails, the record stays in the context but is not persisted, and a retry with the same address is refused as already registered |
| `AuthenticationVM.AuthenticationViewModel.constructor` | DriveBuddy/ViewModel/AuthenticationVM.swift:14-25 | the fields start empty and unauthenticated over the given context, and the invariant holds |
| `AuthenticationVM.AuthenticationViewModel.SignUp` | DriveBuddy/ViewModel/AuthenticationVM.swift:28-71 | the fields after the call are exactly `SignUpStep` of the fields before it, and the invariant is kept |
| `AuthenticationVM.AuthenticationViewModel.Login` | DriveBuddy/ViewModel/AuthenticationVM.swift:75-122 | the fields after the call are exactly `LoginStep` of the fields before it, and the invariant is kept |
| `AuthenticationVM.AuthenticationViewModel.ChangePassword` | DriveBuddy/ViewModel/AuthenticationVM.swift:132-183 | the fields after the call and the returned boolean are exactly those of `ChangePasswordStep`, and the invariant is kept |
| `AuthenticationVM.AuthenticationViewModel.Logout` | DriveBuddy/ViewModel/AuthenticationVM.swift:186-192 | the fields after the call are exactly `LogoutStep` of the fields before it, and the invariant is kept |

## Left out

- Core Data (`NSManagedObjectContext`, `NSFetchRequest`, `NSPredicate`, `save`) is not modelled as such. The context is a map keyed by the lower-cased e-mail. Whether a fetch or a save succeeds is a boolean parameter. The store's own commit and rollback semantics are not modelled.
- A failed save in `signUp` (lines 56, 68-69) could be expected to leave no account behind. The code as written does not remove the inserted object, and fetches see unsaved objects. The model follows the code: the record stays in `store` but not in `persisted` (`AuthProperties.FailedSaveStillRegistered`).
- `hash` (lines 195-199) is CryptoKit SHA-256 with `%02x` hex rendering. It is modelled as the class constant `hash: Hasher`, and nothing is assumed about it. Its 64-character output, collision resistance and one-wayness are not modelled. Determinism holds because it is a function.
- `UUID()` (line 48) is the parameter `newId`. `SignUp` requires it not to be in use, which stands for UUID uniqueness. `uuidString` rendering is not modelled, and the optional Core Data attributes `user_id`, `email` and `password_hash` are always present in the model. In the source, a nil `password_hash` would make the comparison at line 96 (and at line 154) fail; the model has no such record.
- `Date()` and the `created_at` field (line 54) are left out.
- Error texts are an enum with one constructor per distinct text. The `localizedDescription` appended to the "Error creating account" and "Failed to update password" messages is dropped.
- `print` (line 119) is left out.
- `@MainActor`, `@Published`, `ObservableObject`, Combine and SwiftUI are UI-binding and threading machinery and are left out.
- `lowercased()` is modelled as lowering ASCII letters only. This is exact for every address the format check accepts, because those are all ASCII, so every stored key is exact. For login input with non-ASCII letters, Unicode lowering (for example of the Kelvin sign) can differ.
- `String.count` (line 166) counts grapheme clusters. It is modelled as sequence length. Swift string equality uses canonical equivalence; the model uses plain sequence equality.
- `users.first` (line 91): the model's store holds at most one record per e-mail, so the first record is the only one.
- The constructor requires the context's records to be well-formed: each under its own lower-case e-mail, with unique identifiers. Records written by code outside this class are not covered.
