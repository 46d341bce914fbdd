/**
 * `AuthenticationViewModel`: the observable fields the UI binds to, updated in
 * place by `SignUp`, `Login`, `ChangePassword` and `Logout`. Each method is
 * proved to produce exactly the state the matching transition of `AuthSpec`
 * describes, and to keep `AuthSpec.WellFormed`.
 */
module AuthenticationVM {
  import opened Optional
  import opened CaseFolding
  import opened EmailFormat
  import opened AuthSpec

  class AuthenticationViewModel {
    var email: string
    var password: string
    var isAuthenticated: bool
    var errorMessage: Option<Message>
    /** The key of the logged-in user's record in `store`. */
    var currentUser: Option<string>
    var currentUserID: Option<UserId>

    /** The managed object context's `User` records, unsaved changes included. */
    var store: Store
    /** The records as of the last successful save. */
    var persisted: Store

    /** The password digest function. */
    const hash: Hasher

    /** All fields as one `AuthSpec.State`. */
    function Snapshot(): State
      reads this
    {
      State(email, password, isAuthenticated, errorMessage, currentUser, currentUserID, store, persisted)
    }

    ghost predicate Valid()
      reads this
    {
      WellFormed(Snapshot())
    }

    /** `init(context:)` over a store whose records are well-formed. */
    constructor (context: Store, hash: Hasher)
      requires StoreValid(context)
      ensures Valid()
      ensures Snapshot() == Initial(context) && this.hash == hash
    {
      email, password := "", "";
      isAuthenticated := false;
      errorMessage := None;
      currentUser, currentUserID := None, None;
      store, persisted := context, context;
      this.hash := hash;
      InitialWellFormed(context);
    }

    /** `signUp()`; `newId` is the UUID drawn for the new record. */
    method SignUp(fetchOk: bool, saveOk: bool, newId: UserId)
      requires Valid()
      requires newId !in UserIds(store)
      modifies this
      ensures Valid()
      ensures Snapshot() == SignUpStep(old(Snapshot()), hash, fetchOk, saveOk, newId)
    {
      SignUpPreservesWellFormed(Snapshot(), hash, fetchOk, saveOk, newId);
      errorMessage := None;
      if email == "" || password == "" {
        errorMessage := Some(EnterEmailAndPassword);
        return;
      }
      if !ValidateEmail(email) {
        errorMessage := Some(InvalidEmailFormat);
        return;
      }
      if !fetchOk {
        errorMessage := Some(CreateAccountFailed);
        return;
      }
      var key := Lower(email);
      if key !in store {
        store := store[key := Account(newId, key, hash(password), false)];
        if !saveOk {
          errorMessage := Some(CreateAccountFailed);
          return;
        }
        persisted := store;
        errorMessage := Some(RegistrationSuccessful);
        currentUser := None;
        isAuthenticated := false;
        currentUserID := None;
      } else {
        errorMessage := Some(EmailAlreadyRegistered);
      }
    }

    /** `login()`. */
    method Login(fetchOk: bool)
      requires Valid()
      modifies this
      ensures Valid()
      ensures Snapshot() == LoginStep(old(Snapshot()), hash, fetchOk)
    {
      LoginPreservesWellFormed(Snapshot(), hash, fetchOk);
      errorMessage := None;
      if email == "" || password == "" {
        errorMessage := Some(FillInAllFields);
        return;
      }
      if !fetchOk {
        errorMessage := Some(LoginInternalError);
        return;
      }
      var key := Lower(email);
      if key in store {
        var user := store[key];
        if user.passwordHash == hash(password) {
          currentUser := Some(key);
          isAuthenticated := true;
          errorMessage := None;
          currentUserID := Some(user.userId);
        } else {
          errorMessage := Some(InvalidEmailOrPassword);
        }
      } else {
        errorMessage := Some(UserNotFound);
      }
    }

    /** `changePassword(currentPassword:newPassword:confirmPassword:)`. */
    method ChangePassword(currentPassword: string, newPassword: string, confirmPassword: string, saveOk: bool)
      returns (ok: bool)
      requires Valid()
      modifies this
      ensures Valid()
      ensures var r := ChangePasswordStep(old(Snapshot()), hash, currentPassword, newPassword, confirmPassword, saveOk);
              Snapshot() == r.state && ok == r.ok
    {
      ChangePasswordPreservesWellFormed(Snapshot(), hash, currentPassword, newPassword, confirmPassword, saveOk);
      errorMessage := None;
      if currentUser.None? {
        errorMessage := Some(NoUserLoggedIn);
        return false;
      }
      var key := currentUser.value;
      if currentPassword == "" || newPassword == "" || confirmPassword == "" {
        errorMessage := Some(FillInAllFields);
        return false;
      }
      var currentHash := hash(currentPassword);
      if store[key].passwordHash != currentHash {
        errorMessage := Some(CurrentPasswordIncorrect);
        return false;
      }
      if newPassword != confirmPassword {
        errorMessage := Some(PasswordsDoNotMatch);
        return false;
      }
      if |newPassword| < MinPasswordLength {
        errorMessage := Some(PasswordTooShort);
        return false;
      }
      // the record is updated in the context before the save is attempted
      store := store[key := store[key].(passwordHash := hash(newPassword))];
      if saveOk {
        persisted := store;
        password := "";
        return true;
      } else {
        errorMessage := Some(UpdatePasswordFailed);
        return false;
      }
    }

    /** `logout()`. */
    method Logout()
      requires Valid()
      modifies this
      ensures Valid()
      ensures Snapshot() == LogoutStep(old(Snapshot()))
    {
      LogoutPreservesWellFormed(Snapshot());
      isAuthenticated := false;
      currentUser := None;
      currentUserID := None;
      email := "";
      password := "";
    }
  }
}
