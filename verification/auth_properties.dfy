/**
 * Properties of sequences of operations: what one operation leaves behind for
 * the next one to see.
 */
module AuthProperties {
  import opened Optional
  import opened CaseFolding
  import opened EmailFormat
  import opened AuthSpec

  /**
   * After a successful registration, logging in with the same password and any
   * spelling of the e-mail that lowers to the same address authenticates as
   * the new account.
   */
  lemma SignUpThenLogin(st: State, hash: Hasher, newId: UserId, email: string)
    requires SignUpStep(st, hash, true, true, newId).errorMessage == Some(RegistrationSuccessful)
    requires Lower(email) == Lower(st.email)
    ensures var st2 := LoginStep(SignUpStep(st, hash, true, true, newId).(email := email), hash, true);
            && st2.isAuthenticated
            && st2.currentUser == Some(Lower(st.email))
            && st2.currentUserID == Some(newId)
            && st2.errorMessage.None?
  {
    var st1 := SignUpStep(st, hash, true, true, newId);
    LowerIsLowercase(email);
    LowerIsLowercase(st.email);
    assert email != "";
    assert CredentialsMatch(st1.(email := email), hash);
  }

  /**
   * Registration is case-insensitive: once an address is registered, a second
   * registration under any spelling that lowers to the same address is
   * refused and the store keeps its one account for that address.
   */
  lemma SecondRegistrationRefused(st: State, hash: Hasher, id1: UserId, id2: UserId, email2: string)
    requires SignUpStep(st, hash, true, true, id1).errorMessage == Some(RegistrationSuccessful)
    requires email2 != "" && MatchesEmailPattern(email2) && Lower(email2) == Lower(st.email)
    ensures var st1 := SignUpStep(st, hash, true, true, id1);
            var st2 := SignUpStep(st1.(email := email2), hash, true, true, id2);
            && st2.errorMessage == Some(EmailAlreadyRegistered)
            && st2.store == st1.store
            && |st2.store| == |st.store| + 1
  {
    var st1 := SignUpStep(st, hash, true, true, id1);
    SignUpStepSpec(st, hash, true, true, id1);
    SignUpStepSpec(st1.(email := email2), hash, true, true, id2);
  }

  /** The addresses of the example below, and what lowering does to them. */
  lemma ExampleAddresses()
    ensures MatchesEmailPattern("A@B.com") && MatchesEmailPattern("a@b.com")
    ensures Lower("A@B.com") == "a@b.com" && Lower("a@b.com") == "a@b.com"
  {
    assert SplitsAt("A@B.com", 1, 3);
    assert SplitsAt("a@b.com", 1, 3);
    var upper, lower := "A@B.com", "a@b.com";
    assert Lower(upper) == lower by {
      assert forall i :: 0 <= i < |upper| ==> LowerChar(upper[i]) == lower[i];
    }
    assert Lower(lower) == lower by {
      assert forall i :: 0 <= i < |lower| ==> LowerChar(lower[i]) == lower[i];
    }
  }

  /**
   * "A@B.com" then "a@b.com" on an empty store: the first registers, the
   * second is refused, and the store holds exactly one account.
   */
  lemma RegisterTwiceDifferentCase(st: State, hash: Hasher, id1: UserId, id2: UserId, password: string)
    requires st.store == map[] && password != ""
    ensures var st1 := SignUpStep(st.(email := "A@B.com", password := password), hash, true, true, id1);
            var st2 := SignUpStep(st1.(email := "a@b.com"), hash, true, true, id2);
            && st1.errorMessage == Some(RegistrationSuccessful)
            && st2.errorMessage == Some(EmailAlreadyRegistered)
            && |st2.store| == 1
  {
    ExampleAddresses();
    var st0 := st.(email := "A@B.com", password := password);
    SignUpStepSpec(st0, hash, true, true, id1);
    SecondRegistrationRefused(st0, hash, id1, id2, "a@b.com");
  }

  /**
   * After a successful password change, the new password logs the current
   * user in, and the old one (when its digest differs) is refused without
   * touching the session.
   */
  lemma ChangePasswordThenLogin(
    st: State, hash: Hasher, currentPassword: string, newPassword: string, confirmPassword: string, email: string)
    requires CurrentUserStored(st)
    requires ChangePasswordStep(st, hash, currentPassword, newPassword, confirmPassword, true).ok
    requires email != "" && Lower(email) == st.currentUser.value
    ensures var st1 := ChangePasswordStep(st, hash, currentPassword, newPassword, confirmPassword, true).state;
            var st2 := LoginStep(st1.(email := email, password := newPassword), hash, true);
            st2.errorMessage.None? && st2.currentUser == st.currentUser
    ensures hash(currentPassword) != hash(newPassword) ==>
            var st1 := ChangePasswordStep(st, hash, currentPassword, newPassword, confirmPassword, true).state;
            var st3 := LoginStep(st1.(email := email, password := currentPassword), hash, true);
            && st3.errorMessage == Some(InvalidEmailOrPassword)
            && st3.isAuthenticated == st1.isAuthenticated
            && st3.currentUser == st1.currentUser
  {
    var st1 := ChangePasswordStep(st, hash, currentPassword, newPassword, confirmPassword, true).state;
    assert st1.store[Lower(email)].passwordHash == hash(newPassword);
  }

  /**
   * A mismatched confirmation is refused and leaves the stored digest alone,
   * so the old password still logs in.
   */
  lemma MismatchedConfirmationKeepsPassword(
    st: State, hash: Hasher, currentPassword: string, newPassword: string, confirmPassword: string,
    saveOk: bool, email: string)
    requires CurrentUserStored(st) && st.currentUser.Some?
    requires currentPassword != "" && newPassword != "" && confirmPassword != ""
    requires st.store[st.currentUser.value].passwordHash == hash(currentPassword)
    requires newPassword != confirmPassword
    requires email != "" && Lower(email) == st.currentUser.value
    ensures var r := ChangePasswordStep(st, hash, currentPassword, newPassword, confirmPassword, saveOk);
            && !r.ok
            && r.state.errorMessage == Some(PasswordsDoNotMatch)
            && r.state.store == st.store
            && LoginStep(r.state.(email := email, password := currentPassword), hash, true).errorMessage.None?
  {
  }

  /** After logging out, a password change is refused for want of a session. */
  lemma LogoutThenChangePassword(
    st: State, hash: Hasher, currentPassword: string, newPassword: string, confirmPassword: string, saveOk: bool)
    ensures var r := ChangePasswordStep(LogoutStep(st), hash, currentPassword, newPassword, confirmPassword, saveOk);
            && !r.ok
            && r.state.errorMessage == Some(NoUserLoggedIn)
            && r.state.store == st.store
  {
  }

  /**
   * A registration whose save fails still leaves the record in the context:
   * a second attempt with the same address is refused as already registered,
   * although nothing was saved.
   */
  lemma FailedSaveStillRegistered(st: State, hash: Hasher, id1: UserId, id2: UserId)
    requires ValidateEmail(st.email) && st.password != ""
    requires Lower(st.email) !in st.store
    ensures var st1 := SignUpStep(st, hash, true, false, id1);
            && st1.errorMessage == Some(CreateAccountFailed)
            && Lower(st.email) in st1.store
            && st1.persisted == st.persisted
            && SignUpStep(st1, hash, true, true, id2).errorMessage == Some(EmailAlreadyRegistered)
  {
    ValidateEmailMatchesPattern(st.email);
  }
}
