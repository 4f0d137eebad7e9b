/** The change-password form: submits are ignored while one is in flight,
    the checks run in a fixed order and the first failure is shown, and a
    successful change empties the form. */
module ChangePassword {
  import opened Wrappers
  import opened Text

  const FieldsRequired := "All fields are required"
  const TooShort := "New password must be at least 8 characters"
  const Mismatch := "New password and confirm password do not match"
  const NotLoggedIn := "You are not logged in"
  const Updated := "Password updated"
  const UpdateFailed := "Failed to update password"

  /** The checks of `submit` in their order: the message of the first that
      fails, None when all pass. Only the length of the new password is
      checked, in UTF-16 code units as `length` counts them. */
  function ChangeFailure(current: string, next: string, confirm: string, token: string): Option<string> {
    if current == "" || next == "" || confirm == "" then Some(FieldsRequired)
    else if Utf16Length(next) < 8 then Some(TooShort)
    else if next != confirm then Some(Mismatch)
    else if token == "" then Some(NotLoggedIn)
    else None
  }

  /** Each message is reported exactly when its check fails and every
      earlier check passes, and all pass only when every condition holds. */
  lemma ChangeFailureSpec(current: string, next: string, confirm: string, token: string)
    ensures var f := ChangeFailure(current, next, confirm, token);
      && (f == Some(FieldsRequired) <==> current == [] || next == [] || confirm == [])
      && (f == Some(TooShort) <==> current != [] && confirm != [] && next != [] && Utf16Length(next) < 8)
      && (f == Some(Mismatch) <==> current != [] && confirm != [] && Utf16Length(next) >= 8 && next != confirm)
      && (f == Some(NotLoggedIn) <==> current != [] && Utf16Length(next) >= 8 && next == confirm && token == [])
      && (f == None <==> current != [] && Utf16Length(next) >= 8 && next == confirm && token != [])
  {}

  /** Any eight code units are enough: no letter or digit is required. */
  lemma LengthIsEnough(current: string, next: string, token: string)
    requires current != [] && Utf16Length(next) >= 8 && token != []
    ensures ChangeFailure(current, next, next, token).None?
  {}

  /** A confirmed new password of four or more characters beyond U+FFFF
      passes the length check, however few characters it has: each counts
      as two code units. */
  lemma AstralCharsLongEnough(current: string, next: string, token: string)
    requires current != [] && token != [] && |next| >= 4
    requires forall i :: 0 <= i < |next| ==> next[i] as int > 0xFFFF
    ensures Utf16Length(next) == 2 * |next|
    ensures ChangeFailure(current, next, next, token).None?
  {
    Utf16LengthAstral(next);
    assert next != [] && !(Utf16Length(next) < 8);
  }

  /** What `changePassword` is called with. */
  datatype ChangeRequest = ChangeRequest(currentPassword: string, newPassword: string, token: string)

  /** The form's state: the three fields, the show-passwords toggle and the
      loading flag. */
  class ChangePasswordForm {
    var currentPassword: string
    var newPassword: string
    var confirmPassword: string
    var show: bool
    var loading: bool

    /** The initial state, which is also the state a success resets to. */
    predicate Blank()
      reads this
    {
      currentPassword == "" && newPassword == "" && confirmPassword == "" && !show
    }

    constructor()
      ensures Blank() && !loading
    {
      currentPassword, newPassword, confirmPassword := "", "", "";
      show, loading := false, false;
    }

    /** `update(patch)`: the fields the patch names take its values, the
      rest stay. */
    method Update(current: Option<string>, next: Option<string>, confirm: Option<string>, show': Option<bool>)
      modifies this
      ensures currentPassword == current.GetOr(old(currentPassword))
      ensures newPassword == next.GetOr(old(newPassword))
      ensures confirmPassword == confirm.GetOr(old(confirmPassword))
      ensures show == show'.GetOr(old(show))
      ensures loading == old(loading)
    {
      if current.Some? { currentPassword := current.value; }
      if next.Some? { newPassword := next.value; }
      if confirm.Some? { confirmPassword := confirm.value; }
      if show'.Some? { show := show'.value; }
    }

    /** `submit`, with the stored token read by the caller: while loading it
      does nothing; otherwise the first failed check's message is the toast,
      or loading starts and `changePassword` is asked for with the current
      and new passwords and the token. */
    method Submit(token: string) returns (request: Option<ChangeRequest>, toast: Option<string>)
      modifies this
      ensures old(loading) ==> request.None? && toast.None? && loading
      ensures !old(loading) ==> toast == ChangeFailure(currentPassword, newPassword, confirmPassword, token)
      ensures !old(loading) && toast.Some? ==> request.None? && !loading
      ensures !old(loading) && toast.None? ==>
        request == Some(ChangeRequest(currentPassword, newPassword, token)) && loading
      ensures currentPassword == old(currentPassword) && newPassword == old(newPassword)
      ensures confirmPassword == old(confirmPassword) && show == old(show)
    {
      if loading {
        return None, None;
      }
      if currentPassword == "" || newPassword == "" || confirmPassword == "" {
        return None, Some(FieldsRequired);
      }
      if Utf16Length(newPassword) < 8 {
        return None, Some(TooShort);
      }
      if newPassword != confirmPassword {
        return None, Some(Mismatch);
      }
      if token == "" {
        return None, Some(NotLoggedIn);
      }
      loading := true;
      request := Some(ChangeRequest(currentPassword, newPassword, token));
      toast := None;
    }

    /** The end of the `changePassword` call: on success the form is reset
      and "Password updated" shown; on failure its message (or the default)
      is shown and the fields stay. Loading stops either way. */
    method Settled(failure: Option<string>) returns (toast: string)
      modifies this
      ensures failure.None? ==> Blank() && toast == Updated
      ensures failure.Some? ==> toast == (if failure.value != "" then failure.value else UpdateFailed)
      ensures failure.Some? ==>
        currentPassword == old(currentPassword) && newPassword == old(newPassword) &&
        confirmPassword == old(confirmPassword) && show == old(show)
      ensures !loading
    {
      if failure.None? {
        currentPassword, newPassword, confirmPassword, show := "", "", "", false;
        toast := Updated;
      } else {
        toast := if failure.value != "" then failure.value else UpdateFailed;
      }
      loading := false;
    }
  }

  /** A second submit while the first is in flight sends nothing, whatever
      the fields hold. */
  method DoubleSubmit(f: ChangePasswordForm, token: string) returns (first: Option<ChangeRequest>, second: Option<ChangeRequest>)
    modifies f
    requires !f.loading && ChangeFailure(f.currentPassword, f.newPassword, f.confirmPassword, token).None?
    ensures first.Some? && second.None?
  {
    var toast;
    first, toast := f.Submit(token);
    second, toast := f.Submit(token);
  }
}
