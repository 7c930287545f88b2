/** The profile settings dialog (src/components/ProfileSettingsDialog.tsx):
    controlled or uncontrolled visibility, the display-name sync, and the
    three account actions with their guards and busy flags. */
module ProfileSettings {
  import opened Wrappers

  /** What the dialog reads of the signed-in user. */
  datatype User = User(id: string, email: Option<string>, displayName: Option<string>)

  /** The requests the dialog sends to the authentication service. */
  datatype AuthRequest =
    | UpdateDisplayName(name: string)
    | SendReset(email: string, redirectTo: string)
    | UpdatePassword(password: string)

  const ResetRedirect: string := "https://styleincheck.vercel.app/auth"
  const MinPasswordLength: nat := 6
  const TryAgainText: string := "Try again."

  /** The password rule: neither empty nor shorter than six characters. */
  predicate AcceptablePassword(p: string) {
    p != "" && |p| >= MinPasswordLength
  }

  /** The emptiness test is implied by the length test. */
  lemma AcceptablePasswordIsLength(p: string)
    ensures AcceptablePassword(p) <==> |p| >= MinPasswordLength
  {
  }

  /** `err.message || "Try again."`: the service's message unless it is
      missing or empty. */
  function FailureText(m: Option<string>): (r: string)
    ensures r != ""
    ensures Truthy(m) ==> r == m.value
    ensures !Truthy(m) ==> r == TryAgainText
  {
    if Truthy(m) then m.value else TryAgainText
  }

  /** The name shown when the dialog opens: the stored display name, or ""
      when there is no user or no non-empty name. */
  function CurrentName(user: Option<User>): (r: string)
    ensures user.Some? && Truthy(user.value.displayName) ==> r == user.value.displayName.value
    ensures !(user.Some? && Truthy(user.value.displayName)) ==> r == ""
  {
    match user
    case None => ""
    case Some(u) => if Truthy(u.displayName) then u.displayName.value else ""
  }

  /** The dialog's state. `controlledOpen` is the `open` property (None when
      the parent leaves it out); `forwardsChanges` says whether the parent
      passed `onOpenChange`. */
  class ProfileDialog {
    const controlledOpen: Option<bool>
    const forwardsChanges: bool
    var uncontrolledOpen: bool
    var displayName: string
    var updatingName: bool
    var sendingReset: bool
    var changingPassword: bool
    var newPassword: string

    constructor (controlledOpen: Option<bool>, forwardsChanges: bool)
      ensures this.controlledOpen == controlledOpen && this.forwardsChanges == forwardsChanges
      ensures !uncontrolledOpen && displayName == "" && newPassword == ""
      ensures !updatingName && !sendingReset && !changingPassword
    {
      this.controlledOpen := controlledOpen;
      this.forwardsChanges := forwardsChanges;
      uncontrolledOpen := false;
      displayName := "";
      updatingName := false;
      sendingReset := false;
      changingPassword := false;
      newPassword := "";
    }

    /** Whether the dialog is shown: the parent's value when it gives one,
        the dialog's own otherwise. */
    function Open(): (r: bool)
      reads this
      ensures controlledOpen.Some? ==> r == controlledOpen.value
      ensures controlledOpen.None? ==> r == uncontrolledOpen
    {
      match controlledOpen
      case Some(v) => v
      case None => uncontrolledOpen
    }

    /** handleOpenChange: the own state follows only when uncontrolled; the
        value is handed to the parent whenever it listens. */
    method HandleOpenChange(value: bool) returns (forwarded: Option<bool>)
      modifies this`uncontrolledOpen
      ensures controlledOpen.None? ==> uncontrolledOpen == value && Open() == value
      ensures controlledOpen.Some? ==> uncontrolledOpen == old(uncontrolledOpen) && Open() == old(Open())
      ensures forwarded == if forwardsChanges then Some(value) else None
    {
      if controlledOpen.None? {
        uncontrolledOpen := value;
      }
      forwarded := if forwardsChanges then Some(value) else None;
    }

    /** The effect that runs when `open` or the user changes: an open dialog
        shows the stored display name; a closed one keeps the field. */
    method SyncDisplayName(user: Option<User>)
      modifies this`displayName
      ensures Open() ==> displayName == CurrentName(user)
      ensures !Open() ==> displayName == old(displayName)
    {
      if Open() {
        displayName := CurrentName(user);
      }
    }

    /** handleSaveDisplayName: nothing without a user; otherwise the name
        field is sent, and the busy flag ends false whatever the answer.
        Returns the request and the failure text shown, if any. */
    method SaveDisplayName(user: Option<User>, response: Outcome)
      returns (request: Option<AuthRequest>, failure: Option<string>)
      modifies this`updatingName
      ensures user.None? ==> request.None? && failure.None? && updatingName == old(updatingName)
      ensures user.Some? ==> request == Some(UpdateDisplayName(displayName)) && !updatingName
      ensures user.Some? && response.Done? ==> failure.None?
      ensures user.Some? && response.Failed? ==> failure == Some(FailureText(response.message))
    {
      if user.None? {
        return None, None;
      }
      updatingName := true;
      request := Some(UpdateDisplayName(displayName));
      failure := if response.Failed? then Some(FailureText(response.message)) else None;
      updatingName := false;
    }

    /** handleSendPasswordReset: nothing without a user or without a
        non-empty email; otherwise a reset mail to that address with the
        fixed redirect, and the busy flag ends false. */
    method SendPasswordReset(user: Option<User>, response: Outcome)
      returns (request: Option<AuthRequest>, failure: Option<string>)
      modifies this`sendingReset
      ensures !(user.Some? && Truthy(user.value.email)) ==>
        request.None? && failure.None? && sendingReset == old(sendingReset)
      ensures user.Some? && Truthy(user.value.email) ==>
        request == Some(SendReset(user.value.email.value, ResetRedirect)) && !sendingReset
        && failure == (if response.Failed? then Some(FailureText(response.message)) else None)
    {
      if !(user.Some? && Truthy(user.value.email)) {
        return None, None;
      }
      sendingReset := true;
      request := Some(SendReset(user.value.email.value, ResetRedirect));
      failure := if response.Failed? then Some(FailureText(response.message)) else None;
      sendingReset := false;
    }

    /** handleChangePassword: a short or empty password is refused without a
        request; otherwise it is sent, the field is cleared only on success,
        and the busy flag ends false. */
    method ChangePassword(response: Outcome) returns (request: Option<AuthRequest>, failure: Option<string>)
      modifies this`changingPassword, this`newPassword
      ensures !AcceptablePassword(old(newPassword)) ==>
        request.None? && failure.None?
        && newPassword == old(newPassword) && changingPassword == old(changingPassword)
      ensures AcceptablePassword(old(newPassword)) ==>
        request == Some(UpdatePassword(old(newPassword))) && !changingPassword
      ensures AcceptablePassword(old(newPassword)) && response.Done? ==> newPassword == "" && failure.None?
      ensures AcceptablePassword(old(newPassword)) && response.Failed? ==>
        newPassword == old(newPassword) && failure == Some(FailureText(response.message))
    {
      if !AcceptablePassword(newPassword) {
        return None, None;
      }
      changingPassword := true;
      request := Some(UpdatePassword(newPassword));
      if response.Done? {
        newPassword := "";
        failure := None;
      } else {
        failure := Some(FailureText(response.message));
      }
      changingPassword := false;
    }
  }
}
