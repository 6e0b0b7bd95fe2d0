/**
 * The "send invitation" admin action on users (`invite_user`) and the rule
 * `UserAdmin.save_model` applies to the password of a user created in the admin.
 *
 * The action is all or nothing: it first checks every selected user, in
 * selection order, and stops at the first one that already has a usable
 * password or has no email; only when every user passes does it hand each
 * user's email to the password-reset form and report how many were sent.
 */
module Invitation {
  import opened Wrappers

  /** The parts of a user account the action and the save rule look at. */
  datatype User = User(username: string, email: string, hasUsablePassword: bool)

  /** The message the action leaves for the admin: one of the two errors, or the success
      count. */
  datatype Message =
    | AlreadyHasPassword(username: string)
    | NoEmail(username: string)
    | EmailsSent(count: nat)
  {
    predicate IsError() { !EmailsSent? }
  }

  /** The error one user raises, if any: the usable-password test comes before the email
      test. */
  function Offence(u: User): (m: Option<Message>)
    ensures u.hasUsablePassword ==> m == Some(AlreadyHasPassword(u.username))
    ensures !u.hasUsablePassword && u.email == "" ==> m == Some(NoEmail(u.username))
    ensures !u.hasUsablePassword && u.email != "" ==> m == None
  {
    if u.hasUsablePassword then Some(AlreadyHasPassword(u.username))
    else if u.email == "" then Some(NoEmail(u.username))
    else None
  }

  /** The error of the first offending user in selection order, if any. */
  function FirstOffence(users: seq<User>): (m: Option<Message>)
    ensures m.None? <==> forall i :: 0 <= i < |users| ==> Offence(users[i]).None?
    ensures m.Some? ==>
      exists i :: 0 <= i < |users| && Offence(users[i]) == m &&
        forall j :: 0 <= j < i ==> Offence(users[j]).None?
  {
    if users == [] then None
    else if Offence(users[0]).Some? then Offence(users[0])
    else
      var rest := FirstOffence(users[1..]);
      assert forall i :: 0 < i < |users| ==> users[i] == users[1..][i - 1];
      rest
  }

  /** The action: returns the message it leaves and the emails it hands to the
      password-reset form, in the order they are handed over. */
  method InviteUsers(users: seq<User>) returns (message: Message, requested: seq<string>)
    ensures FirstOffence(users).Some? ==> message == FirstOffence(users).value && requested == []
    ensures FirstOffence(users).None? ==>
      message == EmailsSent(|users|) &&
      |requested| == |users| &&
      forall i :: 0 <= i < |users| ==> requested[i] == users[i].email
    ensures message.IsError() <==> exists i :: 0 <= i < |users| && Offence(users[i]).Some?
  {
    var i := 0;
    while i < |users|
      invariant 0 <= i <= |users|
      invariant forall j :: 0 <= j < i ==> Offence(users[j]).None?
    {
      var user := users[i];
      if user.hasUsablePassword {
        return AlreadyHasPassword(user.username), [];
      } else if user.email == "" {
        return NoEmail(user.username), [];
      }
      i := i + 1;
    }
    requested := [];
    i := 0;
    while i < |users|
      invariant 0 <= i <= |users|
      invariant |requested| == i
      invariant forall j :: 0 <= j < i ==> requested[j] == users[j].email
    {
      requested := requested + [users[i].email];
      i := i + 1;
    }
    message := EmailsSent(|users|);
  }

  /** `UserAdmin.save_model`: the user as saved. A user being added (not changed) whose
      first password field is empty, or whose password is not usable, is saved with an
      unusable password; otherwise the user is saved as given. */
  function SaveModel(u: User, change: bool, password1: string): (saved: User)
    ensures saved.username == u.username && saved.email == u.email
    ensures !change && (password1 == "" || !u.hasUsablePassword) ==> !saved.hasUsablePassword
    ensures saved.hasUsablePassword ==> u.hasUsablePassword
    ensures change || password1 != "" ==> saved == u
  {
    if !change && (password1 == "" || !u.hasUsablePassword) then u.(hasUsablePassword := false)
    else u
  }

  /** A user added through the user admin's add form without a password, and with an email, can
      then be invited. */
  lemma AddedWithoutPasswordIsInvitable(u: User)
    requires u.email != ""
    ensures Offence(SaveModel(u, false, "")).None?
  {
  }
}
