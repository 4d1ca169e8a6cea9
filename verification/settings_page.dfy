/** The administrator's settings form: the e-mail field filled from the
    signed-in user, the password confirmation check, the request body, and
    the form after the server answers. */
module SettingsPage {
  import opened Common
  import AuthContext
  import Store
  import Secrets
  import Routes
  import AdminController

  datatype Message = Success(text: string) | Failure(text: string)

  datatype Form = Form(email: string, newPassword: string, confirmPassword: string, message: Option<Message>,
                       updating: bool)

  /** The effect on the signed-in user: the e-mail field takes the user's
      address; without a user nothing changes. */
  function WithUser(f: Form, user: Option<AuthContext.User>): (f': Form)
    ensures user.Some? ==> f'.email == user.value.email && f' == f.(email := f'.email)
    ensures user.None? ==> f' == f
  {
    match user
    case Some(u) => f.(email := u.email)
    case None => f
  }

  /** What submitting the form does. */
  datatype Submission = Refused(form: Form) | Sent(form: Form, payload: map<string, string>)

  /** `handleUpdateProfile` up to the request: a typed password that differs
      from its confirmation is refused with no request; otherwise the body
      always carries the e-mail and carries the password only when one was
      typed. */
  function Submit(f: Form): (o: Submission)
    ensures o.Refused? <==> f.newPassword != "" && f.newPassword != f.confirmPassword
    ensures o.Refused? ==> o.form == f.(message := Some(Failure("Passwords do not match")))
    ensures o.Sent? ==> o.form == f.(updating := true, message := None)
    ensures o.Sent? ==> o.payload.Keys <= {"email", "newPassword"} && "email" in o.payload
                        && o.payload["email"] == f.email
    ensures o.Sent? ==> ("newPassword" in o.payload <==> f.newPassword != "")
    ensures o.Sent? && "newPassword" in o.payload ==> o.payload["newPassword"] == f.newPassword
  {
    if f.newPassword != "" && f.newPassword != f.confirmPassword then
      Refused(f.(message := Some(Failure("Passwords do not match"))))
    else
      var body := if f.newPassword != "" then map["email" := f.email, "newPassword" := f.newPassword]
                  else map["email" := f.email];
      Sent(f.(updating := true, message := None), body)
  }

  /** The form once the server has answered: `None` for success, else the
      error's message ("" when it has none). Success clears both password
      fields; failure keeps them. */
  function Finish(f: Form, error: Option<string>): (f': Form)
    ensures !f'.updating && f'.email == f.email
    ensures error.None? ==> f'.newPassword == "" && f'.confirmPassword == ""
                            && f'.message == Some(Success("Profile updated successfully!"))
    ensures error.Some? ==> f'.newPassword == f.newPassword && f'.confirmPassword == f.confirmPassword
    ensures error.Some? && error.value != "" ==> f'.message == Some(Failure(error.value))
    ensures error.Some? && error.value == "" ==> f'.message == Some(Failure("Failed to update profile"))
  {
    match error
    case None =>
      f.(message := Some(Success("Profile updated successfully!")), newPassword := "", confirmPassword := "",
         updating := false)
    case Some(m) =>
      f.(message := Some(Failure(if m != "" then m else "Failed to update profile")), updating := false)
  }

  /** After a successful save the next submission is never refused and sends
      the e-mail alone, so the password is not set again. */
  lemma SavedFormResendsEmailOnly(f: Form)
    ensures Submit(Finish(f, None)).Sent?
    ensures Submit(Finish(f, None)).payload == map["email" := f.email]
  {
  }

  /** The body the page sends is what the server's profile handler reads: on
      success the administrator's password hash changes exactly when a
      password was typed, and then to that password's hash. */
  lemma SubmitReachesProfile(f: Form, st: Store.State, adminId: Store.Id)
    requires Submit(f).Sent?
    ensures var payload := Submit(f).payload;
            var out := AdminController.UpdateAdminProfile(st, adminId, Routes.Field(payload, "email"),
                                                          Routes.Field(payload, "newPassword"));
            out.resp.status == 200 ==>
              var i := Store.AdminById(st, adminId).value;
              out.st.admins[i].passwordHash
                == (if f.newPassword != "" then Secrets.HashSecret(f.newPassword) else st.admins[i].passwordHash)
  {
  }
}
