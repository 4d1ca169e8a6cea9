/** The login and password-reset handlers. */
module AuthController {
  import opened Common
  import opened Secrets
  import opened Tokens
  import opened Store
  import opened Http

  const InvalidCredentials: string := "Invalid credentials"
  const AccountBlocked: string := "Account is blocked"

  /** `Date.now() + 3600000`: a reset link lives one hour. */
  const ResetLifetimeMs: int := 3600000

  const ResetUnknownMessage: string := "If an account exists with this email, you will receive a reset link shortly."
  const ResetSentMessage: string := "Instructions sent to email (check server logs for link)"

  function AdminClaims(a: Admin): Claims {
    Claims(a.id, ADMIN, Email(a.email))
  }

  function ClientClaims(c: Client): Claims {
    Claims(c.id, CLIENT, Username(c.username))
  }

  /** Issues `text` as a token for `claims` and answers `{ token, role }`. */
  function IssueToken(st: State, claims: Claims, nowMs: nat, text: string): (out: Step)
    ensures out.st == st.(tokens := Sign(st.tokens, claims, nowMs, text))
    ensures out.resp == Response(200, TokenIssued(text, claims.role))
  {
    Step(st.(tokens := Sign(st.tokens, claims, nowMs, text)), Response(200, TokenIssued(text, claims.role)))
  }

  /** `adminLogin`: an unknown email and a wrong password get the very same
      401. A missing email makes the lookup throw, and a missing password
      makes the comparison throw; both are answered 500. */
  function AdminLogin(st: State, email: Option<string>, password: Option<string>, nowMs: nat, text: string): (out: Step)
    ensures email.None? ==> out == Reply(st, 500, InternalError)
    ensures email.Some? && AdminByEmail(st, email.value).None? ==> out == Reply(st, 401, InvalidCredentials)
    ensures email.Some? && AdminByEmail(st, email.value).Some? && password.None? ==> out == Reply(st, 500, InternalError)
    ensures out.resp.status == 200 <==>
              && email.Some? && password.Some? && AdminByEmail(st, email.value).Some?
              && Matches(password.value, st.admins[AdminByEmail(st, email.value).value].passwordHash)
    ensures out.resp.status != 200 ==> out == Reply(st, 401, InvalidCredentials) || out == Reply(st, 500, InternalError)
    ensures out.resp.status == 200 ==>
              && out.resp.body == TokenIssued(text, ADMIN)
              && text in out.st.tokens
              && out.st.tokens[text].claims == AdminClaims(st.admins[AdminByEmail(st, email.value).value])
              && out.st == st.(tokens := out.st.tokens)
  {
    match email
    case None => Reply(st, 500, InternalError)
    case Some(e) =>
      match AdminByEmail(st, e)
      case None => Reply(st, 401, InvalidCredentials)
      case Some(i) =>
        match password
        case None => Reply(st, 500, InternalError)
        case Some(p) =>
          if !Matches(p, st.admins[i].passwordHash) then Reply(st, 401, InvalidCredentials)
          else IssueToken(st, AdminClaims(st.admins[i]), nowMs, text)
  }

  /** `secret` opens the account of the admin whose email is `identifier`. */
  predicate AdminAccepts(st: State, identifier: string, secret: string) {
    AdminByEmail(st, identifier).Some? && Matches(secret, st.admins[AdminByEmail(st, identifier).value].passwordHash)
  }

  /** `unifiedLogin`: the admin whose email is `identifier` is tried first;
      failing that, the client whose username is `identifier`, for whom being
      blocked is checked before the PIN. A missing identifier, or a missing
      secret that reaches a comparison, throws and is answered 500. */
  function UnifiedLogin(st: State, identifier: Option<string>, secret: Option<string>, nowMs: nat, text: string): (out: Step)
    ensures identifier.None? ==> out == Reply(st, 500, InternalError)
    ensures identifier.Some? && secret.Some? && AdminAccepts(st, identifier.value, secret.value) ==>
              out == IssueToken(st, AdminClaims(st.admins[AdminByEmail(st, identifier.value).value]), nowMs, text)
    ensures identifier.Some? && secret.None? && AdminByEmail(st, identifier.value).Some? ==>
              out == Reply(st, 500, InternalError)
    ensures identifier.Some? ==>
              var c := ClientByUsername(st, identifier.value);
              && !(secret.Some? && AdminAccepts(st, identifier.value, secret.value))
              && !(secret.None? && AdminByEmail(st, identifier.value).Some?)
              && c.Some? ==>
                && (st.clients[c.value].isBlocked ==> out == Reply(st, 403, AccountBlocked))
                && (!st.clients[c.value].isBlocked && secret.None? ==> out == Reply(st, 500, InternalError))
                && (!st.clients[c.value].isBlocked && secret.Some? && Matches(secret.value, st.clients[c.value].pinHash) ==>
                      out == IssueToken(st, ClientClaims(st.clients[c.value]), nowMs, text))
    ensures || out.resp.status == 200 || out == Reply(st, 401, InvalidCredentials)
            || out == Reply(st, 403, AccountBlocked) || out == Reply(st, 500, InternalError)
    ensures out.resp.status == 401 <==>
              && identifier.Some?
              && (AdminByEmail(st, identifier.value).Some? ==> secret.Some? && !AdminAccepts(st, identifier.value, secret.value))
              && var c := ClientByUsername(st, identifier.value);
                 (c.None? || (!st.clients[c.value].isBlocked && secret.Some? &&
                              !Matches(secret.value, st.clients[c.value].pinHash)))
  {
    match identifier
    case None => Reply(st, 500, InternalError)
    case Some(idn) =>
      var a := AdminByEmail(st, idn);
      if a.Some? && secret.None? then Reply(st, 500, InternalError)
      else if a.Some? && Matches(secret.value, st.admins[a.value].passwordHash) then
        IssueToken(st, AdminClaims(st.admins[a.value]), nowMs, text)
      else
        match ClientByUsername(st, idn)
        case None => Reply(st, 401, InvalidCredentials)
        case Some(i) =>
          if st.clients[i].isBlocked then Reply(st, 403, AccountBlocked)
          else
            match secret
            case None => Reply(st, 500, InternalError)
            case Some(sec) =>
              if Matches(sec, st.clients[i].pinHash) then IssueToken(st, ClientClaims(st.clients[i]), nowMs, text)
              else Reply(st, 401, InvalidCredentials)
  }

  /** `clientLogin`: unknown username 401, then blocked 403, then wrong PIN
      401; only an unblocked client with the right PIN gets a CLIENT token.
      A missing username, or a missing PIN once it is compared, throws and is
      answered 500. */
  function ClientLogin(st: State, username: Option<string>, pin: Option<string>, nowMs: nat, text: string): (out: Step)
    ensures username.None? ==> out == Reply(st, 500, InternalError)
    ensures username.Some? ==>
              var c := ClientByUsername(st, username.value);
              && (c.None? ==> out == Reply(st, 401, InvalidCredentials))
              && (c.Some? && st.clients[c.value].isBlocked ==> out == Reply(st, 403, AccountBlocked))
              && (c.Some? && !st.clients[c.value].isBlocked && pin.None? ==> out == Reply(st, 500, InternalError))
              && (c.Some? && !st.clients[c.value].isBlocked && pin.Some? && !Matches(pin.value, st.clients[c.value].pinHash) ==>
                    out == Reply(st, 401, InvalidCredentials))
    ensures out.resp.status == 200 <==>
              && username.Some? && pin.Some?
              && var c := ClientByUsername(st, username.value);
                 c.Some? && !st.clients[c.value].isBlocked && Matches(pin.value, st.clients[c.value].pinHash)
    ensures out.resp.status == 200 ==>
              && out.resp.body == TokenIssued(text, CLIENT)
              && text in out.st.tokens
              && out.st.tokens[text].claims == ClientClaims(st.clients[ClientByUsername(st, username.value).value])
  {
    match username
    case None => Reply(st, 500, InternalError)
    case Some(u) =>
      match ClientByUsername(st, u)
      case None => Reply(st, 401, InvalidCredentials)
      case Some(i) =>
        if st.clients[i].isBlocked then Reply(st, 403, AccountBlocked)
        else
          match pin
          case None => Reply(st, 500, InternalError)
          case Some(p) =>
            if !Matches(p, st.clients[i].pinHash) then Reply(st, 401, InvalidCredentials)
            else IssueToken(st, ClientClaims(st.clients[i]), nowMs, text)
  }

  /** A blocked account is refused with 403 whatever PIN is offered, even
      none; the unified login tries an administrator with that email first. */
  lemma BlockedClientNeverLogsIn(st: State, username: string, pin: Option<string>, nowMs: nat, text: string)
    requires ClientByUsername(st, username).Some?
    requires st.clients[ClientByUsername(st, username).value].isBlocked
    ensures ClientLogin(st, Some(username), pin, nowMs, text).resp.status == 403
    ensures AdminByEmail(st, username).None? || (pin.Some? && !AdminAccepts(st, username, pin.value)) ==>
              UnifiedLogin(st, Some(username), pin, nowMs, text).resp.status == 403
  {
  }

  /** `requestPasswordReset`: an unknown email changes nothing; a known one
      gets `resetToken` and an expiry one hour from now. A missing email makes
      the lookup throw (500). */
  function RequestPasswordReset(st: State, email: Option<string>, resetToken: string, nowMs: int): (out: Step)
    ensures email.None? ==> out == Reply(st, 500, InternalError)
    ensures email.Some? && AdminByEmail(st, email.value).None? ==> out == Reply(st, 200, ResetUnknownMessage)
    ensures email.Some? && AdminByEmail(st, email.value).Some? ==>
              var a := AdminByEmail(st, email.value).value;
              && out.resp == Response(200, Message(ResetSentMessage))
              && |out.st.admins| == |st.admins|
              && out.st.admins[a] == st.admins[a].(resetToken := Some(resetToken),
                                                   resetTokenExpiry := Some(nowMs + ResetLifetimeMs))
              && (forall j :: 0 <= j < |st.admins| && j != a ==> out.st.admins[j] == st.admins[j])
              && out.st == st.(admins := out.st.admins)
    ensures Valid(st) ==> Valid(out.st)
  {
    match email
    case None => Reply(st, 500, InternalError)
    case Some(e) =>
      match AdminByEmail(st, e)
      case None => Reply(st, 200, ResetUnknownMessage)
      case Some(i) =>
        var a := st.admins[i].(resetToken := Some(resetToken), resetTokenExpiry := Some(nowMs + ResetLifetimeMs));
        Reply(st.(admins := st.admins[i := a]), 200, ResetSentMessage)
  }

  /** The two answers of `requestPasswordReset` differ, so the response does
      reveal whether an admin has that email. */
  lemma ResetRequestRevealsAccount(st: State, known: string, unknown: string, token: string, nowMs: int)
    requires AdminByEmail(st, known).Some? && AdminByEmail(st, unknown).None?
    ensures RequestPasswordReset(st, Some(known), token, nowMs).resp != RequestPasswordReset(st, Some(unknown), token, nowMs).resp
  {
  }

  /** The `findFirst` filter of `resetPassword`. A token that is absent from
      the request body (`undefined`) drops the token condition altogether. */
  predicate ResetMatches(a: Admin, token: Option<string>, nowMs: int) {
    && (token.None? || a.resetToken == token)
    && a.resetTokenExpiry.Some? && a.resetTokenExpiry.value > nowMs
  }

  /** `resetPassword`: the first admin holding the token with an expiry still
      in the future gets the new password, and the token is cleared. A missing
      new password makes the hashing throw (500) and changes nothing. */
  function ResetPassword(st: State, token: Option<string>, newPassword: Option<string>, nowMs: int): (out: Step)
    ensures var i := IndexWhere(st.admins, (a: Admin) => ResetMatches(a, token, nowMs));
            i.None? ==> out == Reply(st, 400, "Invalid or expired reset link")
    ensures var i := IndexWhere(st.admins, (a: Admin) => ResetMatches(a, token, nowMs));
            i.Some? && newPassword.None? ==> out == Reply(st, 500, InternalError)
    ensures out.resp.status == 200 <==>
              IndexWhere(st.admins, (a: Admin) => ResetMatches(a, token, nowMs)).Some? && newPassword.Some?
    ensures out.resp.status == 200 ==>
              var i := IndexWhere(st.admins, (a: Admin) => ResetMatches(a, token, nowMs)).value;
              out.st == st.(admins := st.admins[i := st.admins[i].(
                passwordHash := HashSecret(newPassword.value), resetToken := None, resetTokenExpiry := None)])
    ensures Valid(st) ==> Valid(out.st)
  {
    match IndexWhere(st.admins, (a: Admin) => ResetMatches(a, token, nowMs))
    case None => Reply(st, 400, "Invalid or expired reset link")
    case Some(i) =>
      match newPassword
      case None => Reply(st, 500, InternalError)
      case Some(pw) =>
        var a := st.admins[i].(passwordHash := HashSecret(pw), resetToken := None, resetTokenExpiry := None);
        Reply(st.(admins := st.admins[i := a]), 200, "Password updated successfully. You can now login.")
  }

  /** At most one admin holds `token`. */
  predicate HeldOnce(st: State, token: string) {
    forall i, j ::
      && 0 <= i < |st.admins| && 0 <= j < |st.admins|
      && st.admins[i].resetToken == Some(token) && st.admins[j].resetToken == Some(token)
      ==> i == j
  }

  /** A reset link works once: replaying it after a successful reset is refused. */
  lemma ResetTokenSingleUse(st: State, token: string, pw1: string, pw2: Option<string>, now1: int, now2: int)
    requires HeldOnce(st, token)
    requires ResetPassword(st, Some(token), Some(pw1), now1).resp.status == 200
    ensures ResetPassword(ResetPassword(st, Some(token), Some(pw1), now1).st, Some(token), pw2, now2).resp.status == 400
  {
    var i := IndexWhere(st.admins, (a: Admin) => ResetMatches(a, Some(token), now1)).value;
    var st' := ResetPassword(st, Some(token), Some(pw1), now1).st;
    forall j | 0 <= j < |st'.admins|
      ensures !ResetMatches(st'.admins[j], Some(token), now2)
    {
    }
  }

  /** A link requested at `t0` resets the password exactly while the clock
      reads before `t0 + 3600000`. */
  lemma RequestThenReset(st: State, email: string, token: string, t0: int, pw: string, t1: int)
    requires AdminByEmail(st, email).Some?
    requires forall a :: a in st.admins ==> a.resetToken != Some(token)
    ensures var st' := RequestPasswordReset(st, Some(email), token, t0).st;
            ResetPassword(st', Some(token), Some(pw), t1).resp.status == 200 <==> t1 < t0 + ResetLifetimeMs
  {
    var i := AdminByEmail(st, email).value;
    var st' := RequestPasswordReset(st, Some(email), token, t0).st;
    var p := (a: Admin) => ResetMatches(a, Some(token), t1);
    forall j | 0 <= j < |st'.admins| && j != i
      ensures !p(st'.admins[j])
    {
      assert st'.admins[j] == st.admins[j];
      assert st.admins[j] in st.admins;
    }
    if t1 < t0 + ResetLifetimeMs {
      assert p(st'.admins[i]);
    }
  }

  /** A request body without a token resets the first admin that has any
      unexpired link, whoever asked for it. */
  lemma ResetWithoutTokenMatchesAnyPendingLink(st: State, pw: string, nowMs: int, k: nat)
    requires k < |st.admins|
    requires st.admins[k].resetTokenExpiry.Some? && st.admins[k].resetTokenExpiry.value > nowMs
    ensures ResetPassword(st, None, Some(pw), nowMs).resp.status == 200
  {
    assert ResetMatches(st.admins[k], None, nowMs);
  }
}
