/** `authenticate(role?)`: the bearer-token gate in front of every protected route. */
module AuthMiddleware {
  import opened Common
  import opened Text
  import opened Tokens
  import opened Http

  datatype Decision = Pass(user: Claims) | Reject(resp: Response)

  const BearerPrefix: string := "Bearer "

  predicate HasBearerPrefix(header: Option<string>) {
    header.Some? && StartsWith(header.value, BearerPrefix)
  }

  /** `authHeader.split(' ')[1]`. */
  function BearerToken(header: string): (token: string)
    requires StartsWith(header, BearerPrefix)
    ensures ' ' !in token
  {
    assert header[6] == ' ';
    SplitSecond(header, ' ');
    var rest := header[FirstIndex(header, ' ') + 1..];
    assert Split(header, ' ')[1] == rest[..FirstIndex(rest, ' ')];
    Split(header, ' ')[1]
  }

  /** The token is the text after "Bearer " up to the next space, if any. */
  lemma BearerTokenIsSecondWord(header: string)
    requires StartsWith(header, BearerPrefix)
    ensures var rest := header[7..]; BearerToken(header) == rest[..FirstIndex(rest, ' ')]
  {
    assert header[..7] == BearerPrefix;
    assert header[6] == ' ';
    assert FirstIndex(header, ' ') == 6 by {
      assert forall j :: 0 <= j < 6 ==> header[j] == BearerPrefix[j];
    }
    SplitSecond(header, ' ');
  }

  function RoleName(r: Role): string {
    match r
    case ADMIN => "ADMIN"
    case CLIENT => "CLIENT"
  }

  /** The middleware's decision for one request: 401 without a well-formed
      header or with a token that does not verify, then 403 when a required
      role differs from the token's, otherwise the request proceeds with the
      decoded claims as `req.user`. */
  function Authenticate(header: Option<string>, role: Option<Role>, reg: Registry, nowMs: nat): (d: Decision)
    ensures !HasBearerPrefix(header) ==>
              d == Reject(Response(401, Message("Unauthorized: No token provided")))
    ensures HasBearerPrefix(header) && Verify(reg, BearerToken(header.value), nowMs).None? ==>
              d == Reject(Response(401, Message("Unauthorized: Invalid token")))
    ensures d.Reject? && d.resp.status == 403 ==>
              HasBearerPrefix(header) && Verify(reg, BearerToken(header.value), nowMs).Some?
    ensures d.Reject? ==> d.resp.status == 401 || d.resp.status == 403
    ensures d.Pass? <==>
              && HasBearerPrefix(header)
              && Verify(reg, BearerToken(header.value), nowMs).Some?
              && (role.None? || Verify(reg, BearerToken(header.value), nowMs).value.role == role.value)
    ensures d.Pass? ==> d.user == Verify(reg, BearerToken(header.value), nowMs).value
  {
    if !HasBearerPrefix(header) then
      Reject(Response(401, Message("Unauthorized: No token provided")))
    else
      match Verify(reg, BearerToken(header.value), nowMs)
      case None => Reject(Response(401, Message("Unauthorized: Invalid token")))
      case Some(claims) =>
        if role.Some? && claims.role != role.value then
          Reject(Response(403, Message("Forbidden: Requires " + RoleName(role.value) + " role")))
        else
          Pass(claims)
  }

  /** Without a required role every verified token passes; with one, a
      verified token of another role always gets 403 and never 401. */
  lemma RoleCheckComesLast(header: Option<string>, role: Option<Role>, reg: Registry, nowMs: nat)
    requires HasBearerPrefix(header)
    requires Verify(reg, BearerToken(header.value), nowMs).Some?
    ensures role.None? ==> Authenticate(header, role, reg, nowMs).Pass?
    ensures role.Some? && Verify(reg, BearerToken(header.value), nowMs).value.role != role.value ==>
              Authenticate(header, role, reg, nowMs).resp.status == 403
  {
  }

  /** Running a chain of `authenticate` middlewares: the first rejection is
      the response, and the request reaches the handler only if all pass. */
  function Chain(header: Option<string>, gates: seq<Option<Role>>, reg: Registry, nowMs: nat): (d: Decision)
    requires |gates| >= 1
    ensures d.Pass? <==> forall i :: 0 <= i < |gates| ==> Authenticate(header, gates[i], reg, nowMs).Pass?
    ensures d.Pass? ==> d == Authenticate(header, gates[|gates| - 1], reg, nowMs)
    ensures d.Reject? ==>
              exists k :: && 0 <= k < |gates|
                          && d == Authenticate(header, gates[k], reg, nowMs)
                          && forall i :: 0 <= i < k ==> Authenticate(header, gates[i], reg, nowMs).Pass?
  {
    var first := Authenticate(header, gates[0], reg, nowMs);
    if first.Reject? || |gates| == 1 then first
    else
      var rest := Chain(header, gates[1..], reg, nowMs);
      assert forall i :: 1 <= i < |gates| ==> gates[i] == gates[1..][i - 1];
      RejectShifts(header, gates, reg, nowMs, rest);
      rest
  }

  /** A rejection by gate `k` of the tail, after a passing head, is a
      rejection by gate `k + 1` of the whole chain. */
  lemma RejectShifts(header: Option<string>, gates: seq<Option<Role>>, reg: Registry, nowMs: nat, d: Decision)
    requires |gates| >= 2 && Authenticate(header, gates[0], reg, nowMs).Pass?
    requires d.Reject? ==>
               exists k :: && 0 <= k < |gates[1..]|
                           && d == Authenticate(header, gates[1..][k], reg, nowMs)
                           && forall i :: 0 <= i < k ==> Authenticate(header, gates[1..][i], reg, nowMs).Pass?
    ensures d.Reject? ==>
              exists k :: && 0 <= k < |gates|
                          && d == Authenticate(header, gates[k], reg, nowMs)
                          && forall i :: 0 <= i < k ==> Authenticate(header, gates[i], reg, nowMs).Pass?
  {
    if d.Reject? {
      var k :| && 0 <= k < |gates[1..]|
               && d == Authenticate(header, gates[1..][k], reg, nowMs)
               && forall i :: 0 <= i < k ==> Authenticate(header, gates[1..][i], reg, nowMs).Pass?;
      forall i | 0 <= i < k + 1 ensures Authenticate(header, gates[i], reg, nowMs).Pass? {
        if i > 0 { assert gates[i] == gates[1..][i - 1]; }
      }
      assert d == Authenticate(header, gates[k + 1], reg, nowMs);
    }
  }

  /** The `/profile` route applies `authenticate('ADMIN')` a second time; the
      outcome is the same as applying it once. */
  lemma RepeatedGateSameOutcome(header: Option<string>, role: Option<Role>, reg: Registry, nowMs: nat)
    ensures Chain(header, [role, role], reg, nowMs) == Chain(header, [role], reg, nowMs)
  {
    var first := Authenticate(header, role, reg, nowMs);
    if first.Pass? {
      assert [role, role][1..] == [role];
    }
  }
}
