/** Password and PIN hashing (bcrypt in the source), modelled as an ideal hash:
    a digest matches exactly the secret it was made from. */
module Secrets {

  /** A stored bcrypt digest. The secret is kept only so that `Matches` can be
      defined; no code of the model reads it except `Matches`. */
  datatype Hash = Bcrypt(secretDigested: string)

  /** `hashSecret(secret)`. */
  function HashSecret(secret: string): Hash {
    Bcrypt(secret)
  }

  /** `compareSecret(secret, hash)` / `bcrypt.compare`. */
  predicate Matches(secret: string, h: Hash) {
    h.secretDigested == secret
  }

  /** The one property of bcrypt the model relies on: a fresh digest matches
      its own secret and no other. */
  lemma MatchesOwnDigestOnly(secret: string, candidate: string)
    ensures Matches(candidate, HashSecret(secret)) <==> candidate == secret
  {
  }
}

/** Signed bearer tokens (jsonwebtoken in the source). Signing with the server
    key is modelled as a registry of token texts the server has issued; a token
    verifies while it is registered and not expired, so a forged or tampered
    token (one the server never issued) and an expired one fail alike. */
module Tokens {
  import opened Common

  datatype Role = ADMIN | CLIENT

  /** The identity claim: admins carry their email, clients their username. */
  datatype Identity = Email(email: string) | Username(username: string)

  datatype Claims = Claims(id: string, role: Role, identity: Identity)

  /** A token's claims and its `exp` claim, in whole seconds since the epoch. */
  datatype Grant = Grant(claims: Claims, exp: int)

  type Registry = map<string, Grant>

  /** `expiresIn: '1d'`. */
  const LifetimeSeconds: int := 86400

  /** `generateToken(payload)` at time `nowMs`, under the token text `text`
      (the signature itself is not modelled). `iat` is the current time in
      whole seconds and `exp = iat + 1 day`. */
  function Sign(reg: Registry, claims: Claims, nowMs: nat, text: string): (reg': Registry)
    ensures text in reg' && reg'[text] == Grant(claims, nowMs / 1000 + LifetimeSeconds)
    ensures forall t :: t in reg && t != text ==> t in reg' && reg'[t] == reg[t]
    ensures reg'.Keys == reg.Keys + {text}
  {
    reg[text := Grant(claims, nowMs / 1000 + LifetimeSeconds)]
  }

  /** `verifyToken(token)`: the decoded claims, or nothing when the token was
      never issued or its `exp` has been reached (checked in whole seconds). */
  function Verify(reg: Registry, token: string, nowMs: nat): (r: Option<Claims>)
    ensures r.Some? <==> token in reg && nowMs / 1000 < reg[token].exp
    ensures r.Some? ==> r.value == reg[token].claims
  {
    if token in reg && nowMs / 1000 < reg[token].exp then Some(reg[token].claims) else None
  }

  /** A freshly signed token decodes to its claims for the whole day that
      starts at the second it was issued, and is rejected from then on. */
  lemma SignThenVerify(reg: Registry, claims: Claims, issuedMs: nat, text: string, nowMs: nat)
    ensures var r := Verify(Sign(reg, claims, issuedMs, text), text, nowMs);
            (r == Some(claims)) <==> nowMs / 1000 < issuedMs / 1000 + LifetimeSeconds
    ensures nowMs >= issuedMs + LifetimeSeconds * 1000 ==>
              Verify(Sign(reg, claims, issuedMs, text), text, nowMs) == None
    ensures issuedMs <= nowMs < issuedMs + LifetimeSeconds * 1000 - 999 ==>
              Verify(Sign(reg, claims, issuedMs, text), text, nowMs) == Some(claims)
  {
  }

  /** Signing one token does not change what any other token verifies to. */
  lemma SignKeepsOthers(reg: Registry, claims: Claims, issuedMs: nat, text: string, other: string, nowMs: nat)
    requires other != text
    ensures Verify(Sign(reg, claims, issuedMs, text), other, nowMs) == Verify(reg, other, nowMs)
  {
  }
}
