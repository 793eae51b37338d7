/** Token handling: the blacklist of logged-out tokens and token verification. Decoding a JWT
    (signature and expiry checks) is a parameter: it gives the payload, or `None` where the
    library raises its error. */
module Security {
  import opened Wrappers

  type Blacklist = set<string>

  /** `add_to_blacklist`. */
  function AddToBlacklist(b: Blacklist, token: string): (b': Blacklist)
    ensures token in b'
    ensures forall t :: t != token ==> (t in b' <==> t in b)
  {
    b + {token}
  }

  predicate IsTokenBlacklisted(b: Blacklist, token: string) {
    token in b
  }

  /** `clear_expired_tokens` removes nothing. */
  function ClearExpiredTokens(b: Blacklist): (b': Blacklist)
    ensures forall t :: t in b ==> t in b'
    ensures b' <= b
  {
    b
  }

  /** Blacklisting twice is blacklisting once, and neither operation ever unlists a token. */
  lemma BlacklistMonotone(b: Blacklist, token: string)
    ensures AddToBlacklist(AddToBlacklist(b, token), token) == AddToBlacklist(b, token)
    ensures b <= AddToBlacklist(b, token) && b <= ClearExpiredTokens(b)
    ensures IsTokenBlacklisted(AddToBlacklist(b, token), token)
  {
  }

  /** The claims found in a decoded token. */
  datatype Payload = Payload(sub: Option<string>, userId: Option<int>, role: Option<string>)

  datatype TokenData = TokenData(email: string, userId: Option<int>, role: Option<string>)

  /** `verify_token`: a blacklisted token is refused before decoding; a token that does not
      decode, or whose payload has no subject, gives `None`. */
  function VerifyToken(b: Blacklist, token: string, decode: string -> Option<Payload>): (r: Option<TokenData>)
    ensures token in b ==> r.None?
    ensures r.Some? <==> token !in b && decode(token).Some? && decode(token).value.sub.Some?
    ensures r.Some? ==> var p := decode(token).value;
      r.value == TokenData(p.sub.value, p.userId, p.role)
  {
    if token in b then None
    else match decode(token)
      case None => None
      case Some(p) => if p.sub.None? then None else Some(TokenData(p.sub.value, p.userId, p.role))
  }

  /** Once a token is blacklisted, no decoder can make it valid again. */
  lemma LoggedOutTokenRefused(b: Blacklist, token: string, decode: string -> Option<Payload>)
    ensures VerifyToken(AddToBlacklist(b, token), token, decode).None?
  {
  }

  /** Blacklisting one token leaves the verdict on every other token as it was. */
  lemma BlacklistIsolated(b: Blacklist, token: string, other: string, decode: string -> Option<Payload>)
    requires other != token
    ensures VerifyToken(AddToBlacklist(b, token), other, decode) == VerifyToken(b, other, decode)
  {
  }
}
