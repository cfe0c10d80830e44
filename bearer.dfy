/**
  The `auth` middleware: the token is what follows the exact, case-sensitive
  prefix `Bearer ` of the `Authorization` header (as in section 2.1 of
  RFC 6750); a missing or empty token is rejected before verification; a
  token the verifier refuses is rejected; otherwise the request proceeds
  with the verified payload as its user.
*/
module Bearer {
  import opened Wrappers

  const Prefix: string := "Bearer "

  datatype Rejection =
    | MissingToken   // 401 'Missing Authorization token'
    | InvalidToken   // 401 'Invalid or expired token'

  /** The middleware's outcome: a 401 response, or one call of `next` with `req.user` set to the payload. */
  datatype Decision<P> = Reject(reason: Rejection) | Next(user: P)

  /**
    The token of an `Authorization` header. An absent header counts as the
    empty string; the token is the header with its first seven characters cut
    off when they are `Bearer `, and an empty token counts as no token.
  */
  function ExtractToken(header: Option<string>): (r: Option<string>)
    ensures r.Some? ==> header == Some(Prefix + r.value) && r.value != ""
  {
    var h := if header.Some? then header.value else "";
    var token := if |h| >= |Prefix| && h[..|Prefix|] == Prefix then Some(h[|Prefix|..]) else None;
    if token.None? || token.value == "" then None
    else
      assert h == Prefix + token.value;
      token
  }

  /** Extraction inverts prefixing: `Bearer t` yields `t` for every non-empty `t`, and nothing else yields `t`. */
  lemma ExtractExactly(header: Option<string>, t: string)
    ensures ExtractToken(header) == Some(t) <==> header == Some(Prefix + t) && t != ""
  {
    if header == Some(Prefix + t) && t != "" {
      assert (Prefix + t)[..|Prefix|] == Prefix;
      assert (Prefix + t)[|Prefix|..] == t;
    }
  }

  /** The header `Bearer ` with nothing after it, another scheme's spelling and no header at all carry no token. */
  lemma NoTokenExamples()
    ensures ExtractToken(Some("Bearer ")) == None
    ensures ExtractToken(Some("bearer abc")) == None
    ensures ExtractToken(Some("Bearerabc")) == None
    ensures ExtractToken(None) == None
    ensures ExtractToken(Some("")) == None
  {
    assert "bearer abc"[..7] != Prefix by { assert "bearer abc"[0] != Prefix[0]; }
    assert "Bearerabc"[..7] != Prefix by { assert "Bearerabc"[6] != Prefix[6]; }
  }

  /**
    The middleware. `verify` stands for the signature and expiry check of the
    token library: it returns the payload of a token it accepts and nothing
    otherwise.
  */
  function Authenticate<P>(header: Option<string>, verify: string -> Option<P>): (d: Decision<P>)
    ensures d == Reject(MissingToken) <==> ExtractToken(header).None?
    ensures d == Reject(InvalidToken) <==> ExtractToken(header).Some? && verify(ExtractToken(header).value).None?
    ensures d.Next? <==> ExtractToken(header).Some? && verify(ExtractToken(header).value).Some?
    ensures d.Next? ==> d.user == verify(ExtractToken(header).value).value
  {
    match ExtractToken(header)
    case None => Reject(MissingToken)
    case Some(token) =>
      match verify(token)
      case None => Reject(InvalidToken)
      case Some(payload) => Next(payload)
  }

  /** A well-formed `Bearer` header is decided by the verifier alone, on exactly the token that was sent. */
  lemma BearerHeaderReachesVerifier<P>(t: string, verify: string -> Option<P>)
    requires t != ""
    ensures Authenticate(Some(Prefix + t), verify) ==
              if verify(t).Some? then Next(verify(t).value) else Reject(InvalidToken)
  {
    ExtractExactly(Some(Prefix + t), t);
  }
}
