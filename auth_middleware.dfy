/** The authentication middleware: reading a bearer token from the `Authorization` header, and
    the two guards that either require a verified token or accept requests without one. The token
    verifier is a parameter of the model. */
module AuthMiddleware {
  import opened Common
  import opened Strings

  const BearerPrefix: string := "Bearer "
  const MsgUnauthenticated: string := "No autenticado"
  const MsgInvalidAuth: string := "Autenticación inválida"

  /** Splitting a header that starts with the bearer prefix: the word `Bearer`, then the pieces of
      what follows the prefix. */
  lemma BearerPieces(h: string)
    requires StartsWith(h, BearerPrefix)
    ensures Split(h, ' ') == ["Bearer"] + Split(h[|BearerPrefix|..], ' ')
  {
    assert h == "Bearer" + [' '] + h[|BearerPrefix|..];
    assert ' ' !in "Bearer";
    SplitPrefix("Bearer", h[|BearerPrefix|..], ' ');
  }

  /** The first piece of a split is the input's longest prefix without the separator. */
  lemma SplitFirstPiece(s: string, sep: char)
    ensures var first := Split(s, sep)[0];
      StartsWith(s, first) && (|first| == |s| || s[|first|] == sep)
  {
    var r := Split(s, sep);
    if |r| > 1 {
      assert s == r[0] + [sep] + Join(r[1..], sep);
    }
  }

  /** `extractToken`: nothing unless the header starts with `"Bearer "`; then the second
      space-separated piece of the header, or nothing when that piece is empty. */
  function ExtractToken(header: Option<string>): (r: Option<string>)
    ensures header.None? ==> r.None?
    ensures header.Some? && !StartsWith(header.value, BearerPrefix) ==> r.None?
    ensures r.Some? ==>
      && StartsWith(header.value, BearerPrefix)
      && r.value != "" && ' ' !in r.value
      && var rest := header.value[|BearerPrefix|..];
         StartsWith(rest, r.value) && (|r.value| == |rest| || rest[|r.value|] == ' ')
  {
    if header.None? || !StartsWith(header.value, BearerPrefix) then None
    else
      var h := header.value;
      BearerPieces(h);
      SplitFirstPiece(h[|BearerPrefix|..], ' ');
      var token := Split(h, ' ')[1];
      if token == "" then None else Some(token)
  }

  /** A single word after the prefix is the token, whatever follows it after a space: `"Bearer a b"`
      gives `"a"`. */
  lemma ExtractFirstWord(t: string, x: string)
    requires t != "" && ' ' !in t
    ensures ExtractToken(Some(BearerPrefix + t)) == Some(t)
    ensures ExtractToken(Some(BearerPrefix + t + [' '] + x)) == Some(t)
  {
    var h1 := BearerPrefix + t;
    assert StartsWith(h1, BearerPrefix) && h1[|BearerPrefix|..] == t;
    BearerPieces(h1);
    SplitNoSeparator(t, ' ');
    var h2 := BearerPrefix + t + [' '] + x;
    assert StartsWith(h2, BearerPrefix) && h2[|BearerPrefix|..] == t + [' '] + x;
    BearerPieces(h2);
    SplitPrefix(t, x, ' ');
  }

  /** An empty second piece gives no token: `"Bearer "` and `"Bearer  x"`. */
  lemma ExtractEmptyPiece(x: string)
    ensures ExtractToken(Some(BearerPrefix)) == None
    ensures ExtractToken(Some(BearerPrefix + [' '] + x)) == None
  {
    assert StartsWith(BearerPrefix, BearerPrefix) && BearerPrefix[|BearerPrefix|..] == [];
    BearerPieces(BearerPrefix);
    var h := BearerPrefix + [' '] + x;
    assert StartsWith(h, BearerPrefix) && h[|BearerPrefix|..] == [] + [' '] + x;
    BearerPieces(h);
    SplitPrefix([], x, ' ');
  }

  /** What the token verifier gives: the decoded payload, or an error with its optional
      `statusCode` and `status` and its message. */
  datatype Verified<P> = Decoded(payload: P) | Rejected(statusCode: Option<int>, status: Option<int>, message: string)

  /** What a guard does with the request: continue with `req.user` set (or left unset), or pass an
      error with that status and message to the error handler. */
  datatype Guard<P> = Proceed(user: Option<P>) | Reject(status: int, message: string)

  /** `a || b || fallback` on optional numbers, where a missing value and `0` are both falsy. */
  function FirstSet(a: Option<int>, b: Option<int>, fallback: int): (r: int)
    ensures a.Some? && a.value != 0 ==> r == a.value
    ensures (a.None? || a.value == 0) && b.Some? && b.value != 0 ==> r == b.value
    ensures (a.None? || a.value == 0) && (b.None? || b.value == 0) ==> r == fallback
  {
    if a.Some? && a.value != 0 then a.value
    else if b.Some? && b.value != 0 then b.value
    else fallback
  }

  /** `authenticate`: 401 without a token; otherwise the verified payload becomes the user, and a
      verification error keeps its own status (default 401) and message (default
      "Autenticación inválida"). */
  function Authenticate<P>(header: Option<string>, verify: string -> Verified<P>): (g: Guard<P>)
    ensures ExtractToken(header).None? ==> g == Reject(401, MsgUnauthenticated)
    ensures g.Proceed? ==> g.user.Some?
    ensures g.Reject? ==> g.message != ""
  {
    match ExtractToken(header)
    case None => Reject(401, MsgUnauthenticated)
    case Some(token) =>
      match verify(token)
      case Decoded(p) => Proceed(Some(p))
      case Rejected(statusCode, status, message) =>
        Reject(FirstSet(statusCode, status, 401), if message == "" then MsgInvalidAuth else message)
  }

  /** `optionallyAuthenticate`: no token lets the request through anonymously; a token must verify,
      and any verification error becomes 401 "Autenticación inválida". */
  function OptionallyAuthenticate<P>(header: Option<string>, verify: string -> Verified<P>): (g: Guard<P>)
    ensures ExtractToken(header).None? ==> g == Proceed(None)
    ensures g.Reject? ==> g == Reject(401, MsgInvalidAuth)
  {
    match ExtractToken(header)
    case None => Proceed(None)
    case Some(token) =>
      match verify(token)
      case Decoded(p) => Proceed(Some(p))
      case Rejected(_, _, _) => Reject(401, MsgInvalidAuth)
  }

  /** `authenticate` lets a request through exactly when it carries a token that verifies, and then
      with the decoded payload as the user; without a token the answer is 401 "No autenticado". */
  lemma AuthenticateCases<P>(header: Option<string>, verify: string -> Verified<P>)
    ensures var g := Authenticate(header, verify);
      && (g.Proceed? <==> ExtractToken(header).Some? && verify(ExtractToken(header).value).Decoded?)
      && (g.Proceed? ==> g.user == Some(verify(ExtractToken(header).value).payload))
      && (ExtractToken(header).None? ==> g == Reject(401, MsgUnauthenticated))
  {
  }

  /** A verification error propagates its own status, falling back to `status` and then to 401,
      and its message unless that is empty. */
  lemma AuthenticatePropagatesStatus<P>(header: Option<string>, verify: string -> Verified<P>)
    requires ExtractToken(header).Some? && verify(ExtractToken(header).value).Rejected?
    ensures var e := verify(ExtractToken(header).value);
      var g := Authenticate(header, verify);
      && g.Reject?
      && (e.statusCode.Some? && e.statusCode.value != 0 ==> g.status == e.statusCode.value)
      && ((e.statusCode.None? || e.statusCode.value == 0) && e.status.Some? && e.status.value != 0 ==> g.status == e.status.value)
      && ((e.statusCode.None? || e.statusCode.value == 0) && (e.status.None? || e.status.value == 0) ==> g.status == 401)
      && g.message == (if e.message == "" then MsgInvalidAuth else e.message)
      && g.message != ""
  {
  }

  /** `optionallyAuthenticate` never turns away a request without a token, turns away a failed
      verification with 401 alone, and otherwise sets the same user. */
  lemma OptionalCases<P>(header: Option<string>, verify: string -> Verified<P>)
    ensures var g := OptionallyAuthenticate(header, verify);
      && (ExtractToken(header).None? ==> g == Proceed(None))
      && (g.Reject? <==> ExtractToken(header).Some? && verify(ExtractToken(header).value).Rejected?)
      && (g.Reject? ==> g == Reject(401, MsgInvalidAuth))
  {
  }

  /** The two guards agree on every request with a token: both let it through with the same user,
      or both turn it away; they differ only on requests without one. */
  lemma GuardsAgreeWithToken<P>(header: Option<string>, verify: string -> Verified<P>)
    ensures var strict, optional := Authenticate(header, verify), OptionallyAuthenticate(header, verify);
      && (strict.Proceed? ==> optional == strict)
      && (optional.Reject? ==> strict.Reject?)
      && (ExtractToken(header).Some? ==> (strict.Proceed? <==> optional.Proceed?))
      && (ExtractToken(header).None? ==> strict.Reject? && optional == Proceed(None))
  {
  }
}
