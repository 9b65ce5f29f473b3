/** Basic authentication (section 2 of RFC 7617) end to end: the header the REST client sends and
    the check an agent's server makes. */
module BasicAuth {
  import opened Bytes
  import opened Json
  import Base64

  const COLON: byte := 58

  /** Compares in time that depends on the lengths only. */
  method TimingSafeCompare(a: seq<byte>, b: seq<byte>) returns (same: bool)
    ensures same <==> a == b
  {
    hide Xor, Or;
    if |a| != |b| { return false; }
    var result: byte := 0;
    for i := 0 to |a|
      invariant result == 0 <==> a[..i] == b[..i]
    {
      XorZero(a[i], b[i]);
      assert a[..i + 1] == a[..i] + [a[i]] && b[..i + 1] == b[..i] + [b[i]];
      result := Or(result, Xor(a[i], b[i]));
    }
    assert a[..|a|] == a && b[..|a|] == b;
    same := result == 0;
  }

  /** The position of the first colon, or the length. */
  function FirstColon(s: seq<byte>): (k: nat)
    ensures k <= |s| && forall i :: 0 <= i < k ==> s[i] != COLON
    ensures k < |s| ==> s[k] == COLON
  {
    if s == [] || s[0] == COLON then 0 else 1 + FirstColon(s[1..])
  }

  // ------------------------------------------------------------------ the client

  /** The header of `HttpClient`. */
  method AuthHeader(username: seq<byte>, password: seq<byte>) returns (header: string)
    ensures header == HeaderFor(username, password)
    ensures |header| > 6 && header[..6] == "Basic " && Base64.Decoded(header[6..]) == username + [58] + password
  {
    hide Base64.Encoded, Base64.Decoded;
    var pair := username + [COLON] + password;
    EncodedNotEmpty(pair);
    Base64.DecodedEncoded(pair);
    var encoded := Base64.Encode(username + [COLON] + password);
    header := "Basic " + encoded;
  }

  function HeaderFor(username: seq<byte>, password: seq<byte>): string {
    "Basic " + Base64.Encoded(username + [COLON] + password)
  }

  // ------------------------------------------------------------------ the server

  datatype Verdict = Accepted | NoHeader | WrongScheme | Malformed | WrongCredentials

  /** The check on a decoded pair, split at its first colon. */
  function CheckPair(decoded: seq<byte>, user: seq<byte>, pass: seq<byte>): Verdict {
    var k := FirstColon(decoded);
    if k == |decoded| then Malformed
    else if decoded[..k] == user && decoded[k + 1..] == pass then Accepted else WrongCredentials
  }

  function Check(authorization: Option<string>, user: seq<byte>, pass: seq<byte>): Verdict {
    match authorization
    case None => NoHeader
    case Some(h) =>
      if |h| < 7 || h[..6] != "Basic " then WrongScheme else CheckPair(Base64.Decoded(h[6..]), user, pass)
  }

  function ErrorContent(v: Verdict): string {
    match v
    case Accepted => ""
    case NoHeader => "{\"error\":\"unauthorized\"}"
    case WrongScheme => "{\"error\":\"invalid auth scheme\"}"
    case Malformed => "{\"error\":\"malformed credentials\"}"
    case WrongCredentials => "{\"error\":\"invalid credentials\"}"
  }

  function HeadersAfter(v: Verdict, headers: map<string, string>): map<string, string> {
    match v
    case Accepted => headers
    case NoHeader => headers["WWW-Authenticate" := "Basic realm=\"SignalWire Agent\""]["Content-Type" := JSON]
    case _ => headers["Content-Type" := JSON]
  }

  const JSON := "application/json"

  class Response {
    var status: int
    var headers: map<string, string>
    var content: string

    constructor ()
      ensures status == -1 && headers == map[] && content == ""
    {
      status, headers, content := -1, map[], "";
    }

    method SetHeader(name: string, value: string)
      modifies this`headers
      ensures headers == old(headers)[name := value]
    {
      headers := headers[name := value];
    }

    method SetContent(text: string, contentType: string)
      modifies this`headers, this`content
      ensures content == text && headers == old(headers)["Content-Type" := contentType]
    {
      content := text;
      headers := headers["Content-Type" := contentType];
    }
  }

  class Agent {
    const authUser: seq<byte>
    const authPass: seq<byte>

    constructor (user: seq<byte>, pass: seq<byte>)
      ensures authUser == user && authPass == pass
    {
      authUser, authPass := user, pass;
    }

    /** `validate_auth`: accepts exactly a header whose decoded rest is the configured pair around the first
        colon, and leaves the response alone, or refuses with 401 and the reason. */
    method ValidateAuth(authorization: Option<string>, res: Response) returns (ok: bool)
      modifies res
      ensures var v := Check(authorization, authUser, authPass);
              && (ok <==> v == Accepted)
              && (ok ==> unchanged(res))
              && (!ok ==> res.status == 401 && res.content == ErrorContent(v))
              && res.headers == HeadersAfter(v, old(res.headers))
      ensures ok ==> authorization.Some? && |authorization.value| >= 7 && authorization.value[..6] == "Basic "
      ensures authorization.Some? && |authorization.value| >= 7 && authorization.value[..6] == "Basic " ==>
        var decoded := Base64.Decoded(authorization.value[6..]);
        && (ok <==> decoded == authUser + [58] + authPass && 58 !in authUser)
        && (58 !in decoded ==> res.content == "{\"error\":\"malformed credentials\"}")
        && (58 in decoded && !ok ==> res.content == "{\"error\":\"invalid credentials\"}")
      ensures authorization == None ==> res.content == "{\"error\":\"unauthorized\"}"
      ensures authorization == None ==>
        "WWW-Authenticate" in res.headers && res.headers["WWW-Authenticate"] == "Basic realm=\"SignalWire Agent\""
      ensures authorization.Some? && (|authorization.value| < 7 || authorization.value[..6] != "Basic ") ==>
        res.content == "{\"error\":\"invalid auth scheme\"}"
      ensures !ok ==> "Content-Type" in res.headers && res.headers["Content-Type"] == "application/json"
    {
      hide CheckPair;
      if authorization == None {
        res.status := 401;
        res.SetHeader("WWW-Authenticate", "Basic realm=\"SignalWire Agent\"");
        res.SetContent("{\"error\":\"unauthorized\"}", JSON);
        return false;
      }
      var header := authorization.value;
      if |header| < 7 || header[..6] != "Basic " {
        res.status := 401;
        res.SetContent("{\"error\":\"invalid auth scheme\"}", JSON);
        return false;
      }
      var decoded := Base64.Decode(header[6..]);
      PairAccepted(decoded, authUser, authPass);
      ok := ValidatePair(decoded, res);
    }

    method ValidatePair(decoded: seq<byte>, res: Response) returns (ok: bool)
      modifies res
      ensures var v := CheckPair(decoded, authUser, authPass);
              && (ok <==> v == Accepted)
              && (ok ==> unchanged(res))
              && (!ok ==> res.status == 401 && res.content == ErrorContent(v))
              && res.headers == HeadersAfter(v, old(res.headers))
      ensures 58 !in decoded ==> !ok && res.content == "{\"error\":\"malformed credentials\"}"
      ensures 58 in decoded && !ok ==> res.content == "{\"error\":\"invalid credentials\"}"
    {
      var colon := FirstColon(decoded);
      if colon == |decoded| {
        res.status := 401;
        res.SetContent("{\"error\":\"malformed credentials\"}", JSON);
        return false;
      }
      var sameUser := TimingSafeCompare(decoded[..colon], authUser);
      var samePass := TimingSafeCompare(decoded[colon + 1..], authPass);
      if !sameUser || !samePass {
        res.status := 401;
        res.SetContent("{\"error\":\"invalid credentials\"}", JSON);
        return false;
      }
      ok := true;
    }
  }

  // ------------------------------------------------------------------ end to end

  lemma {:induction false} FirstColonIs(s: seq<byte>, k: nat)
    requires k < |s| && s[k] == COLON && forall i :: 0 <= i < k ==> s[i] != COLON
    ensures FirstColon(s) == k
  {
    hide FirstColon;
    var j := FirstColon(s);
    assert j == k;
  }

  /** The pair is accepted exactly when it spells the configured pair and the configured user has
      no colon. */
  lemma {:induction false} PairAccepted(decoded: seq<byte>, user: seq<byte>, pass: seq<byte>)
    ensures CheckPair(decoded, user, pass) == Accepted <==> decoded == user + [COLON] + pass && COLON !in user
  {
    hide FirstColon;
    var k := FirstColon(decoded);
    if decoded == user + [COLON] + pass && COLON !in user {
      assert decoded[..|user|] == user;
      FirstColonIs(decoded, |user|);
      assert decoded[|user| + 1..] == pass;
    }
    if k < |decoded| { assert decoded == decoded[..k] + [COLON] + decoded[k + 1..]; }
  }

  lemma {:induction false} PairsEqual(u: seq<byte>, p: seq<byte>, user: seq<byte>, pass: seq<byte>)
    requires COLON !in u && COLON !in user
    ensures u + [COLON] + p == user + [COLON] + pass <==> u == user && p == pass
  {
    hide FirstColon;
    var s, t := u + [COLON] + p, user + [COLON] + pass;
    assert s[..|u|] == u && s[|u| + 1..] == p;
    assert t[..|user|] == user && t[|user| + 1..] == pass;
    FirstColonIs(s, |u|);
    FirstColonIs(t, |user|);
  }

  lemma {:induction false} EncodedNotEmpty(data: seq<byte>)
    requires data != []
    ensures Base64.Encoded(data) != ""
  {
    hide Base64.Emitted;
    Base64.SextetsDecode(data);
    hide Base64.Sextets, Base64.Octets;
    if |data| % 3 == 0 { Base64.NothingDecodes(); }
  }

  /** What the server makes of a client's header, for every user and password on both sides. */
  lemma {:induction false} HeaderChecked(u: seq<byte>, p: seq<byte>, user: seq<byte>, pass: seq<byte>)
    ensures Check(Some(HeaderFor(u, p)), user, pass) == Accepted
            <==> u + [COLON] + p == user + [COLON] + pass && COLON !in user
  {
    hide Base64.Encoded, Base64.Decoded, CheckPair;
    var data := u + [COLON] + p;
    var h := HeaderFor(u, p);
    EncodedNotEmpty(data);
    assert h[..6] == "Basic " && h[6..] == Base64.Encoded(data);
    Base64.DecodedEncoded(data);
    PairAccepted(data, user, pass);
  }

  /** For a user without a colon the header is accepted exactly when user and password are the
      configured ones. */
  lemma {:induction false} AcceptedExactly(u: seq<byte>, p: seq<byte>, user: seq<byte>, pass: seq<byte>)
    requires COLON !in u
    ensures Check(Some(HeaderFor(u, p)), user, pass) == Accepted <==> u == user && p == pass
  {
    hide Check, HeaderFor;
    HeaderChecked(u, p, user, pass);
    if COLON !in user { PairsEqual(u, p, user, pass); }
  }

  /** A configured user with a colon locks everybody out. */
  lemma {:induction false} ColonLocksOut(authorization: Option<string>, user: seq<byte>, pass: seq<byte>)
    requires COLON in user
    ensures Check(authorization, user, pass) != Accepted
  {
    hide CheckPair;
    if authorization.Some? && |authorization.value| >= 7 {
      PairAccepted(Base64.Decoded(authorization.value[6..]), user, pass);
    }
  }
}
