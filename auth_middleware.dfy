/** The bearer-token middleware: the token is the second space-separated field
    of the `Authorization` header; a missing or empty token is answered 401, a
    token the verifier refuses 403, and otherwise the decoded claims are put on
    the request and the next handler runs. The first field is never compared
    with `Bearer`. */
module AuthMiddleware {
  import opened Results
  import opened HttpStatus

  const UnauthorizedAccess := "Unauthorized access"

  /** `fields.join(sep)`. */
  function Join(fields: seq<string>, sep: char): (r: string)
    requires |fields| >= 1
    decreases |fields|
  {
    if |fields| == 1 then fields[0] else fields[0] + [sep] + Join(fields[1..], sep)
  }

  /** `s.split(sep)` for a one-character separator: the pieces between the
      separators, empty pieces included. */
  function Split(s: string, sep: char): (r: seq<string>)
    ensures |r| >= 1
    ensures forall i :: 0 <= i < |r| ==> sep !in r[i]
    ensures Join(r, sep) == s
    decreases |s|
  {
    if |s| == 0 then [""]
    else if s[0] == sep then
      var rest := Split(s[1..], sep);
      assert s == [sep] + s[1..];
      [""] + rest
    else
      var rest := Split(s[1..], sep);
      var r := [[s[0]] + rest[0]] + rest[1..];
      assert r[1..] == rest[1..];
      assert s == [s[0]] + s[1..];
      r
  }

  /** A field that ends at a separator (or at the end) is the first piece. */
  lemma {:induction false} SplitField(a: string, sep: char, b: string)
    requires sep !in a
    ensures Split(a + [sep] + b, sep) == [a] + Split(b, sep)
    ensures Split(a, sep) == [a]
    decreases |a|
  {
    if |a| > 0 {
      SplitField(a[1..], sep, b);
      var s := a + [sep] + b;
      assert s[0] == a[0] && s[0] != sep;
      assert s[1..] == a[1..] + [sep] + b;
      var rest := Split(s[1..], sep);
      assert rest[0] == a[1..] && rest[1..] == Split(b, sep);
      assert [a[0]] + a[1..] == a;
    } else {
      assert a + [sep] + b == [sep] + b;
    }
  }

  /** Joining pieces that hold no separator and splitting again gives the
      pieces back. */
  lemma {:induction false} SplitJoin(fields: seq<string>, sep: char)
    requires |fields| >= 1
    requires forall i :: 0 <= i < |fields| ==> sep !in fields[i]
    ensures Split(Join(fields, sep), sep) == fields
    decreases |fields|
  {
    SplitField(fields[0], sep, "");
    if |fields| > 1 {
      SplitJoin(fields[1..], sep);
      SplitField(fields[0], sep, Join(fields[1..], sep));
      assert fields == [fields[0]] + fields[1..];
    }
  }

  /** `authorization && authorization.split(" ")[1]`: an absent header gives
      `undefined`, an empty one gives the empty string itself, any other the
      piece at index 1 if there is one. */
  function ExtractToken(authorization: Option<string>): (t: Option<string>)
    ensures authorization.None? ==> t.None?
    ensures t.Some? && t.value != "" ==> ' ' !in t.value
    ensures t.Some? && t.value != "" ==> authorization.Some? && ' ' in authorization.value
  {
    match authorization
    case None => None
    case Some(a) =>
      if a == "" then Some(a)
      else
        var fields := Split(a, ' ');
        if |fields| >= 2 then
          assert ' ' in a by {
            if ' ' !in a { SplitField(a, ' ', ""); }
          }
          Some(fields[1])
        else None
  }

  /** `!token`: undefined and the empty string are falsy. */
  predicate Falsy(token: Option<string>)
  {
    token.None? || token.value == ""
  }

  /** A field followed by a separator or by nothing is the first piece. */
  lemma FirstField(a: string, sep: char, rest: string)
    requires sep !in a
    requires rest == "" || rest[0] == sep
    ensures Split(a + rest, sep)[0] == a
  {
    if rest == "" {
      SplitField(a, sep, "");
      assert a + rest == a;
    } else {
      SplitField(a, sep, rest[1..]);
      assert a + rest == a + [sep] + rest[1..];
    }
  }

  /** The second field is the token whatever the first field says. */
  lemma SecondFieldIsToken(scheme: string, token: string, rest: string)
    requires ' ' !in scheme && ' ' !in token
    requires rest == "" || rest[0] == ' '
    ensures ExtractToken(Some(scheme + " " + token + rest)) == Some(token)
  {
    var tail := token + rest;
    var a := scheme + " " + token + rest;
    assert a == scheme + [' '] + tail;
    SplitField(scheme, ' ', tail);
    FirstField(token, ' ', rest);
    var fields := Split(a, ' ');
    assert fields == [scheme] + Split(tail, ' ');
    assert fields[1] == token;
    assert a != "";
  }

  /** A non-empty header without a space has no second field. */
  lemma NoSpaceNoToken(a: string)
    requires a != "" && ' ' !in a
    ensures ExtractToken(Some(a)) == None
  {
    SplitField(a, ' ', "");
  }

  /** `"Bearer "` and `"Bearer  x"`: the second field is empty. */
  lemma EmptySecondField(scheme: string, rest: string)
    requires ' ' !in scheme
    requires rest == "" || rest[0] == ' '
    ensures ExtractToken(Some(scheme + " " + rest)) == Some("")
  {
    SecondFieldIsToken(scheme, "", rest);
    assert scheme + " " + "" + rest == scheme + " " + rest;
  }

  lemma TokenExamples()
    ensures ExtractToken(Some("X abc")) == Some("abc")
    ensures ExtractToken(Some("a b c")) == Some("b")
    ensures ExtractToken(Some("Bearer")) == None
    ensures ExtractToken(Some("Bearer ")) == Some("")
    ensures ExtractToken(Some("Bearer  x")) == Some("")
    ensures ExtractToken(Some("")) == Some("")
  {
    SecondFieldIsToken("X", "abc", "");
    assert "X" + " " + "abc" + "" == "X abc";
    SecondFieldIsToken("a", "b", " c");
    assert "a" + " " + "b" + " c" == "a b c";
    NoSpaceNoToken("Bearer");
    EmptySecondField("Bearer", "");
    assert "Bearer" + " " + "" == "Bearer ";
    EmptySecondField("Bearer", " x");
    assert "Bearer" + " " + " x" == "Bearer  x";
  }

  /** The decoded token payload; only `sub` is read downstream. */
  datatype Claims = Claims(sub: Option<string>)

  /** What `Jwt.verify` hands its callback: the payload, or an error. */
  datatype Verified = Decoded(claims: Claims) | Refused(message: string)

  /** What the middleware decides for a request. */
  datatype Decision = Deny(status: int, message: string) | Admit(claims: Claims)

  /** The middleware's decision, with the verifier (signature and expiry
      checks under the configured secret) as a parameter. */
  function Gate(authorization: Option<string>, verify: string -> Verified): (d: Decision)
    ensures authorization.None? ==> d == Deny(Unauthorized, UnauthorizedAccess)
    ensures d == Deny(Unauthorized, UnauthorizedAccess) <==> Falsy(ExtractToken(authorization))
    ensures d.Deny? && d.status == Unauthorized ==> d.message == UnauthorizedAccess
    ensures d.Admit? ==>
      !Falsy(ExtractToken(authorization)) && verify(ExtractToken(authorization).value) == Decoded(d.claims)
    ensures !Falsy(ExtractToken(authorization)) && verify(ExtractToken(authorization).value).Decoded? ==>
      d.Admit?
    ensures d.Deny? && d.status == Forbidden ==>
      !Falsy(ExtractToken(authorization)) && verify(ExtractToken(authorization).value) == Refused(d.message)
    ensures !Falsy(ExtractToken(authorization)) && verify(ExtractToken(authorization).value).Refused? ==>
      d == Deny(Forbidden, verify(ExtractToken(authorization).value).message)
    ensures d.Deny? ==> d.status == Unauthorized || d.status == Forbidden
  {
    var token := ExtractToken(authorization);
    if Falsy(token) then Deny(Unauthorized, UnauthorizedAccess)
    else
      match verify(token.value)
      case Refused(message) => Deny(Forbidden, message)
      case Decoded(claims) => Admit(claims)
  }

  /** Any scheme word is accepted: only the token reaches the verifier. */
  lemma SchemeNotInspected(scheme: string, token: string, verify: string -> Verified)
    requires ' ' !in scheme && ' ' !in token && token != ""
    ensures Gate(Some(scheme + " " + token), verify) ==
      match verify(token)
      case Refused(message) => Deny(Forbidden, message)
      case Decoded(claims) => Admit(claims)
  {
    SecondFieldIsToken(scheme, token, "");
    assert scheme + " " + token + "" == scheme + " " + token;
  }

  /** The body of the error responses. */
  datatype Body = Body(message: string, statusCode: int)

  class Request {
    const authorization: Option<string>
    /** `req.user`. */
    var user: Option<Claims>

    constructor (authorization: Option<string>)
      ensures this.authorization == authorization && user.None?
    {
      this.authorization := authorization;
      user := None;
    }
  }

  class Response {
    var status: Option<int>
    var sent: Option<Body>

    constructor ()
      ensures status.None? && sent.None?
    {
      status := None;
      sent := None;
    }

    /** `res.status(code).send(body)`. */
    method Reply(code: int, body: Body)
      modifies this
      ensures status == Some(code) && sent == Some(body)
    {
      status := Some(code);
      sent := Some(body);
    }
  }

  /** Express's `next`, counting its calls. */
  class Next {
    var calls: nat

    constructor ()
      ensures calls == 0
    {
      calls := 0;
    }

    method Call()
      modifies this
      ensures calls == old(calls) + 1
    {
      calls := calls + 1;
    }
  }

  /** The `auth` middleware. */
  method Auth(req: Request, res: Response, next: Next, verify: string -> Verified)
    modifies req, res, next
    ensures Gate(req.authorization, verify).Deny? ==>
      var d := Gate(req.authorization, verify);
      && res.status == Some(d.status) && res.sent == Some(Body(d.message, d.status))
      && req.user == old(req.user) && next.calls == old(next.calls)
    ensures Gate(req.authorization, verify).Admit? ==>
      && req.user == Some(Gate(req.authorization, verify).claims)
      && next.calls == old(next.calls) + 1
      && res.status == old(res.status) && res.sent == old(res.sent)
  {
    var token := ExtractToken(req.authorization);
    if Falsy(token) {
      res.Reply(Unauthorized, Body(UnauthorizedAccess, Unauthorized));
      return;
    }
    var outcome := verify(token.value);
    if outcome.Refused? {
      res.Reply(Forbidden, Body(outcome.message, Forbidden));
      return;
    }
    req.user := Some(outcome.claims);
    next.Call();
  }
}
