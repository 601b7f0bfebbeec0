/**
 * The request authentication gate (`authenticate`): reads the Authorization
 * header, takes the second space-separated field as the token, and either
 * answers 401 or records the token's user id on the request and passes it on.
 *
 * Token verification (`jwt.verify` with the server's secret) is injected as a
 * partial function from token to user id: `None` stands for a thrown error.
 */
module AuthMiddleware {
  import opened Wrappers

  type UserId = nat

  /** JavaScript's `s.split(sep)` for a one-character separator. */
  function Split(s: string, sep: char): (fields: seq<string>)
    ensures |fields| >= 1
    ensures forall i :: 0 <= i < |fields| ==> sep !in fields[i]
    decreases |s|
  {
    if |s| == 0 then [""]
    else
      var rest := Split(s[1..], sep);
      if s[0] == sep then [""] + rest
      else [[s[0]] + rest[0]] + rest[1..]
  }

  /** The inverse of `Split`: the fields glued back together with the separator. */
  function Join(fields: seq<string>, sep: char): string
    decreases |fields|
  {
    if |fields| == 0 then ""
    else if |fields| == 1 then fields[0]
    else fields[0] + [sep] + Join(fields[1..], sep)
  }

  /** Splitting loses nothing: joining the fields gives back the header. */
  lemma {:induction false} JoinSplit(s: string, sep: char)
    ensures Join(Split(s, sep), sep) == s
    decreases |s|
  {
    if |s| > 0 {
      JoinSplit(s[1..], sep);
      var rest := Split(s[1..], sep);
      if s[0] == sep {
        assert s == [sep] + s[1..];
      } else {
        if |rest| == 1 {
          assert Split(s, sep) == [[s[0]] + rest[0]];
        } else {
          assert Split(s, sep)[1..] == rest[1..];
          assert s == [s[0]] + s[1..];
        }
      }
    }
  }

  /** A string free of the separator is a single field. */
  lemma {:induction false} SplitNoSeparator(a: string, sep: char)
    requires sep !in a
    ensures Split(a, sep) == [a]
    decreases |a|
  {
    if |a| > 0 {
      SplitNoSeparator(a[1..], sep);
      assert [a[0]] + a[1..] == a;
    }
  }

  /** A leading field free of the separator splits off first. */
  lemma {:induction false} SplitFirstField(a: string, b: string, sep: char)
    requires sep !in a
    ensures Split(a + [sep] + b, sep) == [a] + Split(b, sep)
    decreases |a|
  {
    var s := a + [sep] + b;
    if |a| == 0 {
      assert s[1..] == b;
    } else {
      assert s[1..] == a[1..] + [sep] + b;
      SplitFirstField(a[1..], b, sep);
      assert [a[0]] + a[1..] == a;
    }
  }

  /** Fields free of the separator come back unchanged from `Split(Join(...))`. */
  lemma {:induction false} SplitJoin(fields: seq<string>, sep: char)
    requires |fields| >= 1
    requires forall i :: 0 <= i < |fields| ==> sep !in fields[i]
    ensures Split(Join(fields, sep), sep) == fields
    decreases |fields|
  {
    if |fields| == 1 {
      SplitNoSeparator(fields[0], sep);
    } else {
      SplitJoin(fields[1..], sep);
      SplitFirstField(fields[0], Join(fields[1..], sep), sep);
      assert [fields[0]] + fields[1..] == fields;
    }
  }

  /** `authHeader.split(" ")[1]`, which is `undefined` when the header holds no space. */
  function BearerToken(header: string): (r: Option<string>)
    ensures r.Some? ==> ' ' !in r.value
    ensures r.None? ==> Split(header, ' ') == [header]
  {
    var fields := Split(header, ' ');
    if |fields| >= 2 then Some(fields[1])
    else
      JoinSplit(header, ' ');
      assert Join(fields, ' ') == fields[0];
      None
  }

  /** A header `<scheme> <token>` yields exactly its token. */
  lemma BearerTokenOfScheme(scheme: string, token: string)
    requires ' ' !in scheme && ' ' !in token
    ensures BearerToken(scheme + " " + token) == Some(token)
  {
    SplitJoin([scheme, token], ' ');
    assert Join([token], ' ') == token;
  }

  /** There is a token exactly when the header contains a space. */
  lemma NoTokenWithoutSpace(header: string)
    ensures BearerToken(header).None? <==> ' ' !in header
  {
    var fields := Split(header, ' ');
    JoinSplit(header, ' ');
    if |fields| == 1 {
      assert Join(fields, ' ') == fields[0];
    } else {
      assert header == fields[0] + [' '] + Join(fields[1..], ' ');
      assert header[|fields[0]|] == ' ';
    }
  }

  /** The middleware's decision: answer 401 with an error, or pass on with a user id. */
  datatype GateOutcome = Reject(status: nat, error: string) | Pass(userId: UserId)

  /** What `authenticate` decides for a header (`None` when the request carries none). */
  function Gate(header: Option<string>, verify: string -> Option<UserId>): (r: GateOutcome)
    ensures r.Reject? ==> r.status == 401
    ensures (header.None? || header == Some("")) ==> r == Reject(401, "Unauthorized")
    ensures r.Pass? <==> header.Some? && BearerToken(header.value).Some? && verify(BearerToken(header.value).value).Some?
    ensures r.Pass? ==> r.userId == verify(BearerToken(header.value).value).value
    ensures header.Some? && header.value != "" && r.Reject? ==> r.error == "Invalid token"
  {
    if header.None? || header.value == "" then Reject(401, "Unauthorized")
    else match BearerToken(header.value)
      case None => Reject(401, "Invalid token")
      case Some(token) =>
        match verify(token)
        case None => Reject(401, "Invalid token")
        case Some(userId) => Pass(userId)
  }

  /** The gate fails closed: a header without a token is refused whatever `verify` would accept. */
  lemma FailsClosed(header: string, verify: string -> Option<UserId>)
    requires header != "" && ' ' !in header
    ensures Gate(Some(header), verify) == Reject(401, "Invalid token")
  {
    NoTokenWithoutSpace(header);
  }

  /** A `Bearer <token>` header passes exactly when `verify` accepts the token, with its user id. */
  lemma BearerHeaderPasses(token: string, verify: string -> Option<UserId>)
    requires ' ' !in token
    ensures Gate(Some("Bearer " + token), verify) ==
      if verify(token).Some? then Pass(verify(token).value) else Reject(401, "Invalid token")
  {
    BearerTokenOfScheme("Bearer", token);
    assert "Bearer " + token == "Bearer" + " " + token;
  }

  /** The incoming request: its header and the `userId` the middleware may set. */
  class Request {
    const authorization: Option<string>
    var userId: Option<UserId>

    constructor (authorization: Option<string>)
      ensures this.authorization == authorization && userId == None
    {
      this.authorization := authorization;
      userId := None;
    }
  }

  /** The response: `res.status(...)` and the JSON `{ error }` body, once written. */
  class Response {
    var status: Option<nat>
    var error: Option<string>

    constructor ()
      ensures status == None && error == None
    {
      status := None;
      error := None;
    }
  }

  /**
   * `authenticate(req, res, next)`. The result says whether `next()` was called;
   * on every path exactly one of "respond 401" and "call next" happens.
   */
  method Authenticate(req: Request, res: Response, verify: string -> Option<UserId>)
    returns (nextCalled: bool)
    requires res.status == None
    modifies req, res
    ensures nextCalled <==> Gate(req.authorization, verify).Pass?
    ensures nextCalled ==> req.userId == Some(Gate(req.authorization, verify).userId) && res.status == None && res.error == old(res.error)
    ensures !nextCalled ==>
      (req.userId == old(req.userId) && res.status == Some(401) &&
       res.error == Some(Gate(req.authorization, verify).error))
  {
    var authHeader := req.authorization;
    if authHeader.None? || authHeader.value == "" {
      res.status, res.error := Some(401), Some("Unauthorized");
      return false;
    }
    var token := BearerToken(authHeader.value);
    var decoded := if token.Some? then verify(token.value) else None;
    if decoded.Some? {
      req.userId := Some(decoded.value);
      nextCalled := true;
    } else {
      res.status, res.error := Some(401), Some("Invalid token");
      nextCalled := false;
    }
  }
}
