/** The authentication gate (`authMiddleware`, backend/server.js:274-285) and
    the login and current-user handlers (backend/server.js:290-308). Token
    signing and verification and the password hash comparison are foreign
    calls, passed in as functions. */
module Auth {
  import opened Json
  import opened Seqs
  import opened Store

  /** `s.split(sep)` for a one-character separator: the pieces between
      separators, empty pieces included. */
  function Split(s: string, sep: char): (pieces: seq<string>)
    ensures |pieces| >= 1
    ensures forall i :: 0 <= i < |pieces| ==> sep !in pieces[i]
    decreases |s|
  {
    if |s| == 0 then [""]
    else
      var rest := Split(s[1..], sep);
      if s[0] == sep then [""] + rest
      else [[s[0]] + rest[0]] + rest[1..]
  }

  /** `pieces.join(sep)`. */
  function Join(pieces: seq<string>, sep: char): string
    decreases |pieces|
  {
    if |pieces| == 0 then ""
    else if |pieces| == 1 then pieces[0]
    else pieces[0] + [sep] + Join(pieces[1..], sep)
  }

  /** Splitting loses nothing: joining the pieces gives back the header. */
  lemma {:induction false} SplitJoin(s: string, sep: char)
    ensures Join(Split(s, sep), sep) == s
    decreases |s|
  {
    if |s| > 0 {
      SplitJoin(s[1..], sep);
      var rest := Split(s[1..], sep);
      if s[0] == sep {
        assert s == [sep] + s[1..];
      } else {
        assert s == [s[0]] + s[1..];
        if |rest| > 1 {
          assert Join(rest, sep) == rest[0] + [sep] + Join(rest[1..], sep);
          assert ([[s[0]] + rest[0]] + rest[1..])[1..] == rest[1..];
        }
      }
    }
  }

  /** A string without the separator splits into itself; one with a leading
      separator-free word splits at its first separator. */
  lemma {:induction false} SplitPrefix(a: string, b: string, sep: char)
    requires sep !in a
    ensures Split(a + [sep] + b, sep) == [a] + Split(b, sep)
    decreases |a|
  {
    if |a| == 0 {
      assert a + [sep] + b == [sep] + b;
      assert ([sep] + b)[1..] == b;
    } else {
      assert (a + [sep] + b)[1..] == a[1..] + [sep] + b;
      SplitPrefix(a[1..], b, sep);
      assert a == [a[0]] + a[1..];
    }
  }

  lemma {:induction false} SplitNoSeparator(s: string, sep: char)
    requires sep !in s
    ensures Split(s, sep) == [s]
    decreases |s|
  {
    if |s| > 0 {
      SplitNoSeparator(s[1..], sep);
      assert s == [s[0]] + s[1..];
    }
  }

  /** `req.headers.authorization?.split(' ')[1]`: the second space-separated
      piece of the Authorization header, if there is one. */
  function BearerToken(header: Option<string>): (t: Option<string>)
    ensures header.None? ==> t.None?
    ensures header.Some? ==> (t.Some? <==> |Split(header.value, ' ')| >= 2)
    ensures t.Some? ==> t.value == Split(header.value, ' ')[1] && ' ' !in t.value
  {
    match header
    case None => None
    case Some(h) =>
      var pieces := Split(h, ' ');
      if |pieces| >= 2 then Some(pieces[1]) else None
  }

  /** The header the admin client sends, `Bearer <token>`, yields the token. */
  lemma BearerRoundTrip(token: string)
    requires ' ' !in token
    ensures BearerToken(Some("Bearer " + token)) == Some(token)
  {
    assert "Bearer " + token == "Bearer" + [' '] + token;
    SplitPrefix("Bearer", token, ' ');
    SplitNoSeparator(token, ' ');
  }

  /** The gate's decision: admit with the verified claims, or refuse with
      status 401 and one of two messages. */
  datatype Decision = Admit(claims: Record) | Refuse(message: string)

  const NoToken := "No token provided"
  const BadToken := "Invalid token"

  /** `authMiddleware`. `verify` stands for `jwt.verify` with the server
      secret: `None` for a token that is malformed, wrongly signed or expired
      (the thrown error), the decoded claims otherwise. */
  function Gate(header: Option<string>, verify: string -> Option<Record>): (d: Decision)
    ensures d.Refuse? && d.message == NoToken
            <==> BearerToken(header).None? || BearerToken(header).value == ""
    ensures d.Refuse? && d.message == BadToken
            <==> BearerToken(header).Some? && BearerToken(header).value != ""
                 && verify(BearerToken(header).value).None?
    ensures d.Admit? <==> BearerToken(header).Some? && BearerToken(header).value != ""
                          && verify(BearerToken(header).value).Some?
    ensures d.Admit? ==> Some(d.claims) == verify(BearerToken(header).value)
  {
    match BearerToken(header)
    case None => Refuse(NoToken)
    case Some(t) =>
      if t == "" then Refuse(NoToken)
      else match verify(t)
        case None => Refuse(BadToken)
        case Some(c) => Admit(c)
  }

  /** A request without an Authorization header never passes the gate. */
  lemma NoHeaderRefused(verify: string -> Option<Record>)
    ensures Gate(None, verify) == Refuse(NoToken)
  {
  }

  /** A well-formed bearer header passes exactly when the token verifies. */
  lemma BearerGate(token: string, verify: string -> Option<Record>)
    requires ' ' !in token && token != ""
    ensures Gate(Some("Bearer " + token), verify)
         == match verify(token) case None => Refuse(BadToken) case Some(c) => Admit(c)
  {
    BearerRoundTrip(token);
  }

  /** The three outcomes of `bcrypt.compareSync`; it throws on arguments that
      are not strings, which the framework answers with status 500. */
  datatype Check = Matches | Differs | Throws

  /** The claims signed into a session token. */
  const ClaimKeys := {"id", "email", "role"}

  /** The user fields a response may show; never the password hash. */
  const ViewKeys := {"id", "email", "name", "role"}

  function Claims(u: Record): Record { Pick(u, ClaimKeys) }

  function View(u: Record): Record { Pick(u, ViewKeys) }

  /** The user view carries no password, and every field it does carry is
      the stored one. */
  lemma ViewHidesPassword(u: Record)
    ensures "password" !in View(u)
    ensures forall k :: k in View(u) ==> k in ViewKeys && View(u)[k] == u[k]
  {
  }

  predicate HasEmail(u: Record, email: Option<Value>) {
    StrictEq(Get(u, "email"), email)
  }

  /** `users[i]` is the user `users.find(u => u.email === email)` returns. */
  predicate FirstEmail(users: seq<Record>, i: int, email: Option<Value>) {
    && 0 <= i < |users|
    && HasEmail(users[i], email)
    && forall j :: 0 <= j < i ==> !HasEmail(users[j], email)
  }

  /** The body of a successful login. */
  function Session(u: Record, sign: Record -> string): Value {
    VObj(map["token" := VStr(sign(Claims(u))), "user" := VObj(View(u))])
  }

  /** `POST /api/auth/login`. The first user whose e-mail is strictly equal
      to the body's is checked with `compare` (bcrypt); on a match the reply
      carries the token `sign` makes of the user's id, e-mail and role, and
      the user view. */
  function Login(st: Store, body: Record,
                 compare: (Option<Value>, Option<Value>) -> Check,
                 sign: Record -> string): (r: Reply)
    ensures r.store == st
    ensures r.status in {200, 401, 500}
    ensures var email := Get(body, "email");
      (forall u :: u in Read(st, Users) ==> !HasEmail(u, email)) ==>
        r.status == 401 && r.body == ErrorBody("Invalid credentials")
    ensures forall i :: FirstEmail(Read(st, Users), i, Get(body, "email")) ==>
      var check := compare(Get(body, "password"), Get(Read(st, Users)[i], "password"));
      && (check == Matches ==> r.status == 200 && r.body == Session(Read(st, Users)[i], sign))
      && (check == Differs ==> r.status == 401 && r.body == ErrorBody("Invalid credentials"))
      && (check == Throws ==> r.status == 500 && r.body == VNull)
    ensures r.status == 200 ==>
      exists i :: FirstEmail(Read(st, Users), i, Get(body, "email"))
        && compare(Get(body, "password"), Get(Read(st, Users)[i], "password")) == Matches
        && r.body == Session(Read(st, Users)[i], sign)
  {
    var users := Read(st, Users);
    var email := Get(body, "email");
    match FindIndex(users, (u: Record) => HasEmail(u, email))
    case None =>
      Reply(st, 401, ErrorBody("Invalid credentials"))
    case Some(i) =>
      assert FirstEmail(users, i, email);
      match compare(Get(body, "password"), Get(users[i], "password"))
      case Differs => Reply(st, 401, ErrorBody("Invalid credentials"))
      case Throws => Reply(st, 500, VNull)
      case Matches => Reply(st, 200, Session(users[i], sign))
  }

  /** Only the first user with the e-mail decides a login: users stored
      after it, whatever they hold, do not change the answer. */
  lemma LoginFirstMatchDecides(st: Store, more: seq<Record>, body: Record,
                               compare: (Option<Value>, Option<Value>) -> Check,
                               sign: Record -> string)
    requires exists u :: u in Read(st, Users) && HasEmail(u, Get(body, "email"))
    ensures var st' := Write(st, Users, Read(st, Users) + more);
      var r, r' := Login(st, body, compare, sign), Login(st', body, compare, sign);
      r'.status == r.status && r'.body == r.body
  {
    var users := Read(st, Users);
    var email := Get(body, "email");
    var st' := Write(st, Users, users + more);
    match FindIndex(users, (u: Record) => HasEmail(u, email))
    case None =>
      assert false;
    case Some(i) =>
      assert FirstEmail(users, i, email);
      assert (users + more)[i] == users[i];
      assert FirstEmail(users + more, i, email);
  }

  /** `users[i]` is the user `users.find(u => u.id === id)` returns. */
  predicate FirstId(users: seq<Record>, i: int, id: Option<Value>) {
    && 0 <= i < |users|
    && StrictEq(Get(users[i], "id"), id)
    && forall j :: 0 <= j < i ==> !StrictEq(Get(users[j], "id"), id)
  }

  /** `GET /api/auth/me`, behind the gate: the view of the first user whose
      id is strictly equal to the token's, or 404 when there is none. */
  function Me(st: Store, claims: Record): (r: Reply)
    ensures r.store == st
    ensures r.status == 200 <==>
      exists u :: u in Read(st, Users) && StrictEq(Get(u, "id"), Get(claims, "id"))
    ensures r.status != 200 ==> r.status == 404 && r.body == ErrorBody("User not found")
    ensures forall i :: FirstId(Read(st, Users), i, Get(claims, "id")) ==>
      r.status == 200 && r.body == VObj(View(Read(st, Users)[i]))
    ensures r.status == 200 ==> r.body.VObj? && "password" !in r.body.fields
  {
    var users := Read(st, Users);
    match FindIndex(users, (u: Record) => StrictEq(Get(u, "id"), Get(claims, "id")))
    case None =>
      assert forall u :: u in users ==> !StrictEq(Get(u, "id"), Get(claims, "id")) by {
        forall u | u in users ensures !StrictEq(Get(u, "id"), Get(claims, "id")) {
          var j :| 0 <= j < |users| && users[j] == u;
          assert !((u: Record) => StrictEq(Get(u, "id"), Get(claims, "id")))(users[j]);
        }
      }
      Reply(st, 404, ErrorBody("User not found"))
    case Some(i) =>
      assert FirstId(users, i, Get(claims, "id"));
      Reply(st, 200, VObj(View(users[i])))
  }

  /** Every user has a string id and no two users share one. */
  ghost predicate DistinctIds(users: seq<Record>) {
    && (forall i :: 0 <= i < |users| ==> Get(users[i], "id").Some? && Get(users[i], "id").value.VStr?)
    && (forall i, j :: 0 <= i < |users| && 0 <= j < |users| && Get(users[i], "id") == Get(users[j], "id") ==> i == j)
  }

  /** Logging in and then presenting the token as `Bearer <token>` passes the
      gate with claims that carry the user's id, e-mail and role, and `/me`
      answers with the same user view the login returned. This holds when
      the token contains no space and verification returns every claim
      that was signed (it may add its own, as `iat` and `exp`), and user ids
      are distinct strings. */
  lemma LoginThenMe(st: Store, body: Record,
                    compare: (Option<Value>, Option<Value>) -> Check,
                    sign: Record -> string, verify: string -> Option<Record>)
    requires Login(st, body, compare, sign).status == 200
    requires forall c :: verify(sign(c)).Some?
    requires forall c, k :: k in c ==> k in verify(sign(c)).value && verify(sign(c)).value[k] == c[k]
    requires forall c :: ' ' !in sign(c) && sign(c) != ""
    requires DistinctIds(Read(st, Users))
    ensures var r := Login(st, body, compare, sign);
      && r.body.VObj? && "token" in r.body.fields && r.body.fields["token"].VStr?
      && "user" in r.body.fields && r.body.fields["user"].VObj?
      && var d := Gate(Some("Bearer " + r.body.fields["token"].s), verify);
      && d.Admit?
      && (forall k :: k in ClaimKeys && k in r.body.fields["user"].fields ==>
            k in d.claims && d.claims[k] == r.body.fields["user"].fields[k])
      && Me(st, d.claims) == Reply(st, 200, r.body.fields["user"])
  {
    var users := Read(st, Users);
    var r := Login(st, body, compare, sign);
    var i :| FirstEmail(users, i, Get(body, "email"))
        && compare(Get(body, "password"), Get(users[i], "password")) == Matches
        && r.body == Session(users[i], sign);
    BearerGate(sign(Claims(users[i])), verify);
    SignedClaims(users[i], sign, verify);
    DistinctFirstId(users, i);
  }

  /** What verification returns for a user's token carries the user's
      id, e-mail and role. */
  lemma SignedClaims(u: Record, sign: Record -> string, verify: string -> Option<Record>)
    requires forall c :: verify(sign(c)).Some?
    requires forall c, k :: k in c ==> k in verify(sign(c)).value && verify(sign(c)).value[k] == c[k]
    ensures var claims := verify(sign(Claims(u))).value;
      forall k :: k in ClaimKeys && k in View(u) ==> k in claims && claims[k] == View(u)[k]
    ensures "id" in u ==> Get(verify(sign(Claims(u))).value, "id") == Get(u, "id")
  {
    var c := Claims(u);
    assert forall k :: k in ClaimKeys && k in View(u) ==> k in c && c[k] == View(u)[k];
  }

  /** With distinct string ids, each user is the first with its own id. */
  lemma DistinctFirstId(users: seq<Record>, i: int)
    requires DistinctIds(users) && 0 <= i < |users|
    ensures FirstId(users, i, Get(users[i], "id"))
  {
  }
}
