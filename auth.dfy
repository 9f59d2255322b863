/**
  The authentication middleware: pulling the token out of the
  `Authorization` header, checking it, and the role gate. Signing and
  verifying a JWT are parameters of the model (`verify`), with the secret
  folded into them.
 */
module Auth {
  import opened Basics
  import opened Tables
  import opened Schema

  /** The signing secret used when the environment sets none. */
  const DEFAULT_JWT_SECRET := "supersecretjwt"

  /** `process.env.JWT_SECRET || "supersecretjwt"`: an unset or empty variable falls back. */
  function JwtSecret(env: Option<string>): (secret: string)
    ensures env.Some? && env.value != "" ==> secret == env.value
    ensures env.None? || env.value == "" ==> secret == DEFAULT_JWT_SECRET
    ensures secret != ""
  {
    if env.Some? && env.value != "" then env.value else DEFAULT_JWT_SECRET
  }

  /** The claims a token carries and a verified token hands back as `req.user`. */
  datatype Principal = Principal(id: Id, username: string, role: string)

  /** The claims `generateToken` signs for a user: id, username and role, nothing else. */
  function Claims(u: User): (p: Principal)
    ensures p.id == u.id && p.username == u.username && p.role == u.role
  {
    Principal(u.id, u.username, u.role)
  }

  // ---- splitting the header ----

  /** The fields joined back together with the separator between them. */
  function Join(fields: seq<string>, sep: char): string
    requires |fields| >= 1
  {
    if |fields| == 1 then fields[0] else fields[0] + [sep] + Join(fields[1..], sep)
  }

  /**
    `s.split(sep)` for a one-character separator: the pieces between the
    separators, empty pieces included, never none.
   */
  function Split(s: string, sep: char): (fields: seq<string>)
    ensures |fields| >= 1
    ensures forall i :: 0 <= i < |fields| ==> sep !in fields[i]
    ensures Join(fields, sep) == s
    decreases |s|
  {
    if sep !in s then [s]
    else
      var i := IndexOf(s, sep);
      assert s == s[..i] + [sep] + s[i + 1..];
      [s[..i]] + Split(s[i + 1..], sep)
  }

  /** Splitting a join of separator-free fields gives the fields back. */
  lemma {:induction false} SplitJoin(fields: seq<string>, sep: char)
    requires |fields| >= 1
    requires forall i :: 0 <= i < |fields| ==> sep !in fields[i]
    ensures Split(Join(fields, sep), sep) == fields
  {
    var s := Join(fields, sep);
    if |fields| == 1 {
      assert s == fields[0];
    } else {
      var first, rest := fields[0], Join(fields[1..], sep);
      assert s == first + [sep] + rest;
      SplitCons(first, sep, rest);
      SplitJoin(fields[1..], sep);
      assert fields == [first] + fields[1..];
    }
  }

  /** A separator-free first field is split off whole. */
  lemma SplitCons(first: string, sep: char, rest: string)
    requires sep !in first
    ensures Split(first + [sep] + rest, sep) == [first] + Split(rest, sep)
  {
    IndexOfJoin(first, sep, rest);
  }

  // ---- authenticateToken ----

  /**
    `authHeader && authHeader.split(' ')[1]`, truthy: the second
    space-separated field, when there is one and it is not empty. The
    first field is not looked at.
   */
  function ExtractToken(header: Option<string>): (token: Option<string>)
    ensures token.Some? ==> header.Some? && token.value != "" && ' ' !in token.value
    ensures token.Some? ==> |token.value| < |header.value|
  {
    if header.None? then None
    else
      var fields := Split(header.value, ' ');
      if |fields| < 2 || fields[1] == "" then None
      else
        JoinLength(fields, ' ');
        Some(fields[1])
  }

  lemma {:induction false} JoinLength(fields: seq<string>, sep: char)
    requires |fields| >= 2
    ensures |Join(fields, sep)| > |fields[0]| + |fields[1]|
  {
    if |fields| > 2 {
      JoinLength(fields[1..], sep);
    }
  }

  /**
    Whatever the first word is, the token is what lies between the first
    space and the next one (or the end); when that is empty, as with two
    spaces in a row, there is no token. Later words are ignored.
   */
  lemma SchemeNotChecked(scheme: string, token: string, rest: string)
    requires ' ' !in scheme && ' ' !in token
    requires rest == "" || rest[0] == ' '
    ensures ExtractToken(Some(scheme + " " + token + rest)) == if token == "" then None else Some(token)
  {
    SecondField(scheme, token, rest);
  }

  /** The second field of such a header is the word after the first space. */
  lemma SecondField(scheme: string, token: string, rest: string)
    requires ' ' !in scheme && ' ' !in token
    requires rest == "" || rest[0] == ' '
    ensures |Split(scheme + " " + token + rest, ' ')| >= 2
    ensures Split(scheme + " " + token + rest, ' ')[1] == token
  {
    var header, tail := scheme + " " + token + rest, token + rest;
    assert header == scheme + [' '] + tail;
    SplitCons(scheme, ' ', tail);
    FirstField(token, rest);
  }

  /** A space-free word followed by nothing or by a space is the first field. */
  lemma FirstField(token: string, rest: string)
    requires ' ' !in token
    requires rest == "" || rest[0] == ' '
    ensures Split(token + rest, ' ')[0] == token
  {
    if rest == "" {
      assert token + rest == token;
    } else {
      assert token + rest == token + [' '] + rest[1..];
      SplitCons(token, ' ', rest[1..]);
    }
  }

  /** A header with no space in it carries no token. */
  lemma NoSpaceNoToken(header: string)
    requires ' ' !in header
    ensures ExtractToken(Some(header)).None?
  {
  }

  /** What the middleware does with a request: let it through with a user, or answer it. */
  datatype Outcome = Authenticated(user: Principal) | Denied(code: int, message: string)

  /**
    `authenticateToken`: no token is 401, a token `verify` rejects is 403,
    and a verified token's payload becomes the request's user.
   */
  function Authenticate(header: Option<string>, verify: string -> Option<Principal>): (r: Outcome)
    ensures ExtractToken(header).None? <==> r == Denied(UNAUTHORIZED, "Access token required")
    ensures r == Denied(FORBIDDEN, "Invalid or expired token") <==>
              ExtractToken(header).Some? && verify(ExtractToken(header).value).None?
    ensures r.Authenticated? ==> Some(r.user) == verify(ExtractToken(header).value)
  {
    match ExtractToken(header)
    case None => Denied(UNAUTHORIZED, "Access token required")
    case Some(token) =>
      match verify(token)
      case None => Denied(FORBIDDEN, "Invalid or expired token")
      case Some(user) => Authenticated(user)
  }

  /**
    A token issued at login, sent back as `Bearer <token>`, authenticates
    as the logged-in user whenever verifying what was signed gives the
    claims back.
   */
  lemma IssuedTokenAuthenticates(u: User, signToken: Principal -> string, verify: string -> Option<Principal>)
    requires forall p :: ' ' !in signToken(p) && signToken(p) != ""
    requires forall p :: verify(signToken(p)) == Some(p)
    ensures Authenticate(Some("Bearer " + signToken(Claims(u))), verify) == Authenticated(Claims(u))
  {
    var token := signToken(Claims(u));
    SchemeNotChecked("Bearer", token, "");
    assert "Bearer " + token + "" == "Bearer " + token;
  }

  // ---- requireRole ----

  /** What the role gate does: pass the request on, or answer it. */
  datatype Gate = Next | Reject(code: int, message: string)

  /**
    `requireRole(role)`: a request passes when it has a user whose role is
    `role` or admin; no user is 401 and any other role is 403.
   */
  function RequireRole(role: string, user: Option<Principal>): (r: Gate)
    ensures r.Next? <==> user.Some? && (user.value.role == role || user.value.role == ADMIN)
    ensures user.None? ==> r == Reject(UNAUTHORIZED, "Authentication required")
    ensures user.Some? && !r.Next? ==> r == Reject(FORBIDDEN, "Insufficient permissions")
    ensures user.Some? && user.value.role == ADMIN ==> r.Next?
  {
    if user.None? then Reject(UNAUTHORIZED, "Authentication required")
    else if user.value.role != role && user.value.role != ADMIN then Reject(FORBIDDEN, "Insufficient permissions")
    else Next
  }

  /**
    Registration stores whatever role the input names, so an account that
    registers itself as admin passes every role gate.
   */
  lemma SelfChosenAdminPassesEveryGate(id: Id, username: string, password: string, now: Millis, role: string)
    ensures RequireRole(role, Some(Claims(NewUser(id, InsertUser(username, password, Some(ADMIN)), now)))) == Next
  {
  }
}
