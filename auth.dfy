/**
 * server/firebaseAuth.ts: the bearer-header check of `isAuthenticated`, the
 * `req.user` it builds, `syncFirebaseUser` (name splitting and the `''`
 * defaults written through the storage), and the status logic of
 * `/api/verify-token`. Token verification is a trusted oracle `verify` that
 * yields the decoded token or fails.
 */
module FirebaseAuth {
  import opened Wrappers
  import opened Schema
  import opened Storage
  import Queries

  /** The fields of a decoded ID token this code reads; `sub` is the subject claim. */
  datatype DecodedToken = DecodedToken(
    uid: string,
    sub: string,
    email: Option<string>,
    name: Option<string>,
    picture: Option<string>)

  /** `req.user.claims`: `sub` is set to the uid and the token's own `sub` is dropped. */
  datatype Claims = Claims(sub: string, email: Option<string>, uid: string, name: Option<string>, picture: Option<string>)

  /** `req.user`. */
  datatype AuthUser = AuthUser(
    uid: string,
    email: Option<string>,
    displayName: Option<string>,
    photoURL: Option<string>,
    claims: Claims)

  // ---------------------------------------------------------------- the header

  const Bearer: string := "Bearer "

  predicate StartsWith(s: string, prefix: string) {
    |prefix| <= |s| && s[..|prefix|] == prefix
  }

  /** `sep` occurs in `s` at position `k`. */
  predicate OccursAt(s: string, sep: string, k: nat) {
    k + |sep| <= |s| && s[k..k + |sep|] == sep
  }

  /** The first position at or after `from` where `sep` occurs in `s`. */
  function IndexOf(s: string, sep: string, from: nat): (r: Option<nat>)
    ensures r.Some? ==> from <= r.value && OccursAt(s, sep, r.value)
    ensures r.Some? ==> forall k | from <= k < r.value :: !OccursAt(s, sep, k)
    ensures r.None? ==> forall k | from <= k :: !OccursAt(s, sep, k)
    decreases |s| - from
  {
    if from + |sep| > |s| then None
    else if OccursAt(s, sep, from) then Some(from)
    else IndexOf(s, sep, from + 1)
  }

  /** The result of reading the Authorization header. */
  datatype HeaderCheck =
    | NoToken        // missing, or not starting with "Bearer "
    | InvalidFormat  // "Bearer " followed by nothing
    | Token(token: string)

  /**
   * `authHeader.split('Bearer ')[1]` for a header that starts with the prefix:
   * the text after the prefix up to the next occurrence of the prefix.
   */
  function SecondPiece(header: string): (r: string)
    requires StartsWith(header, Bearer)
    ensures StartsWith(header, Bearer + r)
  {
    match IndexOf(header, Bearer, |Bearer|)
    case None => header[|Bearer|..]
    case Some(k) => header[|Bearer|..k]
  }

  /** The checks of `isAuthenticated` before the token is verified. */
  function ParseAuthorization(header: Option<string>): (r: HeaderCheck)
    ensures r.Token? ==> r.token != ""
    ensures r.Token? ==> header.Some? && StartsWith(header.value, Bearer + r.token)
  {
    if !Truthy(header) || !StartsWith(header.value, Bearer) then NoToken
    else
      var token := SecondPiece(header.value);
      if token == "" then InvalidFormat else Token(token)
  }

  /**
   * A missing header, or one without the prefix, has no token; a header that
   * is exactly the prefix has an empty one.
   */
  lemma HeaderRejections(header: Option<string>)
    ensures header.None? ==> ParseAuthorization(header) == NoToken
    ensures header.Some? && !StartsWith(header.value, Bearer) ==> ParseAuthorization(header) == NoToken
    ensures header == Some(Bearer) ==> ParseAuthorization(header) == InvalidFormat
  {
    if header == Some(Bearer) {
      assert IndexOf(Bearer, Bearer, |Bearer|) == None;
    }
  }

  /** The token is the text after the prefix when it holds no further prefix. */
  lemma BearerToken(token: string)
    requires token != ""
    requires forall k | 0 <= k :: !OccursAt(token, Bearer, k)
    ensures ParseAuthorization(Some(Bearer + token)) == Token(token)
  {
    var h := Bearer + token;
    assert StartsWith(h, Bearer);
    forall k | |Bearer| <= k ensures !OccursAt(h, Bearer, k) {
      if OccursAt(h, Bearer, k) {
        assert h[k..k + |Bearer|] == token[k - |Bearer|..k - |Bearer| + |Bearer|];
        assert OccursAt(token, Bearer, k - |Bearer|);
      }
    }
    assert IndexOf(h, Bearer, |Bearer|) == None;
    assert h[|Bearer|..] == token;
  }

  /** Where the second prefix starts there is a 'B', which the prefix holds only at its start. */
  lemma SecondPrefixStart(token: string, rest: string)
    ensures (Bearer + token + Bearer + rest)[|Bearer| + |token|] == 'B'
    ensures forall i | 0 < i < |Bearer| :: Bearer[i] != 'B'
  {
  }

  /** A second prefix ends the token. */
  lemma BearerTokenCut(token: string, rest: string)
    requires token != ""
    requires forall k | 0 <= k :: !OccursAt(token, Bearer, k)
    ensures ParseAuthorization(Some(Bearer + token + Bearer + rest)) == Token(token)
  {
    var h := Bearer + token + Bearer + rest;
    var at := |Bearer| + |token|;
    assert StartsWith(h, Bearer);
    assert OccursAt(h, Bearer, at) by {
      assert h[at..at + |Bearer|] == Bearer;
    }
    forall k | |Bearer| <= k < at ensures !OccursAt(h, Bearer, k) {
      if OccursAt(h, Bearer, k) {
        var j := k - |Bearer|;
        if j + |Bearer| <= |token| {
          assert h[k..k + |Bearer|] == token[j..j + |Bearer|];
          assert OccursAt(token, Bearer, j);
        } else {
          // It would overlap the second prefix, whose 'B' the first prefix has only at its start.
          SecondPrefixStart(token, rest);
          assert false;
        }
      }
    }
    assert IndexOf(h, Bearer, |Bearer|) == Some(at);
    assert h[|Bearer|..at] == token;
  }

  // ---------------------------------------------------------------- names

  /** `s.split(' ')`. */
  function SplitOnSpace(s: string): (parts: seq<string>)
    ensures |parts| >= 1
    ensures forall i | 0 <= i < |parts| :: ' ' !in parts[i]
  {
    if |s| == 0 then [""]
    else
      var rest := SplitOnSpace(s[1..]);
      if s[0] == ' ' then [""] + rest
      else [[s[0]] + rest[0]] + rest[1..]
  }

  /** `parts.join(' ')`. */
  function JoinWithSpace(parts: seq<string>): string
    requires |parts| >= 1
  {
    if |parts| == 1 then parts[0] else parts[0] + " " + JoinWithSpace(parts[1..])
  }

  /** Splitting on spaces and joining with spaces gives the string back. */
  lemma {:induction false} JoinSplit(s: string)
    ensures JoinWithSpace(SplitOnSpace(s)) == s
  {
    if |s| > 0 {
      JoinSplit(s[1..]);
      var rest := SplitOnSpace(s[1..]);
      if s[0] == ' ' {
        assert s == " " + s[1..];
      } else if |rest| == 1 {
        assert s == [s[0]] + s[1..];
      } else {
        var parts := SplitOnSpace(s);
        assert parts[1..] == rest[1..];
        assert s == [s[0]] + s[1..];
      }
    }
  }

  /** `name.split(' ')[0]`. */
  function FirstName(name: string): (r: string)
    ensures ' ' !in r
    ensures ' ' !in name ==> r == name
  {
    JoinSplit(name);
    SplitPieces(name);
    SplitOnSpace(name)[0]
  }

  /** `name.split(' ').slice(1).join(' ')`; an empty list joins to "". */
  function LastName(name: string): (r: string)
    ensures ' ' !in name ==> r == ""
  {
    SplitPieces(name);
    var parts := SplitOnSpace(name);
    if |parts| == 1 then "" else JoinWithSpace(parts[1..])
  }

  /** Without a space the split has one piece; with one it has several. */
  lemma {:induction false} SplitPieces(s: string)
    ensures ' ' in s <==> |SplitOnSpace(s)| > 1
  {
    if |s| > 0 {
      SplitPieces(s[1..]);
      if s[0] != ' ' {
        assert ' ' in s <==> ' ' in s[1..] by {
          assert s == [s[0]] + s[1..];
        }
      }
    }
  }

  /**
   * The first name is the name up to its first space, and the last name the
   * rest: with a space, first + " " + last is the name again; without one,
   * the first name is the whole name and the last name is empty.
   */
  lemma NameSplit(name: string)
    ensures ' ' !in FirstName(name)
    ensures ' ' in name ==> FirstName(name) + " " + LastName(name) == name
    ensures ' ' !in name ==> FirstName(name) == name && LastName(name) == ""
  {
    JoinSplit(name);
    SplitPieces(name);
    var parts := SplitOnSpace(name);
    if |parts| > 1 {
      assert JoinWithSpace(parts) == parts[0] + " " + JoinWithSpace(parts[1..]);
    }
  }

  // ---------------------------------------------------------------- syncing the user

  /** The row `syncFirebaseUser` upserts: no column is left null; a missing value becomes "". */
  function SyncData(tok: DecodedToken): (r: UpsertUser)
    ensures r.id == tok.uid
    ensures r.email.Some? && r.firstName.Some? && r.lastName.Some? && r.profileImageUrl.Some?
  {
    UpsertUser(
      tok.uid,
      Some(OrEmpty(tok.email)),
      Some(if Truthy(tok.name) then FirstName(tok.name.value) else ""),
      Some(if Truthy(tok.name) then LastName(tok.name.value) else ""),
      Some(OrEmpty(tok.picture)))
  }

  /**
   * The synced row never holds null: a token without email, name or picture
   * writes "" for them, and a name is split into first and last name.
   */
  lemma SyncDataDefaults(tok: DecodedToken)
    ensures var d := SyncData(tok);
      && d.id == tok.uid
      && d.email.Some? && d.firstName.Some? && d.lastName.Some? && d.profileImageUrl.Some?
      && (!Truthy(tok.email) ==> d.email == Some(""))
      && (!Truthy(tok.picture) ==> d.profileImageUrl == Some(""))
      && (!Truthy(tok.name) ==> d.firstName == Some("") && d.lastName == Some(""))
      && (Truthy(tok.name) && ' ' in tok.name.value ==>
            d.firstName.value + " " + d.lastName.value == tok.name.value)
  {
    if Truthy(tok.name) {
      NameSplit(tok.name.value);
    }
  }

  /**
   * Once one user is stored without an email, the "" it holds collides with
   * any other user who signs in without one: the upsert is rejected by the
   * unique email constraint.
   */
  lemma MissingEmailCollision(users: seq<User>, tok: DecodedToken, now: Timestamp)
    requires !Truthy(tok.email)
    requires exists u | u in users :: u.id != tok.uid && u.email == Some("")
    ensures UpsertRows(users, SyncData(tok), now) == Err(UniqueViolation)
  {
  }

  /**
   * Two users without an email, neither stored yet: the first sync creates
   * the first user's row, and the second user's sync then fails, so the
   * second user has no row at all.
   */
  lemma SecondUserWithoutEmail(users: seq<User>, a: DecodedToken, b: DecodedToken, t1: Timestamp, t2: Timestamp)
    requires UniqueUserIds(users) && UniqueEmails(users)
    requires !Truthy(a.email) && !Truthy(b.email) && a.uid != b.uid
    requires Queries.GetUser(users, b.uid).None?
    requires UpsertRows(users, SyncData(a), t1).Ok?
    ensures var after := UpsertRows(users, SyncData(a), t1).value;
      && UpsertRows(after, SyncData(b), t2) == Err(UniqueViolation)
      && Queries.GetUser(after, b.uid).None?
  {
    var after := UpsertRows(users, SyncData(a), t1).value;
    UpsertUserSpec(users, SyncData(a), t1);
    var u := Queries.GetUser(after, a.uid).value;
    assert u.email == Some("");
    MissingEmailCollision(after, b, t2);
  }

  /** `syncFirebaseUser`: upsert the token's user; a rejected upsert is swallowed. */
  method SyncFirebaseUser(db: DatabaseStorage, tok: DecodedToken)
    requires db.Valid()
    modifies db
    ensures db.Valid()
    ensures var spec := UpsertRows(old(db.users), SyncData(tok), old(db.clock));
      db.users == if spec.Ok? then spec.value else old(db.users)
    ensures db.posts == old(db.posts) && db.comments == old(db.comments) && db.likes == old(db.likes)
  {
    var _ := db.UpsertUser(SyncData(tok));
  }

  // ---------------------------------------------------------------- the middleware

  /** The `req.user` built from a decoded token. */
  function RequestUser(tok: DecodedToken): (u: AuthUser)
    ensures u.uid == tok.uid && u.claims.sub == tok.uid
  {
    AuthUser(tok.uid, tok.email, tok.name, tok.picture,
             Claims(tok.uid, tok.email, tok.uid, tok.name, tok.picture))
  }

  /** What the middleware does with a request: answer it, or pass it on with `req.user`. */
  datatype AuthOutcome = Rejected(status: int, message: string) | Next(user: AuthUser)

  /**
   * `isAuthenticated`. Without a usable bearer token, or with one the oracle
   * rejects, the request is answered 401 and storage is untouched; otherwise
   * the user is synced (a failed sync is ignored) and the request goes on with
   * `req.user` built from the token.
   */
  method IsAuthenticated(db: DatabaseStorage, header: Option<string>, verify: string -> Option<DecodedToken>)
    returns (outcome: AuthOutcome)
    requires db.Valid()
    modifies db
    ensures db.Valid()
    ensures ParseAuthorization(header) == NoToken ==>
              outcome == Rejected(401, "Unauthorized - No token provided")
    ensures ParseAuthorization(header) == InvalidFormat ==>
              outcome == Rejected(401, "Unauthorized - Invalid token format")
    ensures ParseAuthorization(header).Token? && verify(ParseAuthorization(header).token).None? ==>
              outcome == Rejected(401, "Unauthorized - Invalid token")
    ensures outcome.Rejected? ==> outcome.status == 401 && db.Snapshot() == old(db.Snapshot())
    ensures outcome.Next? <==>
              ParseAuthorization(header).Token? && verify(ParseAuthorization(header).token).Some?
    ensures outcome.Next? ==>
              var tok := verify(ParseAuthorization(header).token).value;
              var spec := UpsertRows(old(db.users), SyncData(tok), old(db.clock));
              && outcome.user == RequestUser(tok)
              && db.users == (if spec.Ok? then spec.value else old(db.users))
    ensures db.posts == old(db.posts) && db.comments == old(db.comments) && db.likes == old(db.likes)
  {
    var check := ParseAuthorization(header);
    if check == NoToken {
      return Rejected(401, "Unauthorized - No token provided");
    }
    if check == InvalidFormat {
      return Rejected(401, "Unauthorized - Invalid token format");
    }
    var decoded := verify(check.token);
    if decoded.None? {
      return Rejected(401, "Unauthorized - Invalid token");
    }
    var user := RequestUser(decoded.value);
    SyncFirebaseUser(db, decoded.value);
    outcome := Next(user);
  }

  // ---------------------------------------------------------------- /api/verify-token

  /** The JSON answer of `/api/verify-token`. */
  datatype VerifyResponse = VerifyResponse(status: int, authenticated: Option<bool>, uid: Option<string>, message: Option<string>)

  /** `/api/verify-token`: 400 without a token, 401 for one the oracle rejects, 200 with the uid otherwise. */
  function VerifyTokenEndpoint(token: Option<string>, verify: string -> Option<DecodedToken>): (r: VerifyResponse)
    ensures r.status == 200 <==> Truthy(token) && verify(token.value).Some?
    ensures r.status == 200 ==> r.authenticated == Some(true) && r.uid == Some(verify(token.value).value.uid)
    ensures !Truthy(token) ==> r.status == 400 && r.authenticated.None?
    ensures Truthy(token) && verify(token.value).None? ==> r.status == 401 && r.authenticated == Some(false)
  {
    if !Truthy(token) then VerifyResponse(400, None, None, Some("No token provided"))
    else match verify(token.value)
      case None => VerifyResponse(401, Some(false), None, Some("Invalid token"))
      case Some(tok) => VerifyResponse(200, Some(true), Some(tok.uid), None)
  }
}
