/**
 * Bearer dispatch and user identity.
 *
 * A session token is a JWS in compact form (section 7.1 of RFC 7515): its header,
 * UTF-8 text, is written in base64url without padding (section 5 of RFC 4648).
 * Signing and verifying stay parameters.
 */
module Auth {
  import opened Wrappers
  import opened Text
  import opened Storage
  import opened Registry
  import ApiKeys

  // ---- base64url ----

  type sextet = x: int | 0 <= x < 64

  /** The URL-safe alphabet, table 2 of RFC 4648. */
  function Symbol(n: sextet): (c: char)
    ensures c != '.'
  {
    if n < 26 then ('A' as int + n) as char
    else if n < 52 then ('a' as int + n - 26) as char
    else if n < 62 then ('0' as int + n - 52) as char
    else if n == 62 then '-' else '_'
  }

  function SymbolValue(c: char): Option<sextet> {
    var i := c as int;
    if 'A' <= c <= 'Z' then Some(i - 'A' as int)
    else if 'a' <= c <= 'z' then Some(i - 'a' as int + 26)
    else if '0' <= c <= '9' then Some(i - '0' as int + 52)
    else if c == '-' then Some(62)
    else if c == '_' then Some(63)
    else None
  }

  lemma SymbolRoundTrips(n: sextet)
    ensures SymbolValue(Symbol(n)) == Some(n)
  {}

  /** Three bytes as four groups of six bits; one or two bytes left over as two or three. */
  function Sextets(b: Bytes): seq<sextet> {
    if |b| == 0 then []
    else if |b| == 1 then [b[0] / 4, b[0] % 4 * 16]
    else if |b| == 2 then [b[0] / 4, b[0] % 4 * 16 + b[1] / 16, b[1] % 16 * 4]
    else [b[0] / 4, b[0] % 4 * 16 + b[1] / 16, b[1] % 16 * 4 + b[2] / 64, b[2] % 64] + Sextets(b[3..])
  }

  function Symbols(v: seq<sextet>): (s: string)
    ensures |s| == |v| && '.' !in s
  {
    if v == [] then "" else [Symbol(v[0])] + Symbols(v[1..])
  }

  function Base64Url(b: Bytes): (s: string)
    ensures '.' !in s
  {
    Symbols(Sextets(b))
  }

  function Values(s: string): Option<seq<sextet>> {
    if s == "" then Some([])
    else
      match (SymbolValue(s[0]), Values(s[1..]))
      case (Some(v), Some(rest)) => Some([v] + rest)
      case _ => None
  }

  function FirstByte(x: int, y: int): int { x * 4 + y / 16 }

  function SecondByte(y: int, z: int): int { y % 16 * 16 + z / 4 }

  function ThirdByte(z: int, w: int): int { z % 4 * 64 + w }

  function Pack(v: seq<sextet>): Option<Bytes> {
    if |v| == 0 then Some([])
    else if |v| == 1 then None
    else if |v| == 2 then Some([FirstByte(v[0], v[1])])
    else if |v| == 3 then Some([FirstByte(v[0], v[1]), SecondByte(v[1], v[2])])
    else
      match Pack(v[4..])
      case None => None
      case Some(rest) => Some([FirstByte(v[0], v[1]), SecondByte(v[1], v[2]), ThirdByte(v[2], v[3])] + rest)
  }

  function DecodeBase64Url(s: string): Option<Bytes> {
    match Values(s)
    case None => None
    case Some(v) => Pack(v)
  }

  lemma {:induction false} ValuesOfSymbols(v: seq<sextet>)
    ensures Values(Symbols(v)) == Some(v)
  {
    if v == [] {
    } else {
      SymbolRoundTrips(v[0]);
      ValuesOfSymbols(v[1..]);
      assert Symbols(v)[1..] == Symbols(v[1..]);
      assert [v[0]] + v[1..] == v;
    }
  }

  lemma GroupRoundTrips(a: byte, b: byte, c: byte)
    ensures FirstByte(a / 4, a % 4 * 16 + b / 16) == a
    ensures SecondByte(a % 4 * 16 + b / 16, b % 16 * 4 + c / 64) == b
    ensures ThirdByte(b % 16 * 4 + c / 64, c % 64) == c
  {
    assert (a % 4 * 16 + b / 16) / 16 == a % 4;
    assert (a % 4 * 16 + b / 16) % 16 == b / 16;
    assert (b % 16 * 4 + c / 64) / 4 == b % 16;
    assert (b % 16 * 4 + c / 64) % 4 == c / 64;
  }

  lemma {:induction false} PackSextets(b: Bytes)
    ensures Pack(Sextets(b)) == Some(b)
  {
    hide FirstByte, SecondByte, ThirdByte;
    if |b| == 0 {
      assert b == [];
    } else if |b| == 1 {
      GroupRoundTrips(b[0], 0, 0);
      assert b == [b[0]];
    } else if |b| == 2 {
      GroupRoundTrips(b[0], b[1], 0);
      assert b == [b[0], b[1]];
    } else {
      GroupRoundTrips(b[0], b[1], b[2]);
      PackSextets(b[3..]);
      assert Sextets(b)[4..] == Sextets(b[3..]);
      assert b == [b[0], b[1], b[2]] + b[3..];
    }
  }

  /** The encoder loses nothing: decoding gives the bytes back. */
  lemma DecodeEncodeBase64Url(b: Bytes)
    ensures DecodeBase64Url(Base64Url(b)) == Some(b)
  {
    ValuesOfSymbols(Sextets(b));
    PackSextets(b);
  }

  // ---- tokens ----

  function CompactJws(header: Bytes, payload: Bytes, signature: Bytes): string {
    Base64Url(header) + "." + Base64Url(payload) + "." + Base64Url(signature)
  }

  lemma FirstFour(v: seq<sextet>)
    requires |v| >= 4
    ensures Symbols(v)[..4] == [Symbol(v[0]), Symbol(v[1]), Symbol(v[2]), Symbol(v[3])]
  {
    assert Symbols(v)[1..] == Symbols(v[1..]);
    assert Symbols(v[1..])[1..] == Symbols(v[2..]) by { assert v[1..][1..] == v[2..]; }
    assert Symbols(v[2..])[1..] == Symbols(v[3..]) by { assert v[2..][1..] == v[3..]; }
  }

  lemma SymbolIs(n: sextet, c: char)
    requires SymbolValue(c).Some?
    ensures Symbol(n) == c <==> n == SymbolValue(c).value
  {}

  /** Exactly which JWS would be taken for an API key: those whose header starts with the bytes 8F 07 3F. */
  lemma JwsLooksLikeKeyIff(header: Bytes, payload: Bytes, signature: Bytes)
    ensures ApiKeys.IsApiKey(CompactJws(header, payload, signature))
            <==> |header| >= 3 && header[..3] == [0x8F, 0x07, 0x3F]
  {
    var v := Sextets(header);
    var h := Base64Url(header);
    var token := CompactJws(header, payload, signature);
    assert token[..|h|] == h;
    if |header| >= 3 {
      FirstFour(v);
      assert token[..4] == h[..4];
      SymbolIs(v[0], 'j');
      SymbolIs(v[1], 'w');
      SymbolIs(v[2], 'c');
      SymbolIs(v[3], '_');
      assert ApiKeys.IsApiKey(token) <==> token[..4] == ApiKeys.KEY_PREFIX;
      assert token[..4] == ApiKeys.KEY_PREFIX <==> v[0] == 35 && v[1] == 48 && v[2] == 28 && v[3] == 63;
      assert header[..3] == [header[0], header[1], header[2]];
    } else {
      assert |h| < 4 && token[|h|] == '.';
    }
  }

  /** No JWS with a UTF-8 header is ever taken for an API key. */
  lemma NoSessionTokenLooksLikeKey(text: string, payload: Bytes, signature: Bytes)
    ensures !ApiKeys.IsApiKey(CompactJws(Utf8(text), payload, signature))
  {
    JwsLooksLikeKeyIff(Utf8(text), payload, signature);
    if text != "" {
      assert Utf8(text)[0] == Utf8Char(text[0])[0];
    }
  }

  // ---- the extractor ----

  datatype Rejection = MissingHeader | NotBearer | KeyInvalid | KeyLookupFailed | TokenInvalid

  const BEARER := "Bearer "

  /**
   * `AuthUser::from_request_parts`. `header` is the Authorization header when it is
   * there and printable ASCII; `resolved` is what `resolve_key` answers for the
   * token, and `verify` what the session-token check accepts.
   */
  function FromRequestParts(header: Option<string>, resolve: string -> Result<Option<UserId>, ()>, verify: string -> Option<UserId>)
    : Result<UserId, Rejection>
  {
    match header
    case None => Failure(MissingHeader)
    case Some(text) =>
      if !(BEARER <= text) then Failure(NotBearer)
      else
        var token := text[|BEARER|..];
        if ApiKeys.IsApiKey(token) then
          match resolve(token)
          case Success(Some(user)) => Success(user)
          case Success(None) => Failure(KeyInvalid)
          case Failure(_) => Failure(KeyLookupFailed)
        else
          match verify(token)
          case Some(user) => Success(user)
          case None => Failure(TokenInvalid)
  }

  /** The header is the scheme, its one space, and this token. */
  ghost predicate Carries(header: Option<string>, token: string) {
    header == Some("Bearer " + token)
  }

  /** The token has the form of an API key. */
  predicate KeyForm(token: string) {
    |token| >= 4 && token[..4] == "jwc_"
  }

  /**
   * Every outcome of the extractor, for every header: nobody gets in without the
   * `Bearer` scheme, and the first four characters of the token alone say whether the
   * key table or the token check decides.
   */
  lemma ExtractorIff(header: Option<string>, resolve: string -> Result<Option<UserId>, ()>, verify: string -> Option<UserId>)
    ensures var r := FromRequestParts(header, resolve, verify);
            && (r == Failure(MissingHeader) <==> header.None?)
            && (r == Failure(NotBearer) <==> header.Some? && forall token :: !Carries(header, token))
    ensures forall token :: Carries(header, token) ==>
              var r := FromRequestParts(header, resolve, verify);
              && (forall u :: r == Success(u) <==> if KeyForm(token) then resolve(token) == Success(Some(u)) else verify(token) == Some(u))
              && (r == Failure(KeyInvalid) <==> KeyForm(token) && resolve(token) == Success(None))
              && (r == Failure(KeyLookupFailed) <==> KeyForm(token) && resolve(token).Failure?)
              && (r == Failure(TokenInvalid) <==> !KeyForm(token) && verify(token).None?)
    ensures FromRequestParts(header, resolve, verify).Success? ==> exists token :: Carries(header, token)
  {
    if header.Some? {
      var text := header.value;
      forall token | Carries(header, token) ensures BEARER <= text && token == text[|BEARER|..] {
        assert ("Bearer " + token)[..7] == "Bearer ";
      }
      if BEARER <= text {
        var token := text[|BEARER|..];
        assert text == "Bearer " + token;
        assert Carries(header, token);
        assert ApiKeys.IsApiKey(token) <==> KeyForm(token);
      }
    }
  }

  /**
   * Dispatch is exact: a generated key is decided by the key table alone and a
   * session token by its verification alone, whatever the other would have said.
   */
  lemma DispatchIsExact(sha: Hash, mixed: Bytes, headerText: string, payload: Bytes, signature: Bytes,
                        resolve: string -> Result<Option<UserId>, ()>, verify: string -> Option<UserId>)
    ensures var key := ApiKeys.GeneratePlaintext(sha, mixed);
            FromRequestParts(Some(BEARER + key), resolve, verify) ==
              match resolve(key)
              case Success(Some(user)) => Success(user)
              case Success(None) => Failure(KeyInvalid)
              case Failure(_) => Failure(KeyLookupFailed)
    ensures var token := CompactJws(Utf8(headerText), payload, signature);
            FromRequestParts(Some(BEARER + token), resolve, verify) ==
              match verify(token)
              case Some(user) => Success(user)
              case None => Failure(TokenInvalid)
  {
    var key := ApiKeys.GeneratePlaintext(sha, mixed);
    var token := CompactJws(Utf8(headerText), payload, signature);
    NoSessionTokenLooksLikeKey(headerText, payload, signature);
    assert (BEARER + key)[|BEARER|..] == key;
    assert (BEARER + token)[|BEARER|..] == token;
  }

  /** What the extractor learns from one resolution of `p`: its answer, or an error. */
  function Lookup(e: ApiKeys.Event): Result<Option<UserId>, ()> {
    if e.reply.Resolved? then Success(e.reply.user) else Failure(())
  }

  /**
   * A key authenticates as a user exactly when it is that user's by the effects of
   * all that went before and its own lookup went through; it is called invalid
   * exactly when it is nobody's, and a failed lookup is told as such.
   */
  lemma KeyAuthenticatesWhileHeld(sha: Hash, h: seq<ApiKeys.Event>, mixed: Bytes, now: nat, o: ApiKeys.Outcome, user: UserId,
                                  resolve: string -> Result<Option<UserId>, ()>, verify: string -> Option<UserId>)
    requires ApiKeys.Happened(sha, h) && ApiKeys.NoCollision(sha, h, ApiKeys.GeneratePlaintext(sha, mixed))
    requires var p := ApiKeys.GeneratePlaintext(sha, mixed);
             resolve(p) == Lookup(ApiKeys.Serve(sha, ApiKeys.TableAfter(sha, h), ApiKeys.Resolve(p, now), o).1)
    ensures var p := ApiKeys.GeneratePlaintext(sha, mixed);
            var r := FromRequestParts(Some(BEARER + p), resolve, verify);
            && (r == Success(user) <==> o.Proceed? && ApiKeys.Holds(h, p, user))
            && (r == Failure(KeyInvalid) <==> o.Proceed? && forall u :: !ApiKeys.Holds(h, p, u))
            && (r == Failure(KeyLookupFailed) <==> !o.Proceed?)
  {
    hide ApiKeys.Happened, ApiKeys.NoCollision, ApiKeys.Holds, ApiKeys.TableAfter, ApiKeys.GeneratePlaintext, ApiKeys.KeyHash, FromRequestParts;
    var p := ApiKeys.GeneratePlaintext(sha, mixed);
    forall u ensures ApiKeys.Exec(sha, ApiKeys.TableAfter(sha, h), ApiKeys.Resolve(p, now)).1 == ApiKeys.Resolved(Some(u))
                     <==> ApiKeys.Holds(h, p, u) {
      ApiKeys.ResolveIff(sha, h, p, now, u);
    }
    DispatchIsExact(sha, mixed, "", [], [], resolve, verify);
  }

  // ---- users ----

  datatype UserRow = UserRow(id: UserId, email: string, name: Option<string>)
  datatype Profile = Profile(sub: string, email: string, name: Option<string>)

  type Users = map<string, UserRow>

  /** INSERT ... ON CONFLICT (google_sub) DO UPDATE: the id of a known user stays. */
  function Upsert(users: Users, p: Profile, newId: UserId): Users {
    users[p.sub := UserRow(if p.sub in users then users[p.sub].id else newId, p.email, p.name)]
  }

  /** `users` after these logins, each with the id a new row would get. */
  function Logins(users: Users, logins: seq<(Profile, UserId)>): Users
    decreases |logins|
  {
    if logins == [] then users else Logins(Upsert(users, logins[0].0, logins[0].1), logins[1..])
  }

  ghost predicate IdsDistinct(users: Users) {
    forall a, b :: a in users && b in users && users[a].id == users[b].id ==> a == b
  }

  /** Generated ids are new: not in the table, and not generated twice. */
  ghost predicate FreshIds(users: Users, logins: seq<(Profile, UserId)>) {
    && (forall i :: 0 <= i < |logins| ==> forall s :: s in users ==> users[s].id != logins[i].1)
    && forall i, j :: 0 <= i < j < |logins| ==> logins[i].1 != logins[j].1
  }

  /**
   * User identity: no login changes anybody's id, the last login's row carries its
   * profile, and two subjects never share an id.
   */
  lemma {:induction false} IdentityIsStable(users: Users, logins: seq<(Profile, UserId)>)
    requires IdsDistinct(users) && FreshIds(users, logins)
    ensures IdsDistinct(Logins(users, logins))
    ensures forall s :: s in users ==> s in Logins(users, logins) && Logins(users, logins)[s].id == users[s].id
    ensures logins != [] ==>
              var p := logins[|logins| - 1].0;
              p.sub in Logins(users, logins) && Logins(users, logins)[p.sub].email == p.email && Logins(users, logins)[p.sub].name == p.name
    decreases |logins|
  {
    if logins == [] {
    } else {
      var next := Upsert(users, logins[0].0, logins[0].1);
      var rest := logins[1..];
      assert forall i :: 0 <= i < |rest| ==> rest[i] == logins[i + 1];
      assert FreshIds(next, rest);
      IdentityIsStable(next, rest);
      if |logins| > 1 { assert rest[|rest| - 1] == logins[|logins| - 1]; }
    }
  }

  /** Whoever does not log in keeps their row as it is, or stays unknown. */
  lemma {:induction false} OthersKeepTheirRows(users: Users, logins: seq<(Profile, UserId)>, sub: string)
    requires forall i :: 0 <= i < |logins| ==> logins[i].0.sub != sub
    ensures sub in Logins(users, logins) <==> sub in users
    ensures sub in users ==> Logins(users, logins)[sub] == users[sub]
    decreases |logins|
  {
    if logins == [] {
    } else {
      OthersKeepTheirRows(Upsert(users, logins[0].0, logins[0].1), logins[1..], sub);
    }
  }

  class UserTable {
    var users: Users

    constructor ()
      ensures users == map[]
    {
      users := map[];
    }

    method UpsertUser(p: Profile, newId: UserId) returns (row: UserRow)
      modifies this
      ensures users == Upsert(old(users), p, newId)
      ensures row == UserRow(if p.sub in old(users) then old(users)[p.sub].id else newId, p.email, p.name)
      ensures users == old(users)[p.sub := row]
    {
      if p.sub in users {
        users := users[p.sub := users[p.sub].(email := p.email, name := p.name)];
      } else {
        users := users[p.sub := UserRow(newId, p.email, p.name)];
      }
      row := users[p.sub];
    }
  }
}
