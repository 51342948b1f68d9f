/**
 * API keys: create, list, revoke and resolve.
 *
 * Every operation is one autocommit statement on `api_keys`, so any interleaving
 * of requests is a sequence of these operations. Each may fail, or take effect
 * without its client learning of it. Rows are kept under `key_hash`, which the
 * schema makes unique.
 */
module ApiKeys {
  import opened Wrappers
  import opened Text
  import opened Storage
  import opened Registry
  import Hex
  import Names
  import Orders

  const KEY_PREFIX := "jwc_"

  predicate IsApiKey(token: string) {
    KEY_PREFIX <= token
  }

  /** 28 of the 32 digest bytes of the mixed randomness, in hexadecimal, behind the prefix. */
  function GeneratePlaintext(sha: Hash, mixed: Bytes): (p: string)
    ensures IsApiKey(p) && |p| == 60
  {
    KEY_PREFIX + Hex.Encode(sha(mixed)[..28])
  }

  function KeyHash(sha: Hash, plaintext: string): string {
    Sha256Hex(sha, Utf8(plaintext))
  }

  function TrimStart(s: string): string {
    if s != [] && Names.Whitespace(s[0]) then TrimStart(s[1..]) else s
  }

  function TrimEnd(s: string): string {
    if s != [] && Names.Whitespace(s[|s| - 1]) then TrimEnd(s[..|s| - 1]) else s
  }

  function Trim(s: string): string {
    TrimEnd(TrimStart(s))
  }

  predicate BadKeyName(name: string) {
    Trim(name) == "" || |Utf8(Trim(name))| > 64
  }

  datatype KeyRow = KeyRow(id: nat, user: UserId, name: string, prefix: string,
                           createdAt: nat, lastUsedAt: Option<nat>, revokedAt: Option<nat>)
  type KeyTable = map<string, KeyRow>

  datatype Op =
    | Create(user: UserId, name: string, mixed: Bytes, id: nat, now: nat)
    | Revoke(user: UserId, id: nat, now: nat)
    | Resolve(plaintext: string, now: nat)
    | ListKeys(user: UserId)

  datatype Reply =
    | Created(id: nat, plaintext: string)
    | BadInput
    | Revoked
    | NotFound
    | Resolved(user: Option<UserId>)
    | Keys(ids: set<nat>)
    | Internal

  predicate Matching(row: KeyRow, user: UserId, id: nat) {
    row.id == id && row.user == user && row.revokedAt.None?
  }

  function Exec(sha: Hash, t: KeyTable, op: Op): (KeyTable, Reply) {
    match op
    case Create(user, name, mixed, id, now) =>
      if BadKeyName(name) then (t, BadInput)
      else
        var plaintext := GeneratePlaintext(sha, mixed);
        var hash := KeyHash(sha, plaintext);
        if hash in t || (exists h :: h in t && t[h].id == id) then (t, Internal)
        else (t[hash := KeyRow(id, user, Trim(name), plaintext[..12], now, None, None)], Created(id, plaintext))
    case Revoke(user, id, now) =>
      if exists h :: h in t && Matching(t[h], user, id)
      then (map h | h in t :: if Matching(t[h], user, id) then t[h].(revokedAt := Some(now)) else t[h], Revoked)
      else (t, NotFound)
    case Resolve(plaintext, now) =>
      var hash := KeyHash(sha, plaintext);
      if hash in t && t[hash].revokedAt.None?
      then (t[hash := t[hash].(lastUsedAt := Some(now))], Resolved(Some(t[hash].user)))
      else (t, Resolved(None))
    case ListKeys(user) =>
      (t, Keys(set h | h in t && t[h].user == user && t[h].revokedAt.None? :: t[h].id))
  }

  // ---- failures ----

  /**
   * How the awaits of one request turn out: they all succeed, one fails before the
   * statement takes effect, or one fails after it (its own reply is lost, or the
   * e-mail lookup that follows the UPDATE of a resolution fails).
   */
  datatype Outcome = Proceed | Fail | LoseReply

  /** What the statement did, which the client need not learn, and what the client is told. */
  datatype Event = Event(op: Op, outcome: Outcome, effect: Reply, reply: Reply)

  /** The name of a key is checked before anything can fail. */
  predicate TurnedAway(op: Op) {
    op.Create? && BadKeyName(op.name)
  }

  function Serve(sha: Hash, t: KeyTable, op: Op, o: Outcome): (KeyTable, Event) {
    if o.Fail? && !TurnedAway(op) then (t, Event(op, o, Internal, Internal))
    else
      var (t', effect) := Exec(sha, t, op);
      (t', Event(op, o, effect, if o.LoseReply? && !TurnedAway(op) then Internal else effect))
  }

  // ---- the plain history ----

  function TableAfter(sha: Hash, h: seq<Event>): KeyTable {
    if h == [] then map[] else Serve(sha, TableAfter(sha, h[..|h| - 1]), h[|h| - 1].op, h[|h| - 1].outcome).0
  }

  /** The effects and replies in `h` are the ones the service had and gave. */
  ghost predicate Happened(sha: Hash, h: seq<Event>) {
    h == [] || (var g, e := h[..|h| - 1], h[|h| - 1];
                Happened(sha, g) && e == Serve(sha, TableAfter(sha, g), e.op, e.outcome).1)
  }

  /** An INSERT that took effect. */
  predicate CreatedAt(h: seq<Event>, i: nat)
    requires i < |h|
  {
    h[i].op.Create? && h[i].effect.Created?
  }

  /** An UPDATE that took effect on this key. */
  predicate RevokedAt(h: seq<Event>, j: nat, id: nat)
    requires j < |h|
  {
    h[j].op.Revoke? && h[j].op.id == id && h[j].effect.Revoked?
  }

  /** The key created at `i` has not been revoked since. */
  ghost predicate Live(h: seq<Event>, i: nat)
    requires i < |h| && CreatedAt(h, i)
  {
    forall j: nat :: i < j < |h| ==> !RevokedAt(h, j, h[i].effect.id)
  }

  ghost predicate NoCollision(sha: Hash, h: seq<Event>, p: string) {
    forall i: nat :: i < |h| && CreatedAt(h, i) && sha(Utf8(h[i].effect.plaintext)) == sha(Utf8(p)) ==> h[i].effect.plaintext == p
  }

  // ---- the table against the history ----

  ghost predicate Tracks(sha: Hash, h: seq<Event>, t: KeyTable, i: nat)
    requires i < |h| && CreatedAt(h, i)
  {
    var hash := KeyHash(sha, h[i].effect.plaintext);
    && hash in t && t[hash].id == h[i].effect.id && t[hash].user == h[i].op.user
    && (t[hash].revokedAt.None? <==> Live(h, i))
  }

  ghost predicate Accounted(sha: Hash, h: seq<Event>, hash: string) {
    exists i: nat :: i < |h| && CreatedAt(h, i) && KeyHash(sha, h[i].effect.plaintext) == hash
  }

  ghost predicate IdsUnique(t: KeyTable) {
    forall a, b :: a in t && b in t && t[a].id == t[b].id ==> a == b
  }

  ghost predicate Inv(sha: Hash, h: seq<Event>, t: KeyTable) {
    && (forall i: nat :: i < |h| && CreatedAt(h, i) ==> Tracks(sha, h, t, i))
    && (forall hash :: hash in t ==> Accounted(sha, h, hash))
    && IdsUnique(t)
  }

  lemma AccountedStays(sha: Hash, g: seq<Event>, h: seq<Event>, hash: string)
    requires g <= h && Accounted(sha, g, hash)
    ensures Accounted(sha, h, hash)
  {
    var i: nat :| i < |g| && CreatedAt(g, i) && KeyHash(sha, g[i].effect.plaintext) == hash;
    assert h[i] == g[i] && CreatedAt(h, i);
  }

  lemma LiveExtends(g: seq<Event>, e: Event, i: nat)
    requires i < |g| && CreatedAt(g, i)
    ensures CreatedAt(g + [e], i)
    ensures Live(g + [e], i) <==> Live(g, i) && !(e.op.Revoke? && e.op.id == g[i].effect.id && e.effect.Revoked?)
  {
    var h := g + [e];
    assert h[i] == g[i];
    forall j: nat | i < j < |g| ensures RevokedAt(h, j, g[i].effect.id) <==> RevokedAt(g, j, g[i].effect.id) {
      assert h[j] == g[j];
    }
    assert RevokedAt(h, |g|, g[i].effect.id) <==> e.op.Revoke? && e.op.id == g[i].effect.id && e.effect.Revoked?;
  }

  lemma TracksAfter(sha: Hash, g: seq<Event>, t: KeyTable, op: Op, o: Outcome, i: nat)
    requires Inv(sha, g, t) && i < |g| && CreatedAt(g, i)
    ensures var (t', e) := Serve(sha, t, op, o);
            CreatedAt(g + [e], i) && Tracks(sha, g + [e], t', i)
  {
    hide GeneratePlaintext, BadKeyName, KeyHash, Live, Accounted;
    var (t', e) := Serve(sha, t, op, o);
    LiveExtends(g, e, i);
    var hash := KeyHash(sha, g[i].effect.plaintext);
    assert Tracks(sha, g, t, i);
    assert (g + [e])[i] == g[i];
    if op.Revoke? && e.effect.Revoked? && op.id == g[i].effect.id {
      var a :| a in t && Matching(t[a], op.user, op.id);
      assert a == hash;
    }
  }

  lemma NewKeyTracked(sha: Hash, g: seq<Event>, t: KeyTable, op: Op, o: Outcome)
    requires CreatedAt(g + [Serve(sha, t, op, o).1], |g|)
    ensures var (t', e) := Serve(sha, t, op, o); Tracks(sha, g + [e], t', |g|)
  {
    hide GeneratePlaintext, BadKeyName, KeyHash;
  }

  lemma RowsAccounted(sha: Hash, g: seq<Event>, t: KeyTable, op: Op, o: Outcome)
    requires forall hash :: hash in t ==> Accounted(sha, g, hash)
    requires IdsUnique(t)
    ensures var (t', e) := Serve(sha, t, op, o);
            IdsUnique(t') && forall hash :: hash in t' ==> Accounted(sha, g + [e], hash)
  {
    hide GeneratePlaintext, BadKeyName, KeyHash, Accounted;
    var (t', e) := Serve(sha, t, op, o);
    forall hash | hash in t' ensures Accounted(sha, g + [e], hash) {
      if hash in t {
        AccountedStays(sha, g, g + [e], hash);
      } else {
        NewRowAccounted(sha, g, t, op, o, hash);
      }
    }
  }

  lemma NewRowAccounted(sha: Hash, g: seq<Event>, t: KeyTable, op: Op, o: Outcome, hash: string)
    requires hash in Serve(sha, t, op, o).0 && hash !in t
    ensures Accounted(sha, g + [Serve(sha, t, op, o).1], hash)
  {
    hide GeneratePlaintext, BadKeyName, KeyHash;
    var h := g + [Serve(sha, t, op, o).1];
    assert CreatedAt(h, |g|) && KeyHash(sha, h[|g|].effect.plaintext) == hash;
  }

  lemma ServeKeepsInv(sha: Hash, g: seq<Event>, t: KeyTable, op: Op, o: Outcome)
    requires Inv(sha, g, t)
    ensures var (t', e) := Serve(sha, t, op, o); Inv(sha, g + [e], t')
  {
    hide KeyHash, Serve, Live, Tracks;
    var (t', e) := Serve(sha, t, op, o);
    var h := g + [e];
    forall i: nat | i < |h| && CreatedAt(h, i) ensures Tracks(sha, h, t', i) {
      if i < |g| {
        assert h[i] == g[i];
        TracksAfter(sha, g, t, op, o, i);
      } else {
        NewKeyTracked(sha, g, t, op, o);
      }
    }
    RowsAccounted(sha, g, t, op, o);
  }

  lemma EmptyInv(sha: Hash)
    ensures Inv(sha, [], map[])
  {}

  lemma {:induction false} HistoryKeepsInv(sha: Hash, h: seq<Event>)
    requires Happened(sha, h)
    ensures Inv(sha, h, TableAfter(sha, h))
    decreases |h|
  {
    hide Serve, Inv;
    if h == [] {
      EmptyInv(sha);
    } else {
      var n := |h| - 1;
      var g := h[..n];
      HistoryKeepsInv(sha, g);
      ServeKeepsInv(sha, g, TableAfter(sha, g), h[n].op, h[n].outcome);
      assert g + [h[n]] == h;
    }
  }

  lemma {:induction false} PrefixHappened(sha: Hash, h: seq<Event>, n: nat)
    requires Happened(sha, h) && n <= |h|
    ensures Happened(sha, h[..n]) && Inv(sha, h[..n], TableAfter(sha, h[..n]))
    ensures n < |h| ==> h[n] == Serve(sha, TableAfter(sha, h[..n]), h[n].op, h[n].outcome).1
    decreases |h|
  {
    hide Serve, Inv;
    if n < |h| {
      var g := h[..|h| - 1];
      PrefixHappened(sha, g, n);
      assert g[..n] == h[..n];
    } else {
      assert h[..n] == h;
      HistoryKeepsInv(sha, h);
    }
  }

  lemma TrackedAt(sha: Hash, h: seq<Event>, t: KeyTable, i: nat)
    requires Inv(sha, h, t) && i < |h| && CreatedAt(h, i)
    ensures Tracks(sha, h, t, i)
  {}

  lemma OnlyRow(t: KeyTable, a: string, b: string)
    requires IdsUnique(t) && a in t && b in t && t[a].id == t[b].id
    ensures a == b
  {}

  lemma WhoseRow(sha: Hash, h: seq<Event>, t: KeyTable, hash: string) returns (i: nat)
    requires Inv(sha, h, t) && hash in t
    ensures i < |h| && CreatedAt(h, i) && KeyHash(sha, h[i].effect.plaintext) == hash && Tracks(sha, h, t, i)
  {
    assert Accounted(sha, h, hash);
    i :| i < |h| && CreatedAt(h, i) && KeyHash(sha, h[i].effect.plaintext) == hash;
  }

  // ---- theorems ----

  /** Key `p` was created for user `u` and has not been revoked. */
  ghost predicate Holds(h: seq<Event>, p: string, u: UserId) {
    exists i: nat :: i < |h| && CreatedAt(h, i) && h[i].effect.plaintext == p && h[i].op.user == u && Live(h, i)
  }

  /**
   * Resolution refines the plain history of effects, whatever failed or lost its
   * reply: the UPDATE finds a user for a plaintext exactly when an earlier INSERT
   * that took effect stored it for that user and no revoking UPDATE of that key
   * took effect since.
   */
  lemma ResolveIff(sha: Hash, h: seq<Event>, p: string, now: nat, u: UserId)
    requires Happened(sha, h) && NoCollision(sha, h, p)
    ensures Exec(sha, TableAfter(sha, h), Resolve(p, now)).1 == Resolved(Some(u)) <==> Holds(h, p, u)
  {
    hide TableAfter, Utf8, Inv;
    HistoryKeepsInv(sha, h);
    var t := TableAfter(sha, h);
    var hash := KeyHash(sha, p);
    if hash in t {
      var i := WhoseRow(sha, h, t, hash);
      Hex.EncodeInjective(sha(Utf8(h[i].effect.plaintext)), sha(Utf8(p)));
    }
    if Holds(h, p, u) {
      var i: nat :| i < |h| && CreatedAt(h, i) && h[i].effect.plaintext == p && h[i].op.user == u && Live(h, i);
      TrackedAt(sha, h, t, i);
    }
  }

  /** The row that a successful revocation matched is the key's own, and was live until then. */
  lemma RevokedRow(sha: Hash, h: seq<Event>, i: nat, j: nat)
    requires Happened(sha, h) && i < j < |h| && CreatedAt(h, i) && RevokedAt(h, j, h[i].effect.id)
    ensures h[j].op.user == h[i].op.user
    ensures CreatedAt(h[..j], i) && Live(h[..j], i)
  {
    hide KeyHash, GeneratePlaintext, TableAfter, Inv, Happened, Live;
    var t := TableAfter(sha, h[..j]);
    PrefixHappened(sha, h, j);
    assert CreatedAt(h[..j], i);
    TrackedAt(sha, h[..j], t, i);
    var a :| a in t && Matching(t[a], h[j].op.user, h[j].op.id);
    InvIds(sha, h[..j], t);
    OnlyRow(t, a, KeyHash(sha, h[i].effect.plaintext));
  }

  /** Only the owner can revoke a key. */
  lemma OnlyTheOwnerRevokes(sha: Hash, h: seq<Event>, i: nat, j: nat)
    requires Happened(sha, h) && i < j < |h| && CreatedAt(h, i) && RevokedAt(h, j, h[i].effect.id)
    ensures h[j].op.user == h[i].op.user
  {
    RevokedRow(sha, h, i, j);
  }

  /** No key is revoked twice: the second request finds nothing. */
  lemma RevokedOnce(sha: Hash, h: seq<Event>, i: nat, j: nat, k: nat)
    requires Happened(sha, h) && i < j < |h| && CreatedAt(h, i) && RevokedAt(h, j, h[i].effect.id)
    requires i < k < j
    ensures !RevokedAt(h, k, h[i].effect.id)
  {
    hide Happened;
    RevokedRow(sha, h, i, j);
    assert !RevokedAt(h[..j], k, h[..j][i].effect.id);
    assert h[..j][k] == h[k] && h[..j][i] == h[i];
  }

  /** A plaintext is handed out at most once, and an id given at most once. */
  lemma CreationsAreDistinct(sha: Hash, h: seq<Event>, i: nat, j: nat)
    requires Happened(sha, h) && i < j < |h| && CreatedAt(h, i) && CreatedAt(h, j)
    ensures h[i].effect.plaintext != h[j].effect.plaintext && h[i].effect.id != h[j].effect.id
  {
    hide KeyHash, GeneratePlaintext, TableAfter, Inv, Happened, Live, BadKeyName;
    var t := TableAfter(sha, h[..j]);
    PrefixHappened(sha, h, j);
    assert CreatedAt(h[..j], i);
    TrackedAt(sha, h[..j], t, i);
    var hash := KeyHash(sha, h[i].effect.plaintext);
    assert hash in t && t[hash].id == h[i].effect.id;
  }

  lemma SameCreation(sha: Hash, h: seq<Event>, i: nat, j: nat)
    requires Happened(sha, h) && i < |h| && j < |h| && CreatedAt(h, i) && CreatedAt(h, j)
    requires h[i].effect.plaintext == h[j].effect.plaintext
    ensures i == j
  {
    hide Happened;
    if i < j { CreationsAreDistinct(sha, h, i, j); }
    if j < i { CreationsAreDistinct(sha, h, j, i); }
  }

  lemma NotLive(h: seq<Event>, i: nat, j: nat)
    requires i < j < |h| && CreatedAt(h, i) && RevokedAt(h, j, h[i].effect.id)
    ensures !Live(h, i)
  {}

  lemma InvIds(sha: Hash, h: seq<Event>, t: KeyTable)
    requires Inv(sha, h, t)
    ensures IdsUnique(t)
  {}

  /** Revocation is permanent: once revoked, a key never resolves again, to anyone. */
  lemma RevokedForEver(sha: Hash, h: seq<Event>, i: nat, j: nat, now: nat)
    requires Happened(sha, h) && i < j < |h| && CreatedAt(h, i) && RevokedAt(h, j, h[i].effect.id)
    requires NoCollision(sha, h, h[i].effect.plaintext)
    ensures Exec(sha, TableAfter(sha, h), Resolve(h[i].effect.plaintext, now)).1 == Resolved(None)
  {
    hide TableAfter, Happened, NoCollision, Live;
    var p := h[i].effect.plaintext;
    var t := TableAfter(sha, h);
    if KeyHash(sha, p) in t && t[KeyHash(sha, p)].revokedAt.None? {
      ResolveIff(sha, h, p, now, t[KeyHash(sha, p)].user);
      var k: nat :| k < |h| && CreatedAt(h, k) && h[k].effect.plaintext == p && Live(h, k);
      SameCreation(sha, h, i, k);
      NotLive(h, i, j);
    }
  }

  /** The list a user sees is exactly the keys that resolve to that user. */
  lemma ListIsResolvableKeys(sha: Hash, h: seq<Event>, user: UserId, now: nat, i: nat)
    requires Happened(sha, h) && i < |h| && CreatedAt(h, i)
    ensures var t := TableAfter(sha, h);
            h[i].effect.id in Exec(sha, t, ListKeys(user)).1.ids
            <==> Exec(sha, t, Resolve(h[i].effect.plaintext, now)).1 == Resolved(Some(user))
  {
    hide KeyHash, TableAfter, Inv, Happened, Live;
    HistoryKeepsInv(sha, h);
    var t := TableAfter(sha, h);
    TrackedAt(sha, h, t, i);
    InvIds(sha, h, t);
    var hash := KeyHash(sha, h[i].effect.plaintext);
    if h[i].effect.id in Exec(sha, t, ListKeys(user)).1.ids {
      var a :| a in t && t[a].user == user && t[a].revokedAt.None? && t[a].id == h[i].effect.id;
      OnlyRow(t, a, hash);
    }
  }

  /**
   * Everything listed was created by an INSERT of that user that took effect; its
   * owner was told so exactly if that reply was not lost.
   */
  lemma ListedKeysWereCreated(sha: Hash, h: seq<Event>, user: UserId, id: nat) returns (i: nat)
    requires Happened(sha, h) && id in Exec(sha, TableAfter(sha, h), ListKeys(user)).1.ids
    ensures i < |h| && CreatedAt(h, i) && h[i].effect.id == id && h[i].op.user == user && Live(h, i)
    ensures h[i].reply.Created? <==> !h[i].outcome.LoseReply?
  {
    hide KeyHash, TableAfter, Inv, Happened, Live;
    HistoryKeepsInv(sha, h);
    var t := TableAfter(sha, h);
    var a :| a in t && t[a].user == user && t[a].revokedAt.None? && t[a].id == id;
    i := WhoseRow(sha, h, t, a);
    ReplyOrLost(sha, h, i);
  }

  // ---- when a statement must take effect ----

  /** By the history, user `user` has a live key with this id. */
  ghost predicate OwnsLive(h: seq<Event>, user: UserId, id: nat) {
    exists i: nat :: i < |h| && CreatedAt(h, i) && h[i].effect.id == id && h[i].op.user == user && Live(h, i)
  }

  /**
   * A revocation that does not fail takes effect exactly when the history has created
   * a key with this id for this user and has not revoked it since, used or not.
   */
  lemma RevokeIff(sha: Hash, h: seq<Event>, user: UserId, id: nat, now: nat)
    requires Happened(sha, h)
    ensures Exec(sha, TableAfter(sha, h), Revoke(user, id, now)).1 == if OwnsLive(h, user, id) then Revoked else NotFound
  {
    hide TableAfter, Inv, KeyHash, Live;
    HistoryKeepsInv(sha, h);
    var t := TableAfter(sha, h);
    if OwnsLive(h, user, id) {
      var i: nat :| i < |h| && CreatedAt(h, i) && h[i].effect.id == id && h[i].op.user == user && Live(h, i);
      TrackedAt(sha, h, t, i);
      assert Matching(t[KeyHash(sha, h[i].effect.plaintext)], user, id);
    }
    if a :| a in t && Matching(t[a], user, id) {
      var i := WhoseRow(sha, h, t, a);
    }
  }

  /** Neither the key's hash nor its id has been handed out before. */
  ghost predicate Unused(sha: Hash, h: seq<Event>, plaintext: string, id: nat) {
    forall i: nat :: i < |h| && CreatedAt(h, i) ==> KeyHash(sha, h[i].effect.plaintext) != KeyHash(sha, plaintext) && h[i].effect.id != id
  }

  /** A creation that does not fail takes effect exactly when its name is good and its hash and id are new. */
  lemma CreateIff(sha: Hash, h: seq<Event>, user: UserId, name: string, mixed: Bytes, id: nat, now: nat)
    requires Happened(sha, h)
    ensures var p := GeneratePlaintext(sha, mixed);
            Exec(sha, TableAfter(sha, h), Create(user, name, mixed, id, now)).1
            == if BadKeyName(name) then BadInput else if Unused(sha, h, p, id) then Created(id, p) else Internal
  {
    hide TableAfter, Inv, KeyHash, Live, GeneratePlaintext, BadKeyName;
    HistoryKeepsInv(sha, h);
    var t := TableAfter(sha, h);
    var p := GeneratePlaintext(sha, mixed);
    if KeyHash(sha, p) in t { var i := WhoseRow(sha, h, t, KeyHash(sha, p)); }
    if a :| a in t && t[a].id == id { var i := WhoseRow(sha, h, t, a); }
    forall i: nat | i < |h| && CreatedAt(h, i) && !(KeyHash(sha, h[i].effect.plaintext) != KeyHash(sha, p) && h[i].effect.id != id)
      ensures KeyHash(sha, p) in t || exists a :: a in t && t[a].id == id
    {
      TrackedAt(sha, h, t, i);
    }
  }

  // ---- the text of names and keys ----

  ghost predicate AllWhite(s: string) {
    forall i :: 0 <= i < |s| ==> Names.Whitespace(s[i])
  }

  /** `t` is `s` without the white space around it. */
  ghost predicate IsTrimmed(s: string, t: string) {
    exists before, after :: s == before + t + after && AllWhite(before) && AllWhite(after)
                            && (t != "" ==> !Names.Whitespace(t[0]) && !Names.Whitespace(t[|t| - 1]))
  }

  lemma {:induction false} TrimStartIs(s: string) returns (before: string)
    ensures s == before + TrimStart(s) && AllWhite(before)
    ensures TrimStart(s) != "" ==> !Names.Whitespace(TrimStart(s)[0])
  {
    if s != [] && Names.Whitespace(s[0]) {
      var rest := TrimStartIs(s[1..]);
      before := [s[0]] + rest;
      assert s == [s[0]] + s[1..];
    } else {
      before := "";
    }
  }

  lemma {:induction false} TrimEndIs(s: string) returns (after: string)
    ensures s == TrimEnd(s) + after && AllWhite(after)
    ensures TrimEnd(s) != "" ==> TrimEnd(s)[0] == s[0] && !Names.Whitespace(TrimEnd(s)[|TrimEnd(s)| - 1])
    decreases |s|
  {
    if s != [] && Names.Whitespace(s[|s| - 1]) {
      var rest := TrimEndIs(s[..|s| - 1]);
      after := rest + [s[|s| - 1]];
      assert s == s[..|s| - 1] + [s[|s| - 1]];
    } else {
      after := "";
    }
  }

  lemma TrimIs(s: string)
    ensures IsTrimmed(s, Trim(s))
  {
    var before := TrimStartIs(s);
    var after := TrimEndIs(TrimStart(s));
    assert s == before + Trim(s) + after;
  }

  /** A key name is refused exactly when nothing but white space is in it or its trimmed form is longer than 64 bytes. */
  lemma BadKeyNameIff(name: string)
    ensures BadKeyName(name) <==> AllWhite(name) || |Utf8(Trim(name))| > 64
  {
    TrimIs(name);
    var before, after :| name == before + Trim(name) + after && AllWhite(before) && AllWhite(after);
    if Trim(name) != "" {
      assert name[|before|] == Trim(name)[0];
      TrimmedStart(name);
    }
  }

  lemma TrimmedStart(name: string)
    requires Trim(name) != ""
    ensures !Names.Whitespace(Trim(name)[0])
  {
    var before := TrimStartIs(name);
    var after := TrimEndIs(TrimStart(name));
  }

  /** The 56 digits of a key say the first 28 bytes of the digest of what was mixed: no two digests differ there and give one key. */
  lemma PlaintextTellsDigest(sha: Hash, mixed: Bytes)
    ensures var p := GeneratePlaintext(sha, mixed); p[..4] == "jwc_" && Hex.Decode(p[4..]) == Some(sha(mixed)[..28])
  {
    Hex.DecodeEncode(sha(mixed)[..28]);
  }

  /** A key is stored under the hexadecimal digest of its UTF-8 form. */
  lemma KeyHashIsDigest(sha: Hash, plaintext: string)
    ensures Hex.Decode(KeyHash(sha, plaintext)) == Some(sha(Utf8(plaintext)))
  {
    Hex.DecodeEncode(sha(Utf8(plaintext)));
  }

  // ---- what the replies alone tell ----

  predicate Lost(h: seq<Event>, i: nat)
    requires i < |h|
  {
    h[i].outcome.LoseReply?
  }

  lemma ReplyOrLost(sha: Hash, h: seq<Event>, i: nat)
    requires Happened(sha, h) && i < |h|
    ensures CreatedAt(h, i) || h[i].effect.Revoked? ==> h[i].reply == if Lost(h, i) then Internal else h[i].effect
    ensures h[i].reply.Created? || h[i].reply.Revoked? ==> h[i].effect == h[i].reply
  {
    hide GeneratePlaintext, KeyHash, TableAfter, Inv, Happened;
    PrefixHappened(sha, h, i);
  }

  predicate ToldRevokedAt(h: seq<Event>, j: nat, id: nat)
    requires j < |h|
  {
    h[j].op.Revoke? && h[j].op.id == id && h[j].reply.Revoked?
  }

  ghost predicate NeverToldRevoked(h: seq<Event>, i: nat, id: nat) {
    forall j: nat :: i < j < |h| ==> !ToldRevokedAt(h, j, id)
  }

  /** What someone who sees only the replies would say: key `p` was handed to `u`, and no revocation of it was confirmed. */
  ghost predicate HoldsByReplies(h: seq<Event>, p: string, u: UserId) {
    exists i: nat :: i < |h| && h[i].op.Create? && h[i].reply.Created? && h[i].reply.plaintext == p && h[i].op.user == u
                     && NeverToldRevoked(h, i, h[i].reply.id)
  }

  /** The replies so far tell what `p` resolves to. */
  ghost predicate RepliesTell(sha: Hash, h: seq<Event>, p: string) {
    forall u :: Exec(sha, TableAfter(sha, h), Resolve(p, 0)).1 == Resolved(Some(u)) <==> HoldsByReplies(h, p, u)
  }

  ghost predicate NoRevokeLost(h: seq<Event>, i: nat)
    requires i < |h| && CreatedAt(h, i)
  {
    forall j: nat :: i < j < |h| && RevokedAt(h, j, h[i].effect.id) ==> !Lost(h, j)
  }

  /** Neither the creation of key `p` nor its revocation lost its reply. */
  ghost predicate NothingLost(h: seq<Event>, p: string) {
    forall i: nat :: i < |h| && CreatedAt(h, i) && h[i].effect.plaintext == p ==> !Lost(h, i) && NoRevokeLost(h, i)
  }

  lemma RepliesTellHolds(sha: Hash, h: seq<Event>, p: string, u: UserId)
    requires Happened(sha, h) && NothingLost(h, p)
    ensures Holds(h, p, u) <==> HoldsByReplies(h, p, u)
  {
    hide Happened;
    if Holds(h, p, u) {
      var i: nat :| i < |h| && CreatedAt(h, i) && h[i].effect.plaintext == p && h[i].op.user == u && Live(h, i);
      ReplyOrLost(sha, h, i);
      forall j: nat | i < j < |h| ensures !ToldRevokedAt(h, j, h[i].reply.id) {
        ReplyOrLost(sha, h, j);
        assert !RevokedAt(h, j, h[i].effect.id);
      }
      assert NeverToldRevoked(h, i, h[i].reply.id);
    }
    if HoldsByReplies(h, p, u) {
      var i: nat :| i < |h| && h[i].op.Create? && h[i].reply.Created? && h[i].reply.plaintext == p && h[i].op.user == u
                    && NeverToldRevoked(h, i, h[i].reply.id);
      ReplyOrLost(sha, h, i);
      assert CreatedAt(h, i) && NoRevokeLost(h, i);
      forall j: nat | i < j < |h| ensures !RevokedAt(h, j, h[i].effect.id) {
        ReplyOrLost(sha, h, j);
        assert !ToldRevokedAt(h, j, h[i].reply.id);
      }
      assert Live(h, i);
    }
  }

  lemma PrefixLosesNothing(h: seq<Event>, n: nat, p: string)
    requires NothingLost(h, p) && n <= |h|
    ensures NothingLost(h[..n], p)
  {
    var g := h[..n];
    forall i: nat | i < |g| && CreatedAt(g, i) && g[i].effect.plaintext == p ensures !Lost(g, i) && NoRevokeLost(g, i) {
      assert CreatedAt(h, i) && !Lost(h, i) && NoRevokeLost(h, i);
      forall j: nat | i < j < |g| && RevokedAt(g, j, g[i].effect.id) ensures !Lost(g, j) {
        assert RevokedAt(h, j, h[i].effect.id);
      }
    }
  }

  lemma PrefixHasNoCollision(sha: Hash, h: seq<Event>, n: nat, p: string)
    requires NoCollision(sha, h, p) && n <= |h|
    ensures NoCollision(sha, h[..n], p)
  {
    forall i: nat | i < n && CreatedAt(h[..n], i) ensures CreatedAt(h, i) {}
  }

  /** A creation that lost its reply made a key that works and that nobody was told of. */
  lemma LostCreation(sha: Hash, h: seq<Event>, i: nat, p: string)
    requires Happened(sha, h) && |h| == i + 1 && CreatedAt(h, i) && Lost(h, i) && h[i].effect.plaintext == p
    ensures Holds(h, p, h[i].op.user) && !HoldsByReplies(h, p, h[i].op.user)
  {
    hide Happened;
    var u := h[i].op.user;
    assert Live(h, i);
    if HoldsByReplies(h, p, u) {
      var k: nat :| k < |h| && h[k].op.Create? && h[k].reply.Created? && h[k].reply.plaintext == p && h[k].op.user == u;
      ReplyOrLost(sha, h, k);
      SameCreation(sha, h, i, k);
      ReplyOrLost(sha, h, i);
    }
  }

  /** A revocation that lost its reply ended a key that its owner was told of and was never told is gone. */
  lemma LostRevocation(sha: Hash, h: seq<Event>, i: nat, j: nat, p: string)
    requires Happened(sha, h) && i < j && |h| == j + 1 && CreatedAt(h, i) && !Lost(h, i) && h[i].effect.plaintext == p
    requires RevokedAt(h, j, h[i].effect.id) && Lost(h, j)
    ensures !Holds(h, p, h[i].op.user) && HoldsByReplies(h, p, h[i].op.user)
  {
    hide Happened;
    var u := h[i].op.user;
    if Holds(h, p, u) {
      var k: nat :| k < |h| && CreatedAt(h, k) && h[k].effect.plaintext == p && Live(h, k);
      SameCreation(sha, h, i, k);
      NotLive(h, i, j);
    }
    ReplyOrLost(sha, h, i);
    forall k: nat | i < k < |h| ensures !ToldRevokedAt(h, k, h[i].reply.id) {
      ReplyOrLost(sha, h, k);
      if k < j { RevokedOnce(sha, h, i, j, k); }
    }
    assert NeverToldRevoked(h, i, h[i].reply.id);
  }

  /**
   * Exactly when the replies can be relied upon: they tell, at every moment, what a
   * key resolves to if and only if neither its creation nor its revocation lost its
   * reply.
   */
  lemma RepliesTellIff(sha: Hash, h: seq<Event>, p: string)
    requires Happened(sha, h) && NoCollision(sha, h, p)
    ensures (forall n :: 0 <= n <= |h| ==> RepliesTell(sha, h[..n], p)) <==> NothingLost(h, p)
  {
    hide Happened, NoCollision, Exec, TableAfter, Holds, HoldsByReplies, NothingLost, Lost;
    if NothingLost(h, p) {
      forall n | 0 <= n <= |h| ensures RepliesTell(sha, h[..n], p) {
        PrefixLosesNothing(h, n, p);
        HoldsAtPrefix(sha, h, n, p);
        PrefixHappened(sha, h, n);
        forall u { RepliesTellHolds(sha, h[..n], p, u); }
      }
    }
    if !NothingLost(h, p) {
      var n, u := FirstLoss(sha, h, p);
      HoldsAtPrefix(sha, h, n, p);
      assert !RepliesTell(sha, h[..n], p);
    }
  }

  lemma HoldsAtPrefix(sha: Hash, h: seq<Event>, n: nat, p: string)
    requires Happened(sha, h) && NoCollision(sha, h, p) && n <= |h|
    ensures forall u :: Exec(sha, TableAfter(sha, h[..n]), Resolve(p, 0)).1 == Resolved(Some(u)) <==> Holds(h[..n], p, u)
  {
    hide Happened, NoCollision, Exec, TableAfter, Holds;
    PrefixHappened(sha, h, n);
    PrefixHasNoCollision(sha, h, n, p);
    forall u ensures Exec(sha, TableAfter(sha, h[..n]), Resolve(p, 0)).1 == Resolved(Some(u)) <==> Holds(h[..n], p, u) {
      ResolveIff(sha, h[..n], p, 0, u);
    }
  }

  lemma FirstLoss(sha: Hash, h: seq<Event>, p: string) returns (n: nat, u: UserId)
    requires Happened(sha, h) && !NothingLost(h, p)
    ensures n <= |h| && (Holds(h[..n], p, u) <==> !HoldsByReplies(h[..n], p, u))
  {
    hide Happened, Holds, HoldsByReplies;
    var i: nat :| i < |h| && CreatedAt(h, i) && h[i].effect.plaintext == p && !(!Lost(h, i) && NoRevokeLost(h, i));
    u := h[i].op.user;
    if Lost(h, i) {
      n := i + 1;
      PrefixHappened(sha, h, n);
      LostCreation(sha, h[..n], i, p);
    } else {
      var j: nat :| i < j < |h| && RevokedAt(h, j, h[i].effect.id) && Lost(h, j);
      n := j + 1;
      PrefixHappened(sha, h, n);
      LostRevocation(sha, h[..n], i, j, p);
    }
  }

  /** The shortest such history: one key created, its revocation carried out and the reply lost. */
  lemma RevokedWithoutBeingTold(sha: Hash, mixed: Bytes) returns (h: seq<Event>)
    ensures |h| == 2 && Happened(sha, h)
    ensures h[0].reply == Created(7, GeneratePlaintext(sha, mixed)) && h[1].op == Revoke(1, 7, 0) && h[1].reply == Internal
    ensures HoldsByReplies(h, GeneratePlaintext(sha, mixed), 1)
    ensures Exec(sha, TableAfter(sha, h), Resolve(GeneratePlaintext(sha, mixed), 0)).1 == Resolved(None)
  {
    hide GeneratePlaintext, KeyHash;
    var create, revoke := Create(1, "k", mixed, 7, 0), Revoke(1, 7, 0);
    assert !BadKeyName("k");
    var t0: KeyTable := map[];
    var (t1, e0) := Serve(sha, t0, create, Proceed);
    var (t2, e1) := Serve(sha, t1, revoke, LoseReply);
    var hash := KeyHash(sha, e0.effect.plaintext);
    assert Matching(t1[hash], 1, 7);
    h := [e0, e1];
    Recorded(sha, [], create, Proceed);
    Recorded(sha, [e0], revoke, LoseReply);
    assert [] + [e0] == [e0] && [e0] + [e1] == h;
    assert NeverToldRevoked(h, 0, 7);
  }

  // ---- the endpoints ----

  /** The `api_keys` table and the four endpoints on it; `history` is a ghost record of what they did. */
  class KeyStore {
    const sha: Hash
    var rows: KeyTable
    ghost var history: seq<Event>

    ghost predicate Valid()
      reads this
    {
      Happened(sha, history) && rows == TableAfter(sha, history)
    }

    constructor (sha: Hash)
      ensures Valid() && history == [] && this.sha == sha
    {
      this.sha := sha;
      rows := map[];
      history := [];
    }

    /** One more event, with its effect on the table, and the answer it gives. */
    twostate predicate Did(op: Op, o: Outcome, reply: Reply)
      reads this
    {
      var (t, e) := Serve(sha, old(rows), op, o);
      Valid() && rows == t && history == old(history) + [e] && reply == e.reply
    }

    method CreateKey(user: UserId, name: string, mixed: Bytes, id: nat, now: nat, outcome: Outcome) returns (r: Reply)
      requires Valid()
      modifies this
      ensures Did(Create(user, name, mixed, id, now), outcome, r)
      ensures var p := GeneratePlaintext(sha, mixed);
              r == if BadKeyName(name) then BadInput
                   else if outcome.Proceed? && Unused(sha, old(history), p, id) then Created(id, p) else Internal
      ensures r.Created? ==>
                rows == old(rows)[KeyHash(sha, r.plaintext) := KeyRow(id, user, Trim(name), r.plaintext[..12], now, None, None)]
      ensures outcome.Fail? ==> rows == old(rows)
    {
      hide GeneratePlaintext, KeyHash, Trim, Utf8, Happened, TableAfter, Unused;
      ghost var op, g := Create(user, name, mixed, id, now), history;
      CreateIff(sha, g, user, name, mixed, id, now);
      var trimmed := Trim(name);
      if trimmed == "" || |Utf8(trimmed)| > 64 {
        r := BadInput;
      } else {
        var plaintext := GeneratePlaintext(sha, mixed);
        var prefix := plaintext[..12];
        var hash := KeyHash(sha, plaintext);
        r := Internal;
        if !outcome.Fail? && hash !in rows && !exists h :: h in rows && rows[h].id == id {
          rows := rows[hash := KeyRow(id, user, trimmed, prefix, now, None, None)];
          if !outcome.LoseReply? { r := Created(id, plaintext); }
        }
      }
      history := history + [Serve(sha, TableAfter(sha, g), op, outcome).1];
      Recorded(sha, g, op, outcome);
    }

    /** Newest first; `listed` holds the rows' keys. */
    method List(user: UserId, outcome: Outcome) returns (r: Reply, listed: seq<string>)
      requires Valid()
      modifies this`history
      ensures Did(ListKeys(user), outcome, r)
      ensures r.Keys? <==> outcome.Proceed?
      ensures forall i, j :: 0 <= i < j < |listed| ==>
                listed[i] in rows && listed[j] in rows && listed[i] != listed[j]
                && rows[listed[i]].createdAt >= rows[listed[j]].createdAt
      ensures r.Keys? ==> forall h :: h in listed <==> h in rows && rows[h].user == user && rows[h].revokedAt.None?
    {
      hide Happened, TableAfter;
      ghost var g := history;
      listed := [];
      r := Internal;
      if outcome.Proceed? {
        listed := Orders.Sort(map h | h in rows && rows[h].user == user && rows[h].revokedAt.None? :: rows[h].createdAt);
        assert forall i :: 0 <= i < |listed| ==> listed[i] in listed;
        r := Keys(set h | h in rows && rows[h].user == user && rows[h].revokedAt.None? :: rows[h].id);
      }
      history := history + [Serve(sha, TableAfter(sha, g), ListKeys(user), outcome).1];
      Recorded(sha, g, ListKeys(user), outcome);
    }

    method RevokeKey(user: UserId, id: nat, now: nat, outcome: Outcome) returns (r: Reply)
      requires Valid()
      modifies this
      ensures Did(Revoke(user, id, now), outcome, r)
      ensures r == if !outcome.Proceed? then Internal else if OwnsLive(old(history), user, id) then Revoked else NotFound
      ensures rows.Keys == old(rows).Keys
      ensures forall h :: h in rows ==>
                rows[h] == if !outcome.Fail? && old(rows)[h].id == id && old(rows)[h].user == user && old(rows)[h].revokedAt.None?
                           then old(rows)[h].(revokedAt := Some(now)) else old(rows)[h]
    {
      hide Exec, OwnsLive, Happened, TableAfter;
      ghost var op, g := Revoke(user, id, now), history;
      var hits := set h | h in rows && Matching(rows[h], user, id);
      RevokeHits(sha, rows, user, id, now, hits);
      RevokeIff(sha, g, user, id, now);
      r := Internal;
      if !outcome.Fail? {
        if hits != {} {
          rows := map h | h in rows :: if h in hits then rows[h].(revokedAt := Some(now)) else rows[h];
        }
        if !outcome.LoseReply? { r := if hits == {} then NotFound else Revoked; }
      }
      history := history + [Serve(sha, TableAfter(sha, g), op, outcome).1];
      Recorded(sha, g, op, outcome);
    }

    /** None for an error: the UPDATE failed, or it went through and the e-mail lookup or a reply did not. */
    method ResolveKey(plaintext: string, now: nat, outcome: Outcome) returns (user: Option<Option<UserId>>)
      requires Valid()
      modifies this
      ensures Did(Resolve(plaintext, now), outcome, if user.Some? then Resolved(user.value) else Internal)
      ensures user.Some? <==> outcome.Proceed?
      ensures outcome.Proceed? && NoCollision(sha, old(history), plaintext) ==>
                forall u: UserId :: user == Some(Some(u)) <==> Holds(old(history), plaintext, u)
      ensures var hash := KeyHash(sha, plaintext);
              rows == if !outcome.Fail? && hash in old(rows) && old(rows)[hash].revokedAt.None?
                      then old(rows)[hash := old(rows)[hash].(lastUsedAt := Some(now))] else old(rows)
    {
      hide KeyHash, Happened, TableAfter, Holds, NoCollision;
      ghost var op, g := Resolve(plaintext, now), history;
      if NoCollision(sha, g, plaintext) {
        forall u: UserId ensures Exec(sha, rows, Resolve(plaintext, now)).1 == Resolved(Some(u)) <==> Holds(g, plaintext, u) {
          ResolveIff(sha, g, plaintext, now, u);
        }
      }
      var hash := KeyHash(sha, plaintext);
      user := None;
      if !outcome.Fail? {
        var found := None;
        if hash in rows && rows[hash].revokedAt.None? {
          found := Some(rows[hash].user);
          rows := rows[hash := rows[hash].(lastUsedAt := Some(now))];
        }
        if !outcome.LoseReply? { user := Some(found); }
      }
      history := history + [Serve(sha, TableAfter(sha, g), op, outcome).1];
      Recorded(sha, g, op, outcome);
    }
  }

  /** The UPDATE touches exactly the rows its WHERE selects, and answers by whether there were any. */
  lemma RevokeHits(sha: Hash, t: KeyTable, user: UserId, id: nat, now: nat, hits: set<string>)
    requires forall h :: h in hits <==> h in t && Matching(t[h], user, id)
    ensures Exec(sha, t, Revoke(user, id, now)) ==
            if hits == {} then (t, NotFound)
            else (map h | h in t :: if h in hits then t[h].(revokedAt := Some(now)) else t[h], Revoked)
  {
    if hits == {} {
      assert forall h :: h in t && Matching(t[h], user, id) ==> h in hits;
    } else {
      var h :| h in hits;
      assert h in t && Matching(t[h], user, id);
      assert (map h | h in t :: if h in hits then t[h].(revokedAt := Some(now)) else t[h])
          == (map h | h in t :: if Matching(t[h], user, id) then t[h].(revokedAt := Some(now)) else t[h]);
    }
  }

  lemma Recorded(sha: Hash, g: seq<Event>, op: Op, o: Outcome)
    requires Happened(sha, g)
    ensures var (t, e) := Serve(sha, TableAfter(sha, g), op, o);
            Happened(sha, g + [e]) && TableAfter(sha, g + [e]) == t
  {
    hide Exec;
    var h := g + [Serve(sha, TableAfter(sha, g), op, o).1];
    assert h[..|g|] == g;
  }
}
