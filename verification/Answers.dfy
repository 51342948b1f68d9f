/**
 * What clients are told, in every run, over the history alone: what was published
 * and unpublished before the moment a request was decided.
 */
module Answers {
  import opened Wrappers
  import opened Text
  import opened Storage
  import opened Names
  import opened Registry
  import opened Tables
  import opened Protocol
  import opened Checks
  import opened Invariants
  import opened Preservation
  import opened Refinement

  // ---- what got into the history ----

  /**
   * In every run each entry of the history is an operation that its request asked
   * for under a good name and version; what a publish publishes is the body of the
   * first `file` part of its stream, with no framing error before it, within the
   * limit.
   */
  lemma EntriesSayWhatWasAsked(cfg: Config, labels: seq<Label>, s: State, k: nat)
    requires Run(cfg, INITIAL, labels) == Some(s) && k < |s.log|
    ensures s.log[k].request < |s.reqs|
    ensures var call := s.reqs[s.log[k].request].call; GoodPath(call) && AsksFor(call, cfg.maxUpload, s.log[k].op)
  {
    hide GoodPath, AsksFor, Holds, Matches, AnsweredInOrder;
    RunsAreSequential(cfg, labels, s);
    assert AskedFor(cfg, s, k);
  }

  // ---- what comes out ----

  /** This row describes these bytes, published by this user. */
  ghost predicate Describes(cfg: Config, row: VersionRow, user: UserId, content: Bytes) {
    && row.sha256 == Sha256Hex(cfg.sha, content) && row.size == |content| && row.uploadedBy == user
    && row.blobPath == Join(["blobs", row.sha256[..2], row.sha256[2..4], row.sha256])
  }

  /** The first publisher, and a row for exactly each live version, describing its bytes. */
  ghost predicate IsDetails(cfg: Config, h: History, name: string, owner: UserId, rows: map<string, VersionRow>) {
    && OwnedBy(h, name, owner)
    && (forall v :: v in rows <==> IsLive(h, name, v))
    && (forall v :: v in rows ==> Describes(cfg, rows[v], owner, LiveContent(h, name, v).value))
  }

  /** What a request decided after history `h` may be told. */
  ghost predicate Told(cfg: Config, h: History, call: Call, a: Answer) {
    match call
    case Upload(user, name, version, parts) =>
      && (a == Rejected(Forbidden) <==> Known(h, name) && !OwnedBy(h, name, user))
      && (a == Rejected(Conflict) <==> OwnedBy(h, name, user) && IsLive(h, name, version))
      && ((Known(h, name) ==> OwnedBy(h, name, user)) && !IsLive(h, name, version) ==>
            a == Rejected(Internal)
            || exists body :: FirstFile(parts, body) && |body| <= cfg.maxUpload && a == Uploaded(Sha256Hex(cfg.sha, body), |body|))
    case Delete(user, name, version) =>
      && (a == Rejected(Forbidden) <==> Known(h, name) && !OwnedBy(h, name, user))
      && (OwnedBy(h, name, user) && IsLive(h, name, version) ==> a == Deleted || a == Rejected(Internal))
      && (!Known(h, name) || (OwnedBy(h, name, user) && !IsLive(h, name, version)) ==>
            a == Rejected(NotFound) || a == Rejected(Internal))
    case Download(name, version) =>
      if IsLive(h, name, version) then a.Body? || a == Rejected(Internal) else a == Rejected(NotFound)
    case Get(name) =>
      if Known(h, name) then a.Details? && IsDetails(cfg, h, name, a.owner, a.rows) else a == Rejected(NotFound)
    case List =>
      && a.Listing?
      && (forall n :: n in a.packages <==> Known(h, n))
      && (forall n :: n in a.packages ==> IsDetails(cfg, h, n, a.packages[n].0, a.packages[n].1))
  }

  lemma RowDescribes(cfg: Config, owner: UserId, content: Bytes, row: VersionRow)
    requires RowHolds(cfg, owner, content, row)
    ensures Describes(cfg, row, owner, content)
  {
    assert PathFor([], row.sha256) == ["blobs", row.sha256[..2], row.sha256[2..4], row.sha256];
  }

  lemma RowsAreDetails(cfg: Config, h: History, name: string, p: Package, owner: UserId, rows: map<string, VersionRow>)
    requires IsPackage(h, name, p) && RowsHold(cfg, p, owner, rows)
    ensures IsDetails(cfg, h, name, owner, rows)
  {
    hide RowHolds, Describes;
    forall v | v in rows ensures Describes(cfg, rows[v], owner, LiveContent(h, name, v).value) {
      RowDescribes(cfg, owner, p.versions[v], rows[v]);
    }
  }

  lemma ListingIsDetails(cfg: Config, h: History, c: Catalog, a: Answer)
    requires IsCatalog(h, c) && a.Listing? && a.packages.Keys == c.Keys
    requires forall n :: n in c ==> RowsHold(cfg, c[n], a.packages[n].0, a.packages[n].1)
    ensures Told(cfg, h, List, a)
  {
    hide IsPackage, RowsHold, IsDetails;
    forall n | n in a.packages ensures IsDetails(cfg, h, n, a.packages[n].0, a.packages[n].1) {
      RowsAreDetails(cfg, h, n, c[n], a.packages[n].0, a.packages[n].1);
    }
  }

  lemma MatchesIsTold(cfg: Config, h: History, call: Call, a: Answer, reply: Reply)
    requires Fault(cfg, call).None? && Means(h, Asked(cfg, call), reply) && Matches(cfg, call, a, reply)
    ensures Told(cfg, h, call, a)
  {
    hide Fault, IsPackage, RowsHold, IsDetails, Known, OwnedBy, IsCatalog, Content, FirstFile, Sha256Hex;
    match call
    case Upload(user, name, version, parts) => PassesIff(cfg, call);
    case Get(name) => if reply.Shown? { RowsAreDetails(cfg, h, name, reply.package, a.owner, a.rows); }
    case List => ListingIsDetails(cfg, h, reply.catalog, a);
    case _ =>
  }

  /**
   * In every run a decided request is told what the publishes and unpublishes before
   * its place in the history call for, and a request that no statement decided is
   * turned away: no credential, a call that does not pass, or a failure.
   */
  lemma AnswersMean(cfg: Config, labels: seq<Label>, s: State, r: nat)
    requires Run(cfg, INITIAL, labels) == Some(s) && r < |s.reqs| && s.reqs[r].pc.Done?
    ensures var q, a := s.reqs[r], s.reqs[r].pc.answer;
            if q.lin.Some? then q.lin.value < |s.log| && Told(cfg, s.log[..q.lin.value], q.call, a)
            else || (a == Unauthorized && (q.call.Upload? || q.call.Delete?)) || a == Rejected(Internal)
                 || (a.Rejected? && Deserves(q.call, cfg.maxUpload, a.error))
  {
    hide RequestsOk, NoClash, Holds, HistoryOk, FilesOk, CatalogStored, PoolOk, Means, Matches, Told, Fault, Deserves, ReplyAt;
    EveryRunKeepsInv(cfg, labels);
    var q := s.reqs[r];
    DoneFacts(cfg, s, r);
    if q.lin.Some? {
      var k := q.lin.value;
      RepliesMean(s.log, k);
      MatchesIsTold(cfg, s.log[..k], q.call, q.pc.answer, ReplyAt(s.log, k));
    } else if q.pc.answer.Rejected? {
      TurnedAwayIff(cfg, q.call, q.pc.answer.error);
    }
  }

  lemma DoneFacts(cfg: Config, s: State, r: nat)
    requires RequestsOk(cfg, s) && HistoryOk(cfg, s) && r < |s.reqs| && s.reqs[r].pc.Done?
    ensures var q := s.reqs[r];
            if q.lin.None? then TurnedAway(cfg, q.call, q.pc.answer)
            else && q.lin.value < |s.log| && s.log[q.lin.value].op == Asked(cfg, q.call) && Fault(cfg, q.call).None?
                 && Matches(cfg, q.call, q.pc.answer, ReplyAt(s.log, q.lin.value))
  {
    assert RequestOk(cfg, s, r, s.reqs[r]);
  }
}
