/** What every reachable state of the protocol keeps. */
module Invariants {
  import opened Wrappers
  import opened Text
  import opened Storage
  import opened Names
  import opened Registry
  import opened Tables
  import opened Protocol
  import B = BlobFile

  // ---- one request against the shared state ----

  /** The package an upload is publishing into: committed and its own, or its own pending insert. */
  ghost predicate Owns(db: Tables, r: nat, q: Request, id: nat)
    requires q.call.Upload?
  {
    if q.tx.package.None?
    then q.call.name in db.packages && db.packages[q.call.name] == PackageRow(id, q.call.user)
    else id == r && q.tx.package == Some((q.call.name, PackageRow(r, q.call.user)))
  }

  ghost predicate Writes(cfg: Config, files: map<Path, B.File>, r: nat, call: Call) {
    var file := UploadFile(cfg, call);
    file in files && r in files[file].writers && files[file].writers[r].data == Content(cfg, call)
  }

  ghost predicate PutDone(cfg: Config, files: map<Path, B.File>, r: nat, call: Call) {
    Writes(cfg, files, r, call) && files[UploadFile(cfg, call)].bytes.Some?
  }

  /** Some `put` of these bytes created the file where these bytes belong. */
  ghost predicate Stored(cfg: Config, files: map<Path, B.File>, content: Bytes) {
    var file := BlobFileOf(cfg, content);
    && file in files && files[file].bytes.Some?
    && exists w :: w in files[file].writers && files[file].writers[w].data == content
  }

  /** The answer a client gets against the sequential reply at its place in the history. */
  ghost predicate Matches(cfg: Config, call: Call, a: Answer, reply: Reply) {
    match reply
    case Published => a == Uploaded(Sha256Hex(cfg.sha, Content(cfg, call)), |Content(cfg, call)|) || a == Rejected(Internal)
    case Unpublished => a == Deleted || a == Rejected(Internal)
    case Fetched(_) => a.Body? || a == Rejected(Internal)
    case Shown(p) => a.Details? && RowsHold(cfg, p, a.owner, a.rows)
    case Listed(c) =>
      && a.Listing? && a.packages.Keys == c.Keys
      && forall n :: n in c ==> RowsHold(cfg, c[n], a.packages[n].0, a.packages[n].1)
    case Refused => a == Rejected(Forbidden)
    case Duplicate => a == Rejected(Conflict)
    case Missing => a == Rejected(NotFound) || (call.Delete? && a == Rejected(Internal))
  }

  /** Answers given without any statement having decided the request. */
  ghost predicate Undecided(a: Answer) {
    a.Unauthorized? || (a.Rejected? && !a.error.Conflict? && !a.error.NotFound? && !a.error.Forbidden?)
  }

  /** Answers given before any statement decided: no credential, a call that does not pass, or a failure. */
  ghost predicate TurnedAway(cfg: Config, call: Call, a: Answer) {
    && Undecided(a)
    && (a.Unauthorized? ==> call.Upload? || call.Delete?)
    && (a.Rejected? && a != Rejected(Internal) ==> Fault(cfg, call) == Some(a.error))
  }

  predicate Uploading(pc: Pc) {
    pc.FindPackage? || pc.AddPackage? || pc.CheckVersion? || pc.Store? || pc.AddVersion? || pc.Commit?
  }

  /** Which calls, pending inserts and decisions go with each program point. */
  ghost predicate Shape(cfg: Config, q: Request) {
    && (q.pc.Authenticate? || q.pc.Resolving? || q.pc.Validate? || q.pc.Done? || Fault(cfg, q.call).None?)
    && (q.pc.Authenticate? || q.pc.Resolving? ==> q.call.Upload? || q.call.Delete?)
    && (Uploading(q.pc) ==> q.call.Upload?)
    && (q.pc.FindOwned? || q.pc.RemoveVersion? ==> q.call.Delete?)
    && (q.pc.FindBlob? || q.pc.ReadBlob? ==> q.call.Download?)
    && (q.pc.FindShown? || q.pc.FindVersions? ==> q.call.Get?)
    && (q.pc.Summarize? ==> q.call.List?)
    && (q.tx.package.Some? ==> q.pc.CheckVersion? || q.pc.Store? || q.pc.AddVersion? || q.pc.Commit?)
    && (q.tx.version.Some? <==> q.pc.Commit?)
    && (q.lin.Some? ==> q.pc.ReadBlob? || q.pc.Done?)
    && (q.pc.ReadBlob? ==> q.lin.Some?)
    && (q.lin.Some? ==> Fault(cfg, q.call).None?)
  }

  ghost predicate Facts(cfg: Config, s: State, r: nat, q: Request)
    requires Shape(cfg, q)
  {
    match q.pc
    case CheckVersion(id) => Owns(s.db, r, q, id)
    case Store(id) => Owns(s.db, r, q, id) && Writes(cfg, s.files, r, q.call)
    case AddVersion(id) => Owns(s.db, r, q, id) && PutDone(cfg, s.files, r, q.call)
    case Commit(id) =>
      && Owns(s.db, r, q, id) && PutDone(cfg, s.files, r, q.call)
      && q.tx.version == Some(((id, q.call.version), RowFor(cfg, q.call.user, Content(cfg, q.call), q.begun)))
    case RemoveVersion(id) =>
      q.call.name in s.db.packages && s.db.packages[q.call.name] == PackageRow(id, q.call.user)
    case FindVersions(id, owner) =>
      q.call.name in s.db.packages && s.db.packages[q.call.name] == PackageRow(id, owner)
    case ReadBlob(sha256, _) =>
      && q.lin.value < |s.log| && ReplyAt(s.log, q.lin.value).Fetched?
      && sha256 == Sha256Hex(cfg.sha, ReplyAt(s.log, q.lin.value).content)
      && Stored(cfg, s.files, ReplyAt(s.log, q.lin.value).content)
    case Done(a) =>
      if q.lin.None? then TurnedAway(cfg, q.call, a)
      else q.lin.value < |s.log| && Matches(cfg, q.call, a, ReplyAt(s.log, q.lin.value))
    case _ => true
  }

  ghost predicate RequestOk(cfg: Config, s: State, r: nat, q: Request) {
    Shape(cfg, q) && Facts(cfg, s, r, q)
  }

  // ---- across requests ----

  /**
   * Reservations: committed and pending names are distinct, so are committed and
   * pending version keys, and a package id belongs to the request that inserted it.
   */
  ghost predicate NoClash(s: State) {
    && (forall i :: 0 <= i < |s.reqs| && s.reqs[i].tx.package.Some? ==> s.reqs[i].tx.package.value.0 !in s.db.packages)
    && (forall i, j :: 0 <= i < j < |s.reqs| && s.reqs[i].tx.package.Some? && s.reqs[j].tx.package.Some? ==>
          s.reqs[i].tx.package.value.0 != s.reqs[j].tx.package.value.0)
    && (forall i :: 0 <= i < |s.reqs| && s.reqs[i].tx.version.Some? ==> s.reqs[i].tx.version.value.0 !in s.db.versions)
    && (forall i, j :: 0 <= i < j < |s.reqs| && s.reqs[i].tx.version.Some? && s.reqs[j].tx.version.Some? ==>
          s.reqs[i].tx.version.value.0 != s.reqs[j].tx.version.value.0)
    && (forall n :: n in s.db.packages ==> s.db.packages[n].id < |s.reqs| && s.reqs[s.db.packages[n].id].pc.Done?)
  }

  /** Every decided request has exactly its own entry in the history, and nothing else is there. */
  ghost predicate HistoryOk(cfg: Config, s: State) {
    && (forall r :: 0 <= r < |s.reqs| && s.reqs[r].lin.Some? ==>
          s.reqs[r].lin.value < |s.log| && s.log[s.reqs[r].lin.value] == Entry(r, Asked(cfg, s.reqs[r].call)))
    && (forall k :: 0 <= k < |s.log| ==> s.log[k].request < |s.reqs| && s.reqs[s.log[k].request].lin == Some(k))
  }

  predicate StoreReached(pc: Pc) {
    pc.Store? || pc.AddVersion? || pc.Commit? || pc.Done?
  }

  ghost predicate WriterOk(cfg: Config, s: State, file: Path, w: nat)
    requires file in s.files && w in s.files[file].writers
  {
    var writer := s.files[file].writers[w];
    && w < |s.reqs| && s.reqs[w].call.Upload? && StoreReached(s.reqs[w].pc)
    && writer.data == Content(cfg, s.reqs[w].call) && UploadFile(cfg, s.reqs[w].call) == file
    && (s.files[file].bytes.None? ==> writer.stage.Checking? || writer.stage.Creating?)
  }

  ghost predicate FilesOk(cfg: Config, s: State) {
    forall file, w :: file in s.files && w in s.files[file].writers ==> WriterOk(cfg, s, file, w)
  }

  ghost predicate CatalogStored(cfg: Config, s: State) {
    var c := Replay(s.log);
    forall n, v :: n in c && v in c[n].versions ==> Stored(cfg, s.files, c[n].versions[v])
  }

  ghost predicate RequestsOk(cfg: Config, s: State) {
    forall r :: 0 <= r < |s.reqs| ==> RequestOk(cfg, s, r, s.reqs[r])
  }

  predicate PoolOk(s: State) {
    Held(s.reqs) <= POOL_SIZE
  }

  ghost predicate Inv(cfg: Config, s: State) {
    && RequestsOk(cfg, s)
    && NoClash(s)
    && HistoryOk(cfg, s)
    && Holds(cfg, Replay(s.log), s.db)
    && FilesOk(cfg, s)
    && CatalogStored(cfg, s)
    && PoolOk(s)
  }

  // ---- nothing a request relies on is taken away by others ----

  ghost predicate FilesGrow(files: map<Path, B.File>, files': map<Path, B.File>) {
    forall p :: p in files ==>
      && p in files'
      && (files[p].bytes.Some? ==> files'[p].bytes.Some?)
      && forall w :: w in files[p].writers ==> w in files'[p].writers && files'[p].writers[w].data == files[p].writers[w].data
  }

  ghost predicate Later(s: State, s': State) {
    && (forall n :: n in s.db.packages ==> n in s'.db.packages && s'.db.packages[n] == s.db.packages[n])
    && FilesGrow(s.files, s'.files)
    && s.log <= s'.log
  }

  lemma StoredStays(cfg: Config, files: map<Path, B.File>, files': map<Path, B.File>, content: Bytes)
    requires FilesGrow(files, files') && Stored(cfg, files, content)
    ensures Stored(cfg, files', content)
  {
    var file := BlobFileOf(cfg, content);
    var w :| w in files[file].writers && files[file].writers[w].data == content;
    assert w in files'[file].writers;
  }

  lemma FactsStay(cfg: Config, s: State, s': State, r: nat, q: Request)
    requires RequestOk(cfg, s, r, q) && Later(s, s')
    ensures RequestOk(cfg, s', r, q)
  {
    if q.lin.Some? && q.lin.value < |s.log| {
      ReplyInLongerHistory(s.log, s'.log, q.lin.value);
    }
    if q.pc.ReadBlob? {
      StoredStays(cfg, s.files, s'.files, ReplyAt(s.log, q.lin.value).content);
    }
  }

  /** After a change to request `r` only, every request is still in order. */
  lemma OthersStay(cfg: Config, s: State, s': State, r: nat)
    requires RequestsOk(cfg, s) && Later(s, s') && r < |s.reqs|
    requires |s'.reqs| == |s.reqs| && forall i :: 0 <= i < |s.reqs| && i != r ==> s'.reqs[i] == s.reqs[i]
    requires RequestOk(cfg, s', r, s'.reqs[r])
    ensures RequestsOk(cfg, s')
  {
    forall i | 0 <= i < |s'.reqs| ensures RequestOk(cfg, s', i, s'.reqs[i]) {
      if i != r { FactsStay(cfg, s, s', i, s.reqs[i]); }
    }
  }

  function Cost(q: Request): nat {
    if Holding(q.pc) then 1 else 0
  }

  lemma {:induction false} HeldUpdate(reqs: seq<Request>, r: nat, q': Request)
    requires r < |reqs|
    ensures Held(reqs[r := q']) == Held(reqs) - Cost(reqs[r]) + Cost(q')
  {
    if r == 0 {
      assert reqs[0 := q'][1..] == reqs[1..];
    } else {
      HeldUpdate(reqs[1..], r - 1, q');
      assert reqs[r := q'][1..] == reqs[1..][r - 1 := q'];
    }
  }

  lemma {:induction false} HeldAppend(reqs: seq<Request>, q: Request)
    ensures Held(reqs + [q]) == Held(reqs) + Cost(q)
  {
    if reqs == [] {
      assert ([q])[1..] == [];
    } else {
      HeldAppend(reqs[1..], q);
      assert (reqs + [q])[1..] == reqs[1..] + [q];
    }
  }

  lemma {:induction false} FileFaults(parts: seq<Part>, max: nat)
    ensures FileOf(parts, max).Failure? ==> Undecided(Rejected(FileOf(parts, max).error))
    ensures FileOf(parts, max).Success? ==> |FileOf(parts, max).value| <= max
  {
    if parts == [] {
    } else {
      FileFaults(parts[1..], max);
    }
  }

  lemma FaultIsUndecided(cfg: Config, call: Call)
    ensures Fault(cfg, call).Some? ==> Undecided(Rejected(Fault(cfg, call).value))
    ensures Fault(cfg, call).None? && call.Upload? ==> |Content(cfg, call)| <= cfg.maxUpload
  {
    if call.Upload? { FileFaults(call.parts, cfg.maxUpload); }
  }

  lemma FilesStay(cfg: Config, s: State, s': State, r: nat)
    requires FilesOk(cfg, s) && s'.files == s.files && r < |s.reqs| <= |s'.reqs|
    requires forall i :: 0 <= i < |s.reqs| && i != r ==> s'.reqs[i] == s.reqs[i]
    requires s'.reqs[r].call == s.reqs[r].call && (StoreReached(s.reqs[r].pc) ==> StoreReached(s'.reqs[r].pc))
    ensures FilesOk(cfg, s')
  {
    forall file, w | file in s'.files && w in s'.files[file].writers ensures WriterOk(cfg, s', file, w) {
      assert WriterOk(cfg, s, file, w);
    }
  }

  lemma HistoryStays(cfg: Config, s: State, s': State, r: nat)
    requires HistoryOk(cfg, s) && r < |s.reqs| == |s'.reqs| && s'.log == s.log
    requires forall i :: 0 <= i < |s.reqs| && i != r ==> s'.reqs[i] == s.reqs[i]
    requires s'.reqs[r].call == s.reqs[r].call && s'.reqs[r].lin == s.reqs[r].lin
    ensures HistoryOk(cfg, s')
  {}

  lemma HistoryExtended(cfg: Config, s: State, s': State, r: nat)
    requires HistoryOk(cfg, s) && r < |s.reqs| == |s'.reqs| && s.reqs[r].lin.None?
    requires forall i :: 0 <= i < |s.reqs| && i != r ==> s'.reqs[i] == s.reqs[i]
    requires s'.reqs[r].lin == Some(|s.log|) && s'.reqs[r].call == s.reqs[r].call
    requires s'.log == s.log + [Entry(r, Asked(cfg, s.reqs[r].call))]
    ensures HistoryOk(cfg, s')
  {
    forall k | 0 <= k < |s'.log| ensures s'.log[k].request < |s'.reqs| && s'.reqs[s'.log[k].request].lin == Some(k) {
      if k < |s.log| {
        assert s'.log[k] == s.log[k] && s.reqs[s.log[k].request].lin == Some(k);
      }
    }
  }

  /** Dropping or keeping one transaction's reservations cannot create a clash. */
  lemma NoClashStays(s: State, s': State, r: nat)
    requires NoClash(s) && s'.db == s.db && r < |s.reqs| == |s'.reqs|
    requires forall i :: 0 <= i < |s.reqs| && i != r ==> s'.reqs[i] == s.reqs[i]
    requires s'.reqs[r].tx == NO_TX || s'.reqs[r].tx == s.reqs[r].tx
    requires !s.reqs[r].pc.Done?
    ensures NoClash(s')
  {}

  lemma PoolStays(s: State, s': State, r: nat)
    requires PoolOk(s) && r < |s.reqs| == |s'.reqs| && s'.reqs == s.reqs[r := s'.reqs[r]]
    requires Holding(s'.reqs[r].pc) ==> Holding(s.reqs[r].pc) || !PoolFull(s)
    ensures PoolOk(s')
  {
    HeldUpdate(s.reqs, r, s'.reqs[r]);
  }

  lemma CatalogStays(cfg: Config, s: State, s': State)
    requires CatalogStored(cfg, s) && FilesGrow(s.files, s'.files) && Replay(s'.log) == Replay(s.log)
    ensures CatalogStored(cfg, s')
  {
    var c := Replay(s.log);
    forall n, v | n in c && v in c[n].versions ensures Stored(cfg, s'.files, c[n].versions[v]) {
      StoredStays(cfg, s.files, s'.files, c[n].versions[v]);
    }
  }
}
