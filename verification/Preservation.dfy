/** Each kind of step keeps the invariant; so does every run. */
module Preservation {
  import opened Wrappers
  import opened Storage
  import opened Names
  import opened Registry
  import opened Tables
  import opened Protocol
  import opened Invariants
  import B = BlobFile

  /** A step that moves one request and touches nothing shared. */
  lemma LocalStep(cfg: Config, s: State, r: nat, q': Request)
    requires Inv(cfg, s) && r < |s.reqs| && !s.reqs[r].pc.Done?
    requires q'.call == s.reqs[r].call && q'.lin == s.reqs[r].lin
    requires q'.tx == NO_TX || q'.tx == s.reqs[r].tx
    requires RequestOk(cfg, s, r, q')
    requires Holding(q'.pc) ==> Holding(s.reqs[r].pc) || !PoolFull(s)
    requires StoreReached(s.reqs[r].pc) ==> StoreReached(q'.pc)
    ensures Inv(cfg, Set(s, r, q'))
  {
    hide RequestsOk, NoClash, HistoryOk, Holds, FilesOk, CatalogStored, PoolOk;
    var s' := Set(s, r, q');
    FactsStay(cfg, s, s', r, q');
    OthersStay(cfg, s, s', r);
    NoClashStays(s, s', r);
    HistoryStays(cfg, s, s', r);
    FilesStay(cfg, s, s', r);
    CatalogStays(cfg, s, s');
    PoolStays(s, s', r);
  }

  /** A program point that request `r` may reach by deciding now, given what the registry replies now. */
  ghost predicate Decided(cfg: Config, s: State, call: Call, pc: Pc, reply: Reply) {
    if pc.Done? then Matches(cfg, call, pc.answer, reply)
    else
      && call.Download? && Fault(cfg, call).None? && pc.ReadBlob? && reply.Fetched?
      && pc.sha256 == Sha256Hex(cfg.sha, reply.content) && Stored(cfg, s.files, reply.content)
  }

  lemma DecidedRequest(cfg: Config, s: State, r: nat, pc: Pc)
    requires RequestsOk(cfg, s) && r < |s.reqs| && s.reqs[r].lin.None? && Fault(cfg, s.reqs[r].call).None?
    requires Decided(cfg, s, s.reqs[r].call, pc, Apply(Replay(s.log), Asked(cfg, s.reqs[r].call)).1)
    ensures RequestsOk(cfg, Decide(cfg, s, r, pc))
  {
    var s' := Decide(cfg, s, r, pc);
    ReplayExtend(s.log, Entry(r, Asked(cfg, s.reqs[r].call)));
    assert RequestOk(cfg, s', r, s'.reqs[r]);
    OthersStay(cfg, s, s', r);
  }

  /** A step that decides request `r` without changing any table. */
  lemma DecideStep(cfg: Config, s: State, r: nat, pc: Pc)
    requires Inv(cfg, s) && r < |s.reqs| && Holding(s.reqs[r].pc) && s.reqs[r].lin.None?
    requires Fault(cfg, s.reqs[r].call).None?
    requires Apply(Replay(s.log), Asked(cfg, s.reqs[r].call)).0 == Replay(s.log)
    requires Decided(cfg, s, s.reqs[r].call, pc, Apply(Replay(s.log), Asked(cfg, s.reqs[r].call)).1)
    requires !StoreReached(s.reqs[r].pc) || pc.Done?
    ensures Inv(cfg, Decide(cfg, s, r, pc))
  {
    hide RequestsOk, NoClash, HistoryOk, Holds, FilesOk, CatalogStored, PoolOk;
    var s' := Decide(cfg, s, r, pc);
    ReplayExtend(s.log, Entry(r, Asked(cfg, s.reqs[r].call)));
    DecidedRequest(cfg, s, r, pc);
    NoClashStays(s, s', r);
    HistoryExtended(cfg, s, s', r);
    FilesStay(cfg, s, s', r);
    CatalogStays(cfg, s, s');
    PoolStays(s, s', r);
  }

  lemma FailStep(cfg: Config, s: State, r: nat)
    requires Inv(cfg, s) && r < |s.reqs| && !s.reqs[r].pc.Done?
    ensures Inv(cfg, Finish(s, r, Rejected(Internal)))
  {
    hide RequestsOk, NoClash, HistoryOk, Holds, FilesOk, CatalogStored, PoolOk, RequestOk;
    FailedRequest(cfg, s, r);
    LocalStep(cfg, s, r, s.reqs[r].(pc := Done(Rejected(Internal)), tx := NO_TX));
  }

  lemma FailedRequest(cfg: Config, s: State, r: nat)
    requires RequestsOk(cfg, s) && r < |s.reqs| && !s.reqs[r].pc.Done?
    ensures RequestOk(cfg, s, r, s.reqs[r].(pc := Done(Rejected(Internal)), tx := NO_TX))
  {
    assert RequestOk(cfg, s, r, s.reqs[r]);
  }

  // ---- uploads ----

  function Reserving(q: Request, r: nat): Request
    requires q.call.Upload?
  {
    q.(pc := CheckVersion(r), tx := Tx(Some((q.call.name, PackageRow(r, q.call.user))), None))
  }

  lemma NoClashReservePackage(s: State, r: nat)
    requires NoClash(s) && r < |s.reqs| && !s.reqs[r].pc.Done? && s.reqs[r].call.Upload?
    requires s.reqs[r].call.name !in s.db.packages && !PackageReserved(s, r, s.reqs[r].call.name)
    ensures NoClash(Set(s, r, Reserving(s.reqs[r], r)))
  {
    var s' := Set(s, r, Reserving(s.reqs[r], r));
    forall i | 0 <= i < |s.reqs| && i != r && s'.reqs[i].tx.package.Some?
      ensures s'.reqs[i].tx.package.value.0 != s.reqs[r].call.name
    {
      assert s'.reqs[i] == s.reqs[i];
    }
  }

  lemma ReservePackageRequest(cfg: Config, s: State, r: nat)
    requires RequestsOk(cfg, s) && r < |s.reqs| && s.reqs[r].pc.AddPackage? && s.reqs[r].call.Upload?
    ensures RequestsOk(cfg, Set(s, r, Reserving(s.reqs[r], r)))
  {
    var s' := Set(s, r, Reserving(s.reqs[r], r));
    assert RequestOk(cfg, s, r, s.reqs[r]);
    assert RequestOk(cfg, s', r, s'.reqs[r]);
    OthersStay(cfg, s, s', r);
  }

  lemma ReservePackage(cfg: Config, s: State, r: nat)
    requires Inv(cfg, s) && r < |s.reqs| && s.reqs[r].pc.AddPackage? && s.reqs[r].call.Upload?
    requires s.reqs[r].call.name !in s.db.packages && !PackageReserved(s, r, s.reqs[r].call.name)
    ensures Inv(cfg, Set(s, r, Reserving(s.reqs[r], r)))
  {
    hide RequestsOk, NoClash, HistoryOk, Holds, FilesOk, CatalogStored, PoolOk;
    var s' := Set(s, r, Reserving(s.reqs[r], r));
    ReservePackageRequest(cfg, s, r);
    NoClashReservePackage(s, r);
    HistoryStays(cfg, s, s', r);
    FilesStay(cfg, s, s', r);
    CatalogStays(cfg, s, s');
    PoolStays(s, s', r);
  }

  function Publishing(cfg: Config, q: Request): Request
    requires q.call.Upload? && q.pc.AddVersion?
  {
    var row := RowFor(cfg, q.call.user, Content(cfg, q.call), q.begun);
    q.(pc := Commit(q.pc.id), tx := q.tx.(version := Some(((q.pc.id, q.call.version), row))))
  }

  lemma NoClashReserveVersion(cfg: Config, s: State, r: nat)
    requires NoClash(s) && r < |s.reqs| && s.reqs[r].call.Upload? && s.reqs[r].pc.AddVersion?
    requires var key := (s.reqs[r].pc.id, s.reqs[r].call.version); key !in s.db.versions && !VersionReserved(s, r, key)
    ensures NoClash(Set(s, r, Publishing(cfg, s.reqs[r])))
  {
    var s' := Set(s, r, Publishing(cfg, s.reqs[r]));
    var key := (s.reqs[r].pc.id, s.reqs[r].call.version);
    forall i | 0 <= i < |s.reqs| && i != r && s'.reqs[i].tx.version.Some? ensures s'.reqs[i].tx.version.value.0 != key {
      assert s'.reqs[i] == s.reqs[i];
    }
  }

  lemma ReserveVersionRequest(cfg: Config, s: State, r: nat)
    requires RequestsOk(cfg, s) && r < |s.reqs| && s.reqs[r].pc.AddVersion? && s.reqs[r].call.Upload?
    ensures RequestsOk(cfg, Set(s, r, Publishing(cfg, s.reqs[r])))
  {
    var s' := Set(s, r, Publishing(cfg, s.reqs[r]));
    assert RequestOk(cfg, s, r, s.reqs[r]);
    assert RequestOk(cfg, s', r, s'.reqs[r]);
    OthersStay(cfg, s, s', r);
  }

  lemma ReserveVersion(cfg: Config, s: State, r: nat)
    requires Inv(cfg, s) && r < |s.reqs| && s.reqs[r].pc.AddVersion? && s.reqs[r].call.Upload?
    requires var key := (s.reqs[r].pc.id, s.reqs[r].call.version); key !in s.db.versions && !VersionReserved(s, r, key)
    ensures Inv(cfg, Set(s, r, Publishing(cfg, s.reqs[r])))
  {
    hide RequestsOk, NoClash, HistoryOk, Holds, FilesOk, CatalogStored, PoolOk;
    var s' := Set(s, r, Publishing(cfg, s.reqs[r]));
    ReserveVersionRequest(cfg, s, r);
    NoClashReserveVersion(cfg, s, r);
    HistoryStays(cfg, s, s', r);
    FilesStay(cfg, s, s', r);
    CatalogStays(cfg, s, s');
    PoolStays(s, s', r);
  }

  function Registered(cfg: Config, s: State, r: nat): State
    requires r < |s.reqs| && s.reqs[r].pc.CheckVersion?
  {
    var file := UploadFile(cfg, s.reqs[r].call);
    var f := if file in s.files then s.files[file] else B.ABSENT;
    Goto(s, r, Store(s.reqs[r].pc.id)).(files := s.files[file := B.Register(f, r, Content(cfg, s.reqs[r].call))])
  }

  lemma FilesRegister(cfg: Config, s: State, r: nat)
    requires FilesOk(cfg, s) && r < |s.reqs| && s.reqs[r].pc.CheckVersion? && s.reqs[r].call.Upload?
    ensures FilesOk(cfg, Registered(cfg, s, r)) && FilesGrow(s.files, Registered(cfg, s, r).files)
    ensures Writes(cfg, Registered(cfg, s, r).files, r, s.reqs[r].call)
  {
    var s' := Registered(cfg, s, r);
    var file := UploadFile(cfg, s.reqs[r].call);
    forall p, w | p in s.files && w in s.files[p].writers ensures w != r {
      assert WriterOk(cfg, s, p, w);
    }
    forall p, w | p in s'.files && w in s'.files[p].writers ensures WriterOk(cfg, s', p, w) {
      if p != file || w != r { assert WriterOk(cfg, s, p, w); }
    }
  }

  lemma RegisterRequest(cfg: Config, s: State, r: nat)
    requires RequestsOk(cfg, s) && FilesOk(cfg, s) && r < |s.reqs| && s.reqs[r].pc.CheckVersion? && s.reqs[r].call.Upload?
    ensures RequestsOk(cfg, Registered(cfg, s, r))
  {
    var s' := Registered(cfg, s, r);
    FilesRegister(cfg, s, r);
    assert RequestOk(cfg, s, r, s.reqs[r]);
    assert RequestOk(cfg, s', r, s'.reqs[r]);
    OthersStay(cfg, s, s', r);
  }

  lemma RegisterWriter(cfg: Config, s: State, r: nat)
    requires Inv(cfg, s) && r < |s.reqs| && s.reqs[r].pc.CheckVersion? && s.reqs[r].call.Upload?
    ensures Inv(cfg, Registered(cfg, s, r))
  {
    hide RequestsOk, NoClash, HistoryOk, Holds, FilesOk, CatalogStored, PoolOk;
    var s' := Registered(cfg, s, r);
    FilesRegister(cfg, s, r);
    RegisterRequest(cfg, s, r);
    NoClashStays(s, s', r);
    HistoryStays(cfg, s, s', r);
    CatalogStays(cfg, s, s');
    PoolStays(s, s', r);
  }

  /** COMMIT, whether or not its answer arrives. */
  function CommittedState(cfg: Config, s: State, r: nat, a: Answer): State
    requires r < |s.reqs|
  {
    Decide(cfg, s, r, Done(a)).(db := Committed(s.db, s.reqs[r].tx))
  }

  /** At COMMIT the tables and the sequential registry publish together. */
  lemma CommittedHolds(cfg: Config, s: State, r: nat)
    requires RequestsOk(cfg, s) && NoClash(s) && Holds(cfg, Replay(s.log), s.db)
    requires r < |s.reqs| && s.reqs[r].pc.Commit? && s.reqs[r].call.Upload?
    ensures var op := Asked(cfg, s.reqs[r].call);
            && Apply(Replay(s.log), op).1 == Published
            && Holds(cfg, Apply(Replay(s.log), op).0, Committed(s.db, s.reqs[r].tx))
  {
    var q := s.reqs[r];
    assert RequestOk(cfg, s, r, q);
    FaultIsUndecided(cfg, q.call);
    if q.tx.package.None? {
      PublishExisting(cfg, Replay(s.log), s.db, Asked(cfg, q.call), q.begun);
    } else {
      PublishNew(cfg, Replay(s.log), s.db, Asked(cfg, q.call), q.begun, r);
    }
  }

  lemma CommitRequest(cfg: Config, s: State, r: nat, a: Answer)
    requires RequestsOk(cfg, s) && NoClash(s) && Holds(cfg, Replay(s.log), s.db)
    requires r < |s.reqs| && s.reqs[r].pc.Commit? && s.reqs[r].call.Upload?
    requires Matches(cfg, s.reqs[r].call, a, Published)
    ensures RequestsOk(cfg, CommittedState(cfg, s, r, a))
  {
    var s' := CommittedState(cfg, s, r, a);
    assert RequestOk(cfg, s, r, s.reqs[r]);
    CommittedHolds(cfg, s, r);
    ReplayExtend(s.log, Entry(r, Asked(cfg, s.reqs[r].call)));
    CommitGrows(s, r);
    assert RequestOk(cfg, s', r, s'.reqs[r]);
    OthersStay(cfg, s, s', r);
  }

  lemma CommitGrows(s: State, r: nat)
    requires NoClash(s) && r < |s.reqs|
    ensures forall n :: n in s.db.packages ==>
              n in Committed(s.db, s.reqs[r].tx).packages && Committed(s.db, s.reqs[r].tx).packages[n] == s.db.packages[n]
  {}

  lemma CommitKeepsReservations(cfg: Config, s: State, r: nat, a: Answer)
    requires NoClash(s) && r < |s.reqs| && s.reqs[r].pc.Commit?
    requires s.reqs[r].tx.package.Some? ==> s.reqs[r].tx.package.value.1.id == r
    ensures NoClash(CommittedState(cfg, s, r, a))
  {
    var s' := CommittedState(cfg, s, r, a);
    var tx := s.reqs[r].tx;
    assert forall i :: 0 <= i < |s.reqs| && i != r ==> s'.reqs[i] == s.reqs[i];
    forall n | n in s'.db.packages ensures s'.db.packages[n].id < |s'.reqs| && s'.reqs[s'.db.packages[n].id].pc.Done? {
      if tx.package.None? || n != tx.package.value.0 {
        assert s'.db.packages[n] == s.db.packages[n];
      }
    }
  }

  lemma PublishedIsStored(cfg: Config, s: State, s': State, call: Call)
    requires CatalogStored(cfg, s) && call.Upload? && Stored(cfg, s.files, Content(cfg, call)) && s'.files == s.files
    requires Replay(s'.log) == Apply(Replay(s.log), Asked(cfg, call)).0
    ensures CatalogStored(cfg, s')
  {
    var c, c' := Replay(s.log), Replay(s'.log);
    forall n, v | n in c' && v in c'[n].versions ensures Stored(cfg, s.files, c'[n].versions[v]) {
      if n in c && v in c[n].versions { assert Stored(cfg, s.files, c[n].versions[v]); }
    }
  }

  lemma CommitCatalog(cfg: Config, s: State, r: nat, a: Answer)
    requires RequestsOk(cfg, s) && NoClash(s) && Holds(cfg, Replay(s.log), s.db) && CatalogStored(cfg, s)
    requires r < |s.reqs| && s.reqs[r].pc.Commit? && s.reqs[r].call.Upload?
    ensures var s' := CommittedState(cfg, s, r, a); Holds(cfg, Replay(s'.log), s'.db) && CatalogStored(cfg, s')
    ensures s.reqs[r].lin.None?
    ensures s.reqs[r].tx.package.Some? ==> s.reqs[r].tx.package.value.1.id == r
  {
    CommittedHolds(cfg, s, r);
    ReplayExtend(s.log, Entry(r, Asked(cfg, s.reqs[r].call)));
    assert RequestOk(cfg, s, r, s.reqs[r]);
    PublishedIsStored(cfg, s, CommittedState(cfg, s, r, a), s.reqs[r].call);
  }

  lemma CommitStep(cfg: Config, s: State, r: nat, a: Answer)
    requires Inv(cfg, s) && r < |s.reqs| && s.reqs[r].pc.Commit? && s.reqs[r].call.Upload?
    requires Matches(cfg, s.reqs[r].call, a, Published)
    ensures Inv(cfg, CommittedState(cfg, s, r, a))
  {
    hide RequestsOk, NoClash, HistoryOk, Holds, FilesOk, CatalogStored, PoolOk;
    var s' := CommittedState(cfg, s, r, a);
    CommitRequest(cfg, s, r, a);
    CommitCatalog(cfg, s, r, a);
    CommitKeepsReservations(cfg, s, r, a);
    HistoryExtended(cfg, s, s', r);
    FilesStay(cfg, s, s', r);
    PoolStays(s, s', r);
  }

  lemma UploadKeeps(cfg: Config, s: State, r: nat, lost: bool)
    requires Inv(cfg, s) && r < |s.reqs| && s.reqs[r].call.Upload? && Uploading(s.reqs[r].pc)
    requires UploadStep(cfg, s, r, lost).Some?
    ensures Inv(cfg, UploadStep(cfg, s, r, lost).value)
  {
    hide RequestsOk, NoClash, HistoryOk, Holds, FilesOk, CatalogStored, PoolOk;
    var q := s.reqs[r];
    match q.pc
    case FindPackage => FindPackageKeeps(cfg, s, r);
    case AddPackage =>
      if q.call.name in s.db.packages {
        FailStep(cfg, s, r);
      } else {
        ReservePackage(cfg, s, r);
      }
    case CheckVersion(_) => CheckVersionKeeps(cfg, s, r);
    case Store(_) => StoreKeeps(cfg, s, r);
    case AddVersion(id) =>
      if (id, q.call.version) in s.db.versions {
        FailStep(cfg, s, r);
      } else {
        ReserveVersion(cfg, s, r);
      }
    case Commit(_) =>
      CommitStep(cfg, s, r, if lost then Rejected(Internal) else Uploaded(Sha256Hex(cfg.sha, Content(cfg, q.call)), |Content(cfg, q.call)|));
  }

  lemma FindPackageKeeps(cfg: Config, s: State, r: nat)
    requires Inv(cfg, s) && r < |s.reqs| && s.reqs[r].call.Upload? && s.reqs[r].pc.FindPackage?
    ensures Inv(cfg, UploadStep(cfg, s, r, false).value)
  {
    hide NoClash, HistoryOk, FilesOk, CatalogStored, PoolOk;
    var q := s.reqs[r];
    assert RequestOk(cfg, s, r, q);
    if q.call.name !in s.db.packages {
      LocalStep(cfg, s, r, q.(pc := AddPackage));
    } else if s.db.packages[q.call.name].owner != q.call.user {
      LookupAgrees(cfg, Replay(s.log), s.db, q.call.name, q.call.version);
      DecideStep(cfg, s, r, Done(Rejected(Forbidden)));
    } else {
      LocalStep(cfg, s, r, q.(pc := CheckVersion(s.db.packages[q.call.name].id)));
    }
  }

  lemma CheckVersionKeeps(cfg: Config, s: State, r: nat)
    requires Inv(cfg, s) && r < |s.reqs| && s.reqs[r].call.Upload? && s.reqs[r].pc.CheckVersion?
    ensures Inv(cfg, UploadStep(cfg, s, r, false).value)
  {
    hide RequestsOk, NoClash, HistoryOk, Holds, FilesOk, CatalogStored, PoolOk;
    var q := s.reqs[r];
    if (q.pc.id, q.call.version) in s.db.versions {
      DuplicateVersion(cfg, s, r);
      DecideStep(cfg, s, r, Done(Rejected(Conflict)));
    } else {
      RegisterWriter(cfg, s, r);
    }
  }

  /** A version that is already there was published under the caller's own committed package. */
  lemma DuplicateVersion(cfg: Config, s: State, r: nat)
    requires RequestsOk(cfg, s) && NoClash(s) && Holds(cfg, Replay(s.log), s.db)
    requires r < |s.reqs| && s.reqs[r].call.Upload? && s.reqs[r].pc.CheckVersion?
    requires (s.reqs[r].pc.id, s.reqs[r].call.version) in s.db.versions
    ensures Apply(Replay(s.log), Asked(cfg, s.reqs[r].call)) == (Replay(s.log), Duplicate)
    ensures s.reqs[r].lin.None? && Fault(cfg, s.reqs[r].call).None?
  {
    var q := s.reqs[r];
    assert RequestOk(cfg, s, r, q);
    var key := (q.pc.id, q.call.version);
    assert HasPackage(s.db, key.0);
    LookupAgrees(cfg, Replay(s.log), s.db, q.call.name, q.call.version);
  }

  lemma StoreKeeps(cfg: Config, s: State, r: nat)
    requires Inv(cfg, s) && r < |s.reqs| && s.reqs[r].call.Upload? && s.reqs[r].pc.Store?
    requires UploadStep(cfg, s, r, false).Some?
    ensures Inv(cfg, UploadStep(cfg, s, r, false).value)
  {
    hide RequestsOk, NoClash, HistoryOk, Holds, FilesOk, CatalogStored, PoolOk, RequestOk;
    StoredRequest(cfg, s, r);
    LocalStep(cfg, s, r, s.reqs[r].(pc := AddVersion(s.reqs[r].pc.id)));
  }

  lemma StoredRequest(cfg: Config, s: State, r: nat)
    requires RequestsOk(cfg, s) && FilesOk(cfg, s) && r < |s.reqs| && s.reqs[r].call.Upload? && s.reqs[r].pc.Store?
    requires UploadStep(cfg, s, r, false).Some?
    ensures RequestOk(cfg, s, r, s.reqs[r].(pc := AddVersion(s.reqs[r].pc.id)))
  {
    assert RequestOk(cfg, s, r, s.reqs[r]);
    assert WriterOk(cfg, s, UploadFile(cfg, s.reqs[r].call), r);
  }

  // ---- deletes and reads ----

  function RemovedState(cfg: Config, s: State, r: nat, a: Answer): State
    requires r < |s.reqs| && s.reqs[r].pc.RemoveVersion? && s.reqs[r].call.Delete?
  {
    Decide(cfg, s, r, Done(a)).(db := RemoveRow(s.db, (s.reqs[r].pc.id, s.reqs[r].call.version)))
  }

  lemma RemoveRequest(cfg: Config, s: State, r: nat, a: Answer)
    requires RequestsOk(cfg, s) && Holds(cfg, Replay(s.log), s.db)
    requires r < |s.reqs| && s.reqs[r].pc.RemoveVersion? && s.reqs[r].call.Delete?
    requires var key := (s.reqs[r].pc.id, s.reqs[r].call.version);
             Matches(cfg, s.reqs[r].call, a, if key in s.db.versions then Unpublished else Missing)
    ensures var s' := RemovedState(cfg, s, r, a); RequestsOk(cfg, s') && Holds(cfg, Replay(s'.log), s'.db)
    ensures s.reqs[r].lin.None?
  {
    hide Holds;
    var s' := RemovedState(cfg, s, r, a);
    assert RequestOk(cfg, s, r, s.reqs[r]);
    UnpublishBoth(cfg, Replay(s.log), s.db, Asked(cfg, s.reqs[r].call));
    ReplayExtend(s.log, Entry(r, Asked(cfg, s.reqs[r].call)));
    assert RequestOk(cfg, s', r, s'.reqs[r]);
    OthersStay(cfg, s, s', r);
  }

  lemma UnpublishKeepsStored(cfg: Config, s: State, s': State, op: Op)
    requires CatalogStored(cfg, s) && op.Unpublish? && s'.files == s.files
    requires Replay(s'.log) == Apply(Replay(s.log), op).0
    ensures CatalogStored(cfg, s')
  {
    var c, c' := Replay(s.log), Replay(s'.log);
    forall n, v | n in c' && v in c'[n].versions ensures Stored(cfg, s.files, c'[n].versions[v]) {
      assert n in c && v in c[n].versions && c'[n].versions[v] == c[n].versions[v];
    }
  }

  lemma NoClashDelete(s: State, s': State, r: nat)
    requires NoClash(s) && r < |s.reqs| == |s'.reqs| && !s.reqs[r].pc.Done?
    requires s'.db.packages == s.db.packages && s'.db.versions.Keys <= s.db.versions.Keys
    requires forall i :: 0 <= i < |s.reqs| && i != r ==> s'.reqs[i] == s.reqs[i]
    requires s'.reqs[r].tx == NO_TX
    ensures NoClash(s')
  {}

  lemma RemoveStep(cfg: Config, s: State, r: nat, a: Answer)
    requires Inv(cfg, s) && r < |s.reqs| && s.reqs[r].pc.RemoveVersion? && s.reqs[r].call.Delete?
    requires var key := (s.reqs[r].pc.id, s.reqs[r].call.version);
             Matches(cfg, s.reqs[r].call, a, if key in s.db.versions then Unpublished else Missing)
    ensures Inv(cfg, RemovedState(cfg, s, r, a))
  {
    hide RequestsOk, NoClash, HistoryOk, Holds, FilesOk, CatalogStored, PoolOk, Matches;
    var s' := RemovedState(cfg, s, r, a);
    RemoveRequest(cfg, s, r, a);
    NoClashDelete(s, s', r);
    HistoryExtended(cfg, s, s', r);
    FilesStay(cfg, s, s', r);
    ReplayExtend(s.log, Entry(r, Asked(cfg, s.reqs[r].call)));
    UnpublishKeepsStored(cfg, s, s', Asked(cfg, s.reqs[r].call));
    PoolStays(s, s', r);
  }

  lemma FindOwnedKeeps(cfg: Config, s: State, r: nat)
    requires Inv(cfg, s) && r < |s.reqs| && s.reqs[r].call.Delete? && s.reqs[r].pc.FindOwned?
    ensures Inv(cfg, DeleteStep(cfg, s, r, false).value)
  {
    hide NoClash, HistoryOk, FilesOk, CatalogStored, PoolOk;
    var q := s.reqs[r];
    assert RequestOk(cfg, s, r, q);
    if q.call.name !in s.db.packages {
      DecideStep(cfg, s, r, Done(Rejected(NotFound)));
    } else if s.db.packages[q.call.name].owner != q.call.user {
      LookupAgrees(cfg, Replay(s.log), s.db, q.call.name, q.call.version);
      DecideStep(cfg, s, r, Done(Rejected(Forbidden)));
    } else {
      LocalStep(cfg, s, r, q.(pc := RemoveVersion(s.db.packages[q.call.name].id)));
    }
  }

  lemma DeleteKeeps(cfg: Config, s: State, r: nat, lost: bool)
    requires Inv(cfg, s) && r < |s.reqs| && s.reqs[r].call.Delete? && !s.reqs[r].pc.Done?
    requires DeleteStep(cfg, s, r, lost).Some?
    ensures Inv(cfg, DeleteStep(cfg, s, r, lost).value)
  {
    hide RequestsOk, NoClash, HistoryOk, Holds, FilesOk, CatalogStored, PoolOk;
    if s.reqs[r].pc.FindOwned? {
      FindOwnedKeeps(cfg, s, r);
    } else {
      var key := (s.reqs[r].pc.id, s.reqs[r].call.version);
      RemoveStep(cfg, s, r, if lost then Rejected(Internal) else if key in s.db.versions then Deleted else Rejected(NotFound));
    }
  }

  /** The lookup of a download finds the hash of the very bytes the registry holds. */
  lemma FoundBlob(cfg: Config, s: State, call: Call)
    requires Holds(cfg, Replay(s.log), s.db) && CatalogStored(cfg, s) && call.Download? && Fault(cfg, call).None?
    ensures var reply := Apply(Replay(s.log), Asked(cfg, call)).1;
            if call.name in s.db.packages && (s.db.packages[call.name].id, call.version) in s.db.versions
            then Decided(cfg, s, call, ReadBlob(s.db.versions[(s.db.packages[call.name].id, call.version)].sha256, []), reply)
            else reply == Missing
  {
    var c := Replay(s.log);
    if call.name in s.db.packages {
      LookupAgrees(cfg, c, s.db, call.name, call.version);
    }
  }

  lemma FindBlobKeeps(cfg: Config, s: State, r: nat)
    requires Inv(cfg, s) && r < |s.reqs| && s.reqs[r].call.Download? && s.reqs[r].pc.FindBlob?
    ensures Inv(cfg, DownloadStep(cfg, s, r, 0).value)
  {
    hide NoClash, HistoryOk, FilesOk, CatalogStored, PoolOk, Holds, Decided;
    var q := s.reqs[r];
    assert RequestOk(cfg, s, r, q);
    FoundBlob(cfg, s, q.call);
    if q.call.name in s.db.packages && (s.db.packages[q.call.name].id, q.call.version) in s.db.versions {
      var pc := ReadBlob(s.db.versions[(s.db.packages[q.call.name].id, q.call.version)].sha256, []);
      DecideStep(cfg, s, r, pc);
    } else {
      assert Decided(cfg, s, q.call, Done(Rejected(NotFound)), Missing) by { MissingDecided(cfg, s, q.call); }
      DecideStep(cfg, s, r, Done(Rejected(NotFound)));
    }
  }

  lemma MissingDecided(cfg: Config, s: State, call: Call)
    ensures Decided(cfg, s, call, Done(Rejected(NotFound)), Missing)
  {}

  /** The file of a version that was found is there: the second NotFound of a download never happens. */
  lemma BlobIsThere(cfg: Config, s: State, r: nat, pc: Pc)
    requires RequestsOk(cfg, s) && r < |s.reqs| && s.reqs[r].pc.ReadBlob?
    requires (pc.Done? && pc.answer.Body?) || (pc.ReadBlob? && pc.sha256 == s.reqs[r].pc.sha256)
    ensures RequestOk(cfg, s, r, s.reqs[r].(pc := pc, tx := NO_TX)) && s.reqs[r].tx == NO_TX
    ensures var file := PathFor(cfg.root, s.reqs[r].pc.sha256); file in s.files && s.files[file].bytes.Some?
  {
    assert RequestOk(cfg, s, r, s.reqs[r]);
  }

  lemma ReadBlobKeeps(cfg: Config, s: State, r: nat, n: nat)
    requires Inv(cfg, s) && r < |s.reqs| && s.reqs[r].call.Download? && s.reqs[r].pc.ReadBlob?
    ensures DownloadStep(cfg, s, r, n).Some? && Inv(cfg, DownloadStep(cfg, s, r, n).value)
  {
    hide RequestsOk, NoClash, HistoryOk, Holds, FilesOk, CatalogStored, PoolOk, RequestOk;
    BlobIsThere(cfg, s, r, s.reqs[r].pc);
    var pc := DownloadStep(cfg, s, r, n).value.reqs[r].pc;
    BlobIsThere(cfg, s, r, pc);
    LocalStep(cfg, s, r, s.reqs[r].(pc := pc, tx := NO_TX));
  }

  /** One statement reads the catalog as it is: a single package, or all of them. */
  lemma SnapshotMatches(cfg: Config, s: State, call: Call)
    requires Holds(cfg, Replay(s.log), s.db)
    ensures var listing := map n | n in s.db.packages :: (s.db.packages[n].owner, VersionsOf(s.db, s.db.packages[n].id));
            Matches(cfg, call, Listing(listing), Listed(Replay(s.log)))
    ensures call.Get? && call.name in s.db.packages ==>
              var row := s.db.packages[call.name];
              && call.name in Replay(s.log)
              && Matches(cfg, call, Details(row.owner, VersionsOf(s.db, row.id)), Shown(Replay(s.log)[call.name]))
  {
    var c := Replay(s.log);
    forall n | n in c ensures RowsHold(cfg, c[n], s.db.packages[n].owner, VersionsOf(s.db, s.db.packages[n].id)) {
      SelectedRowsHold(cfg, c, s.db, n);
    }
  }

  lemma ReadDecides(cfg: Config, s: State, r: nat)
    requires RequestsOk(cfg, s) && Holds(cfg, Replay(s.log), s.db) && r < |s.reqs|
    requires s.reqs[r].pc.FindVersions? || s.reqs[r].pc.Summarize?
    ensures s.reqs[r].lin.None? && Fault(cfg, s.reqs[r].call).None? && (s.reqs[r].call.Get? || s.reqs[r].call.List?)
    ensures var pc := ReadStep(cfg, s, r).value.reqs[r].pc;
            && ReadStep(cfg, s, r) == Some(Decide(cfg, s, r, pc)) && pc.Done?
            && Decided(cfg, s, s.reqs[r].call, pc, Apply(Replay(s.log), Asked(cfg, s.reqs[r].call)).1)
    ensures Apply(Replay(s.log), Asked(cfg, s.reqs[r].call)).0 == Replay(s.log)
  {
    hide Holds, Matches;
    assert RequestOk(cfg, s, r, s.reqs[r]);
    SnapshotMatches(cfg, s, s.reqs[r].call);
  }

  lemma ReadKeeps(cfg: Config, s: State, r: nat)
    requires Inv(cfg, s) && r < |s.reqs| && (s.reqs[r].call.Get? || s.reqs[r].call.List?) && !s.reqs[r].pc.Done?
    requires ReadStep(cfg, s, r).Some?
    ensures Inv(cfg, ReadStep(cfg, s, r).value)
  {
    hide RequestsOk, NoClash, HistoryOk, Holds, FilesOk, CatalogStored, PoolOk, Decided;
    if s.reqs[r].pc.FindShown? {
      FindShownKeeps(cfg, s, r);
    } else {
      ReadDecides(cfg, s, r);
      DecideStep(cfg, s, r, ReadStep(cfg, s, r).value.reqs[r].pc);
    }
  }

  lemma FindShownKeeps(cfg: Config, s: State, r: nat)
    requires Inv(cfg, s) && r < |s.reqs| && s.reqs[r].pc.FindShown?
    ensures s.reqs[r].call.Get? && ReadStep(cfg, s, r).Some?
    ensures Inv(cfg, ReadStep(cfg, s, r).value)
  {
    hide NoClash, HistoryOk, FilesOk, CatalogStored, PoolOk;
    var q := s.reqs[r];
    assert RequestOk(cfg, s, r, q);
    if q.call.name in s.db.packages {
      LocalStep(cfg, s, r, q.(pc := FindVersions(s.db.packages[q.call.name].id, s.db.packages[q.call.name].owner)));
    } else {
      DecideStep(cfg, s, r, Done(Rejected(NotFound)));
    }
  }

  // ---- all steps ----

  lemma BeforeHandlerKeeps(cfg: Config, s: State, r: nat, n: nat)
    requires Inv(cfg, s) && r < |s.reqs| && StepOf(cfg, s, r, Proceed(n)).Some?
    requires var pc := s.reqs[r].pc; pc.Authenticate? || pc.Resolving? || pc.Validate? || pc.Connect?
    ensures Inv(cfg, StepOf(cfg, s, r, Proceed(n)).value)
  {
    hide NoClash, HistoryOk, Holds, FilesOk, CatalogStored, PoolOk, Fault, Owns, PoolFull;
    var q := s.reqs[r];
    assert RequestOk(cfg, s, r, q);
    FaultIsUndecided(cfg, q.call);
    match q.pc
    case Authenticate => LocalStep(cfg, s, r, q.(pc := Resolving));
    case Resolving => LocalStep(cfg, s, r, if n == 0 then q.(pc := Done(Unauthorized), tx := NO_TX) else q.(pc := Validate));
    case Validate =>
      LocalStep(cfg, s, r, if Fault(cfg, q.call).Some? then q.(pc := Done(Rejected(Fault(cfg, q.call).value)), tx := NO_TX)
                           else q.(pc := Connect));
    case Connect => LocalStep(cfg, s, r, q.(pc := FirstStatement(q.call), begun := n));
  }

  lemma StepKeeps(cfg: Config, s: State, r: nat, o: Outcome)
    requires Inv(cfg, s) && r < |s.reqs| && StepOf(cfg, s, r, o).Some?
    ensures Inv(cfg, StepOf(cfg, s, r, o).value)
  {
    hide NoClash, HistoryOk, Holds, FilesOk, CatalogStored, PoolOk, UploadStep, DeleteStep, DownloadStep, ReadStep, Facts;
    var q := s.reqs[r];
    assert RequestOk(cfg, s, r, q);
    var n := if o.Proceed? then o.n else 0;
    if o.Fail? {
      FailStep(cfg, s, r);
    } else if q.pc.Authenticate? || q.pc.Resolving? || q.pc.Validate? || q.pc.Connect? {
      BeforeHandlerKeeps(cfg, s, r, n);
    } else if q.call.Upload? {
      UploadKeeps(cfg, s, r, o.LoseReply?);
    } else if q.call.Delete? {
      DeleteKeeps(cfg, s, r, o.LoseReply?);
    } else if q.call.Download? {
      DownloadKeeps(cfg, s, r, n);
    } else {
      ReadKeeps(cfg, s, r);
    }
  }

  lemma DownloadKeeps(cfg: Config, s: State, r: nat, n: nat)
    requires Inv(cfg, s) && r < |s.reqs| && s.reqs[r].call.Download? && !s.reqs[r].pc.Done?
    requires DownloadStep(cfg, s, r, n).Some?
    ensures Inv(cfg, DownloadStep(cfg, s, r, n).value)
  {
    if s.reqs[r].pc.FindBlob? {
      FindBlobKeeps(cfg, s, r);
    } else {
      ReadBlobKeeps(cfg, s, r, n);
    }
  }

  lemma RequestArrives(cfg: Config, s: State, s': State, q: Request)
    requires RequestsOk(cfg, s) && s' == s.(reqs := s.reqs + [q]) && RequestOk(cfg, s, |s.reqs|, q)
    ensures RequestsOk(cfg, s')
  {
    forall i | 0 <= i < |s'.reqs| ensures RequestOk(cfg, s', i, s'.reqs[i]) {
      if i < |s.reqs| {
        assert s'.reqs[i] == s.reqs[i];
        FactsStay(cfg, s, s', i, s.reqs[i]);
      } else {
        FactsStay(cfg, s, s', i, q);
      }
    }
  }

  lemma RestAtArrival(cfg: Config, s: State, s': State, q: Request)
    requires NoClash(s) && HistoryOk(cfg, s) && FilesOk(cfg, s)
    requires s' == s.(reqs := s.reqs + [q]) && q.tx == NO_TX && q.lin.None?
    ensures NoClash(s') && HistoryOk(cfg, s') && FilesOk(cfg, s')
  {
    assert forall i :: 0 <= i < |s.reqs| ==> s'.reqs[i] == s.reqs[i];
    forall file, w | file in s'.files && w in s'.files[file].writers ensures WriterOk(cfg, s', file, w) {
      assert WriterOk(cfg, s, file, w);
    }
  }

  lemma ArriveKeeps(cfg: Config, s: State, call: Call, viaKey: bool)
    requires Inv(cfg, s)
    ensures Inv(cfg, Next(cfg, s, Arrive(call, viaKey)).value)
  {
    hide RequestsOk, NoClash, HistoryOk, Holds, FilesOk, CatalogStored;
    var q := Arrival(call, viaKey);
    var s' := Next(cfg, s, Arrive(call, viaKey)).value;
    HeldAppend(s.reqs, q);
    RequestArrives(cfg, s, s', q);
    RestAtArrival(cfg, s, s', q);
    CatalogStays(cfg, s, s');
  }

  lemma FilesWrite(cfg: Config, s: State, w: nat, n: nat)
    requires FilesOk(cfg, s) && Next(cfg, s, Write(w, n)).Some?
    ensures FilesOk(cfg, Next(cfg, s, Write(w, n)).value)
    ensures FilesGrow(s.files, Next(cfg, s, Write(w, n)).value.files)
  {
    hide B.WriteAt, B.Clamp, UploadFile, Content;
    var s' := Next(cfg, s, Write(w, n)).value;
    var file := UploadFile(cfg, s.reqs[w].call);
    assert WriterOk(cfg, s, file, w);
    assert s' == s.(files := s.files[file := B.Advance(s.files[file], w, n).value]);
    forall p, v | p in s'.files && v in s'.files[p].writers ensures WriterOk(cfg, s', p, v) {
      assert v in s.files[p].writers;
      assert WriterOk(cfg, s, p, v);
    }
  }

  lemma WriteKeeps(cfg: Config, s: State, w: nat, n: nat)
    requires Inv(cfg, s) && Next(cfg, s, Write(w, n)).Some?
    ensures Inv(cfg, Next(cfg, s, Write(w, n)).value)
  {
    hide NoClash, HistoryOk, Holds, FilesOk, CatalogStored, PoolOk, RequestOk;
    var s' := Next(cfg, s, Write(w, n)).value;
    FilesWrite(cfg, s, w, n);
    forall i | 0 <= i < |s'.reqs| ensures RequestOk(cfg, s', i, s'.reqs[i]) {
      FactsStay(cfg, s, s', i, s.reqs[i]);
    }
    RestAtWrite(cfg, s, s');
    CatalogStays(cfg, s, s');
  }

  lemma RestAtWrite(cfg: Config, s: State, s': State)
    requires NoClash(s) && HistoryOk(cfg, s) && PoolOk(s)
    requires s' == s.(files := s'.files)
    ensures NoClash(s') && HistoryOk(cfg, s') && PoolOk(s')
  {}

  lemma NextKeeps(cfg: Config, s: State, l: Label)
    requires Inv(cfg, s) && Next(cfg, s, l).Some?
    ensures Inv(cfg, Next(cfg, s, l).value)
  {
    hide Inv;
    match l
    case Arrive(call, viaKey) => ArriveKeeps(cfg, s, call, viaKey);
    case Step(r, o) => StepKeeps(cfg, s, r, o);
    case Write(w, n) => WriteKeeps(cfg, s, w, n);
  }

  lemma {:induction false} RunKeeps(cfg: Config, s: State, labels: seq<Label>)
    requires Inv(cfg, s) && Run(cfg, s, labels).Some?
    ensures Inv(cfg, Run(cfg, s, labels).value)
    decreases |labels|
  {
    hide Inv;
    if labels == [] {
    } else {
      NextKeeps(cfg, s, labels[0]);
      RunKeeps(cfg, Next(cfg, s, labels[0]).value, labels[1..]);
    }
  }

  lemma InitialInv(cfg: Config)
    ensures Inv(cfg, INITIAL)
  {
    EmptyHolds(cfg);
  }

  /** The invariant holds after every interleaving of any number of requests. */
  lemma EveryRunKeepsInv(cfg: Config, labels: seq<Label>)
    requires Run(cfg, INITIAL, labels).Some?
    ensures Inv(cfg, Run(cfg, INITIAL, labels).value)
  {
    InitialInv(cfg);
    RunKeeps(cfg, INITIAL, labels);
  }
}
