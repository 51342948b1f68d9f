/**
 * The views over protocol runs. A version row carries the moment its transaction
 * began, while versions are published in the order of their commits; here the rows
 * of every reachable state are read off the history with both.
 */
module Timeline {
  import opened Wrappers
  import opened Names
  import opened Registry
  import opened Tables
  import opened Protocol
  import opened Invariants
  import opened Preservation
  import opened Refinement
  import Races
  import opened Views
  import B = BlobFile

  // ---- the events of one package ----

  /** What the last entry did to the rows of package `name`; `begun` is when its transaction began. */
  ghost function LastEvent(cfg: Config, h: History, begun: nat, name: string): seq<Event>
    requires h != []
  {
    var op, reply := h[|h| - 1].op, ReplyAt(h, |h| - 1);
    if op.Publish? && op.name == name && reply.Published? then [Inserted(op.version, RowFor(cfg, op.user, op.content, begun))]
    else if op.Unpublish? && op.name == name && reply.Unpublished? then [Removed(op.version)]
    else []
  }

  ghost function EventsOf(cfg: Config, h: History, stamps: seq<nat>, name: string): seq<Event>
    requires |stamps| == |h|
  {
    if h == [] then []
    else
      var n := |h| - 1;
      EventsOf(cfg, h[..n], stamps[..n], name) + LastEvent(cfg, h, stamps[n], name)
  }

  /** When the transaction of each entry of the history began. */
  function StampsOf(s: State): (stamps: seq<nat>)
    ensures |stamps| == |s.log|
  {
    seq(|s.log|, k requires 0 <= k < |s.log| => if s.log[k].request < |s.reqs| then s.reqs[s.log[k].request].begun else 0)
  }

  ghost function Events(cfg: Config, s: State, name: string): seq<Event> {
    EventsOf(cfg, s.log, StampsOf(s), name)
  }

  // ---- one step ----

  lemma BegunStays(cfg: Config, s: State, r: nat, o: Outcome, s': State)
    requires r < |s.reqs| && StepOf(cfg, s, r, o) == Some(s') && |s'.reqs| == |s.reqs|
    ensures s.reqs[r].pc.Connect? ==> s'.log == s.log
    ensures !s.reqs[r].pc.Connect? ==> s'.reqs[r].begun == s.reqs[r].begun
  {
    hide RowFor, Content, Fault, UploadFile, Committed, PackageReserved, VersionReserved, PoolFull;
  }

  lemma StampsStay(cfg: Config, s: State, r: nat, o: Outcome, s': State)
    requires r < |s.reqs| && StepOf(cfg, s, r, o) == Some(s')
    requires RequestsOk(cfg, s) && HistoryOk(cfg, s) && HistoryOk(cfg, s')
    ensures |s'.reqs| == |s.reqs| && s.log <= s'.log && StampsOf(s) <= StampsOf(s')
    ensures s'.log != s.log ==> s'.log == s.log + [Entry(r, Asked(cfg, s.reqs[r].call))]
                                && StampsOf(s') == StampsOf(s) + [s.reqs[r].begun]
    ensures s'.log == s.log ==> StampsOf(s') == StampsOf(s)
  {
    hide StepOf, RequestsOk, Facts;
    StepShape(cfg, s, r, o);
    BegunStays(cfg, s, r, o, s');
    Races.RequestInOrder(cfg, s, r);
    forall k | 0 <= k < |s.log| ensures StampsOf(s')[k] == StampsOf(s)[k] {
      assert s'.log[k] == s.log[k];
    }
  }

  /** A deciding step that is neither a COMMIT nor a DELETE turns an upload or delete down. */
  lemma OtherDecisions(cfg: Config, s: State, r: nat, o: Outcome, s': State)
    requires r < |s.reqs| && StepOf(cfg, s, r, o) == Some(s') && |s'.reqs| == |s.reqs| && s'.log != s.log
    requires s.reqs[r].call.Upload? || s.reqs[r].call.Delete?
    requires !s.reqs[r].pc.Commit? && !s.reqs[r].pc.RemoveVersion?
    ensures s'.reqs[r].pc in {Done(Rejected(Forbidden)), Done(Rejected(Conflict)), Done(Rejected(NotFound))}
  {
    hide RowFor, Content, Fault, UploadFile, PackageReserved, VersionReserved, PoolFull;
  }

  lemma TurnedDownIsNoEvent(cfg: Config, s: State, r: nat, o: Outcome, s': State, name: string)
    requires r < |s.reqs| && StepOf(cfg, s, r, o) == Some(s')
    requires |s'.reqs| == |s.reqs| && s'.log == s.log + [Entry(r, Asked(cfg, s.reqs[r].call))]
    requires s'.reqs[r].call == s.reqs[r].call && s'.reqs[r].lin == Some(|s.log|)
    requires !s.reqs[r].pc.Commit? && !s.reqs[r].pc.RemoveVersion?
    requires RequestsOk(cfg, s')
    ensures LastEvent(cfg, s'.log, s.reqs[r].begun, name) == []
  {
    hide StepOf;
    Races.RequestInOrder(cfg, s', r);
    if s.reqs[r].call.Upload? || s.reqs[r].call.Delete? { OtherDecisions(cfg, s, r, o, s'); }
  }

  /** What a COMMIT publishes, as an event. */
  lemma CommitEvent(cfg: Config, s: State, r: nat, name: string)
    requires RequestsOk(cfg, s) && NoClash(s) && Holds(cfg, Replay(s.log), s.db)
    requires r < |s.reqs| && s.reqs[r].pc.Commit? && s.reqs[r].call.Upload?
    ensures var q := s.reqs[r];
            LastEvent(cfg, s.log + [Entry(r, Asked(cfg, q.call))], q.begun, name)
            == if q.call.name == name then [Inserted(q.call.version, RowFor(cfg, q.call.user, Content(cfg, q.call), q.begun))] else []
  {
    hide RequestsOk, NoClash, Holds;
    CommittedHolds(cfg, s, r);
    ReplayExtend(s.log, Entry(r, Asked(cfg, s.reqs[r].call)));
  }

  /** What a DELETE removes, as an event. */
  lemma RemoveEvent(cfg: Config, s: State, r: nat, name: string)
    requires RequestsOk(cfg, s) && Holds(cfg, Replay(s.log), s.db)
    requires r < |s.reqs| && s.reqs[r].pc.RemoveVersion? && s.reqs[r].call.Delete?
    ensures var q := s.reqs[r];
            LastEvent(cfg, s.log + [Entry(r, Asked(cfg, q.call))], q.begun, name)
            == if q.call.name == name && (q.pc.id, q.call.version) in s.db.versions then [Removed(q.call.version)] else []
  {
    hide Holds;
    assert RequestOk(cfg, s, r, s.reqs[r]);
    UnpublishBoth(cfg, Replay(s.log), s.db, Asked(cfg, s.reqs[r].call));
    ReplayExtend(s.log, Entry(r, Asked(cfg, s.reqs[r].call)));
  }

  // ---- rows and events go together ----

  /** The rows of package `name` are what its events made of them. */
  ghost predicate Follows(db: Tables, h: seq<Event>, name: string) {
    && (name in db.packages ==> VersionsOf(db, db.packages[name].id) == RowsAfter(h))
    && (name !in db.packages ==> h == [])
    && FreshInserts(h)
  }

  lemma FreshExtends(h: seq<Event>, e: Event)
    requires FreshInserts(h) && (e.Inserted? ==> e.version !in RowsAfter(h))
    ensures FreshInserts(h + [e])
  {
    var g := h + [e];
    assert g[..|h|] == h;
    assert forall j :: 0 <= j < |h| ==> g[j] == h[j] && g[..j] == h[..j];
  }

  lemma InsertFollows(db: Tables, h: seq<Event>, name: string, key: VersionKey, row: VersionRow)
    requires Follows(db, h, name) && name in db.packages && IdsUnique(db)
    requires key !in db.versions
    ensures Follows(InsertVersion(db, key, row), if db.packages[name].id == key.0 then h + [Inserted(key.1, row)] else h, name)
  {
    hide VersionsOf, RowsAfter, FreshInserts;
    var id := db.packages[name].id;
    if id == key.0 {
      InsertIsEvent(db, id, key.1, row, id, h);
      SelectedKeys(db, id);
      FreshExtends(h, Inserted(key.1, row));
    } else {
      InsertSelected(db, key.0, key.1, row, id);
    }
  }

  lemma RemoveFollows(db: Tables, h: seq<Event>, name: string, key: VersionKey)
    requires Follows(db, h, name) && name in db.packages
    ensures Follows(RemoveRow(db, key), if db.packages[name].id == key.0 && key in db.versions then h + [Removed(key.1)] else h, name)
  {
    hide VersionsOf, RowsAfter, FreshInserts;
    var id := db.packages[name].id;
    if id == key.0 && key in db.versions {
      RemoveIsEvent(db, id, key.1, id, h);
      FreshExtends(h, Removed(key.1));
    } else if id == key.0 {
      assert RemoveRow(db, key).versions == db.versions;
    } else {
      RemoveSelected(db, key.0, key.1, id);
    }
  }

  /** A package that a commit creates has no rows of its own before. */
  lemma NewPackageFollows(db: Tables, h: seq<Event>, name: string, row: PackageRow)
    requires Follows(db, h, name) && name !in db.packages && forall v :: (row.id, v) !in db.versions
    ensures Follows(InsertPackage(db, name, row), h, name)
  {
    SelectedKeys(db, row.id);
    assert VersionsOf(InsertPackage(db, name, row), row.id) == VersionsOf(db, row.id);
    assert VersionsOf(db, row.id) == map[];
  }

  lemma OtherPackageFollows(db: Tables, h: seq<Event>, name: string, other: string, row: PackageRow)
    requires Follows(db, h, name) && name != other
    ensures Follows(InsertPackage(db, other, row), h, name)
  {
    if name in db.packages {
      assert VersionsOf(InsertPackage(db, other, row), db.packages[name].id) == VersionsOf(db, db.packages[name].id);
    }
  }

  /** The facts about a COMMIT that the tables and the invariants give. */
  lemma AboutToCommit(cfg: Config, s: State, r: nat)
    requires RequestsOk(cfg, s) && NoClash(s) && r < |s.reqs| && s.reqs[r].pc.Commit?
    ensures s.reqs[r].call.Upload? && Owns(s.db, r, s.reqs[r], s.reqs[r].pc.id)
    ensures var q := s.reqs[r];
            && q.tx.version == Some(((q.pc.id, q.call.version), RowFor(cfg, q.call.user, Content(cfg, q.call), q.begun)))
            && q.tx.version.value.0 !in s.db.versions
            && (q.tx.package.Some? ==> q.call.name !in s.db.packages)
    ensures forall n :: n in s.db.packages ==> s.db.packages[n].id != r
  {
    assert RequestOk(cfg, s, r, s.reqs[r]);
  }

  lemma CommitFollows(cfg: Config, s: State, r: nat, h: seq<Event>, name: string)
    requires RequestsOk(cfg, s) && NoClash(s) && Holds(cfg, Replay(s.log), s.db)
    requires r < |s.reqs| && s.reqs[r].pc.Commit? && s.reqs[r].call.Upload? && Follows(s.db, h, name)
    ensures var q := s.reqs[r];
            Follows(Committed(s.db, q.tx),
                    if q.call.name == name then h + [Inserted(q.call.version, RowFor(cfg, q.call.user, Content(cfg, q.call), q.begun))] else h,
                    name)
  {
    hide RequestsOk, NoClash, Follows, RowFor, Content, References;
    var q := s.reqs[r];
    AboutToCommit(cfg, s, r);
    var (key, row) := q.tx.version.value;
    var t1 := if q.tx.package.Some? then InsertPackage(s.db, q.call.name, PackageRow(r, q.call.user)) else s.db;
    if q.tx.package.Some? {
      OwnRowsAreNone(cfg, s, r);
      if q.call.name == name {
        NewPackageFollows(s.db, h, name, PackageRow(r, q.call.user));
      } else {
        OtherPackageFollows(s.db, h, name, q.call.name, PackageRow(r, q.call.user));
      }
    }
    if name in t1.packages {
      InsertFollows(t1, h, name, key, row);
    } else {
      AbsentFollows(t1, h, name, key, row);
    }
  }

  lemma AbsentFollows(db: Tables, h: seq<Event>, name: string, key: VersionKey, row: VersionRow)
    requires Follows(db, h, name) && name !in db.packages
    ensures Follows(InsertVersion(db, key, row), h, name)
  {}

  lemma OwnRowsAreNone(cfg: Config, s: State, r: nat)
    requires NoClash(s) && Holds(cfg, Replay(s.log), s.db) && r < |s.reqs| && !s.reqs[r].pc.Done?
    ensures forall v :: (r, v) !in s.db.versions
  {
    forall v ensures (r, v) !in s.db.versions {
      Races.OwnIdHasNoRows(s, r, v);
    }
  }

  lemma DeleteFollows(cfg: Config, s: State, r: nat, h: seq<Event>, name: string)
    requires RequestsOk(cfg, s) && Holds(cfg, Replay(s.log), s.db)
    requires r < |s.reqs| && s.reqs[r].pc.RemoveVersion? && s.reqs[r].call.Delete? && Follows(s.db, h, name)
    ensures var q := s.reqs[r];
            var key := (q.pc.id, q.call.version);
            Follows(RemoveRow(s.db, key), if q.call.name == name && key in s.db.versions then h + [Removed(q.call.version)] else h, name)
  {
    hide Follows, References;
    var q := s.reqs[r];
    assert RequestOk(cfg, s, r, q);
    if name in s.db.packages {
      RemoveFollows(s.db, h, name, (q.pc.id, q.call.version));
    } else {
      GoneFollows(s.db, h, name, (q.pc.id, q.call.version));
    }
  }

  lemma GoneFollows(db: Tables, h: seq<Event>, name: string, key: VersionKey)
    requires Follows(db, h, name) && name !in db.packages
    ensures Follows(RemoveRow(db, key), h, name)
  {}

  lemma EventsExtend(cfg: Config, h: History, stamps: seq<nat>, e: Entry, begun: nat, name: string)
    requires |stamps| == |h|
    ensures EventsOf(cfg, h + [e], stamps + [begun], name) == EventsOf(cfg, h, stamps, name) + LastEvent(cfg, h + [e], begun, name)
  {
    assert (h + [e])[..|h|] == h && (stamps + [begun])[..|h|] == stamps;
  }

  /** The step of request `r` as events of package `name`: none, or one, and an insert only at an upload's COMMIT. */
  ghost predicate StepEvents(s: State, r: nat, name: string, added: seq<Event>)
    requires r < |s.reqs|
  {
    || added == []
    || (|added| == 1 && added[0].Removed?)
    || (|added| == 1 && added[0].Inserted? && s.reqs[r].pc.Commit? && s.reqs[r].call.Upload? && s.reqs[r].call.name == name
        && added[0].row.uploadedAt == s.reqs[r].begun)
  }

  lemma StepFollows(cfg: Config, s: State, r: nat, o: Outcome, s': State, name: string) returns (added: seq<Event>)
    requires r < |s.reqs| && StepOf(cfg, s, r, o) == Some(s')
    requires Inv(cfg, s) && Inv(cfg, s') && Follows(s.db, Events(cfg, s, name), name)
    ensures Events(cfg, s', name) == Events(cfg, s, name) + added
    ensures Follows(s'.db, Events(cfg, s', name), name)
    ensures StepEvents(s, r, name, added)
  {
    hide RequestsOk, NoClash, Holds, HistoryOk, FilesOk, CatalogStored, PoolOk, StepOf, Follows, EventsOf, LastEvent, StampsOf;
    hide RemoveRow, Committed, RowFor, Content, Facts, Fault;
    StampsStay(cfg, s, r, o, s');
    StepShape(cfg, s, r, o);
    Races.RequestInOrder(cfg, s, r);
    if s'.log == s.log {
      added := [];
    } else {
      var q := s.reqs[r];
      var e := Entry(r, Asked(cfg, q.call));
      EventsExtend(cfg, s.log, StampsOf(s), e, q.begun, name);
      added := LastEvent(cfg, s'.log, q.begun, name);
      assert Events(cfg, s, name) + [] == Events(cfg, s, name);
      if q.pc.Commit? {
        CommittedDb(cfg, s, r, o, s');
        CommitEvent(cfg, s, r, name);
        CommitFollows(cfg, s, r, Events(cfg, s, name), name);
        StampOfRow(cfg, q);
      } else if q.pc.RemoveVersion? {
        CommittedDb(cfg, s, r, o, s');
        RemoveEvent(cfg, s, r, name);
        DeleteFollows(cfg, s, r, Events(cfg, s, name), name);
      } else {
        StepChangesTables(cfg, s, r, o, s');
        TurnedDownIsNoEvent(cfg, s, r, o, s', name);
      }
    }
  }

  lemma StampOfRow(cfg: Config, q: Request)
    requires q.call.Upload?
    ensures RowFor(cfg, q.call.user, Content(cfg, q.call), q.begun).uploadedAt == q.begun
  {}

  lemma CommittedDb(cfg: Config, s: State, r: nat, o: Outcome, s': State)
    requires r < |s.reqs| && StepOf(cfg, s, r, o) == Some(s') && s'.log != s.log
    ensures s.reqs[r].pc.Commit? && s.reqs[r].call.Upload? ==> s'.db == Committed(s.db, s.reqs[r].tx)
    ensures s.reqs[r].pc.RemoveVersion? && s.reqs[r].call.Delete? ==>
              s'.db == RemoveRow(s.db, (s.reqs[r].pc.id, s.reqs[r].call.version))
  {}

  lemma OtherLabels(cfg: Config, s: State, l: Label, s': State, name: string)
    requires HistoryOk(cfg, s) && Next(cfg, s, l) == Some(s') && !l.Step?
    ensures Events(cfg, s', name) == Events(cfg, s, name) && s'.db == s.db
  {
    hide EventsOf;
    forall k | 0 <= k < |s.log| ensures StampsOf(s')[k] == StampsOf(s)[k] {
      assert s.reqs[s.log[k].request].lin == Some(k);
    }
    assert StampsOf(s') == StampsOf(s);
  }

  lemma {:induction false} RunFollows(cfg: Config, s: State, labels: seq<Label>, name: string)
    requires Inv(cfg, s) && Follows(s.db, Events(cfg, s, name), name) && Run(cfg, s, labels).Some?
    ensures Follows(Run(cfg, s, labels).value.db, Events(cfg, Run(cfg, s, labels).value, name), name)
    decreases |labels|
  {
    hide RequestsOk, NoClash, Holds, HistoryOk, FilesOk, CatalogStored, PoolOk, StepOf, Follows, Events, StepEvents;
    if labels == [] {
    } else {
      var s1 := Next(cfg, s, labels[0]).value;
      NextKeeps(cfg, s, labels[0]);
      if labels[0].Step? {
        var added := StepFollows(cfg, s, labels[0].request, labels[0].outcome, s1, name);
      } else {
        OtherLabels(cfg, s, labels[0], s1, name);
      }
      RunFollows(cfg, s1, labels[1..], name);
    }
  }

  lemma NothingFollows(cfg: Config, name: string)
    ensures Follows(INITIAL.db, Events(cfg, INITIAL, name), name)
  {}

  /**
   * In every reachable state the rows of a package are what the successful publishes
   * and unpublishes of its history made of them, in that order, each stamped with
   * the beginning of its own transaction; and no publish found its version taken.
   */
  lemma RowsAreEvents(cfg: Config, labels: seq<Label>, s: State, name: string)
    requires Run(cfg, INITIAL, labels) == Some(s)
    ensures FreshInserts(Events(cfg, s, name))
    ensures name in s.db.packages ==> VersionsOf(s.db, s.db.packages[name].id) == RowsAfter(Events(cfg, s, name))
  {
    hide Inv, Events;
    InitialInv(cfg);
    NothingFollows(cfg, name);
    RunFollows(cfg, INITIAL, labels, name);
  }

  /**
   * Exactly when `latest_version` is the version published last among the live ones,
   * in every reachable state: when its transaction also began later than those of
   * all the others.
   */
  lemma LatestIsLastPublished(cfg: Config, labels: seq<Label>, s: State, name: string)
    requires Run(cfg, INITIAL, labels) == Some(s) && name in s.db.packages
    ensures var rows, order := VersionsOf(s.db, s.db.packages[name].id), LiveOrder(Events(cfg, s, name));
            && (forall v :: v in order <==> v in rows)
            && ((forall latest :: IsLatest(rows, latest) ==> latest == Head(order)) <==> StampedLast(rows, order))
  {
    hide Events, VersionsOf, LiveOrder, RowsAfter, FreshInserts;
    RowsAreEvents(cfg, labels, s, name);
    LiveOrderIsLive(Events(cfg, s, name));
    LatestIsLastPublishedIff(Events(cfg, s, name));
  }

  // ---- uploads that do not overlap ----

  /** Request `i` is an upload to package `name` between its BEGIN and its end. */
  predicate Open(s: State, i: nat, name: string) {
    i < |s.reqs| && s.reqs[i].call.Upload? && s.reqs[i].call.name == name && Uploading(s.reqs[i].pc)
  }

  predicate Begins(s: State, l: Label, name: string) {
    && l.Step? && l.request < |s.reqs| && l.outcome.Proceed? && s.reqs[l.request].pc.Connect?
    && s.reqs[l.request].call.Upload? && s.reqs[l.request].call.name == name
  }

  /**
   * In this run no upload to the package begins while another is open, and each
   * begins later than the ones before by the database's clock.
   */
  ghost predicate InTurn(cfg: Config, s: State, labels: seq<Label>, name: string, clock: nat)
    decreases |labels|
  {
    labels == [] ||
    (Next(cfg, s, labels[0]).Some? &&
     if Begins(s, labels[0], name) then
       && labels[0].outcome.n >= clock && (forall i: nat :: !Open(s, i, name))
       && InTurn(cfg, Next(cfg, s, labels[0]).value, labels[1..], name, labels[0].outcome.n + 1)
     else InTurn(cfg, Next(cfg, s, labels[0]).value, labels[1..], name, clock))
  }

  ghost predicate StampedBefore(h: seq<Event>, bound: nat) {
    forall i :: 0 <= i < |h| && h[i].Inserted? ==> h[i].row.uploadedAt < bound
  }

  ghost predicate Orderly(s: State, h: seq<Event>, name: string, clock: nat) {
    && IncreasingStamps(h) && StampedBefore(h, clock)
    && (forall i: nat :: Open(s, i, name) ==> s.reqs[i].begun < clock && StampedBefore(h, s.reqs[i].begun))
    && (forall i: nat, j: nat :: Open(s, i, name) && Open(s, j, name) ==> i == j)
  }

  /** What a failed await leaves behind is over; otherwise an open upload has stayed open or has just begun. */
  lemma OwnOpenAfter(cfg: Config, s: State, r: nat, o: Outcome, s': State)
    requires r < |s.reqs| && StepOf(cfg, s, r, o) == Some(s') && |s'.reqs| == |s.reqs|
    requires s.reqs[r].call.Upload? && Uploading(s'.reqs[r].pc)
    ensures if s.reqs[r].pc.Connect? then o.Proceed? && s'.reqs[r].begun == o.n
            else Uploading(s.reqs[r].pc) && !s.reqs[r].pc.Commit?
  {
    hide RowFor, Content, Fault, UploadFile, Committed, PackageReserved, VersionReserved, PoolFull, B.Register;
  }

  lemma OpenAfter(cfg: Config, s: State, l: Label, s': State, name: string, i: nat)
    requires Next(cfg, s, l) == Some(s') && Open(s', i, name)
    ensures || (Open(s, i, name) && s'.reqs[i].begun == s.reqs[i].begun && !(l.Step? && l.request == i && s.reqs[i].pc.Commit?))
            || (Begins(s, l, name) && l.request == i && s'.reqs[i].begun == l.outcome.n)
  {
    hide StepOf;
    if l.Step? {
      StepShape(cfg, s, l.request, l.outcome);
      if l.request == i {
        BegunStays(cfg, s, i, l.outcome, s');
        OwnOpenAfter(cfg, s, i, l.outcome, s');
      }
    }
  }

  lemma IncreasesBy(h: seq<Event>, added: seq<Event>)
    requires IncreasingStamps(h) && |added| <= 1
    requires |added| == 1 && added[0].Inserted? ==> StampedBefore(h, added[0].row.uploadedAt)
    ensures IncreasingStamps(h + added)
  {
    var g := h + added;
    forall i, j | 0 <= i < j < |g| && g[i].Inserted? && g[j].Inserted? ensures g[i].row.uploadedAt < g[j].row.uploadedAt {
      assert g[i] == h[i];
      if j == |h| { assert g[j] == added[0]; }
    }
  }

  lemma StampedBeforeBy(h: seq<Event>, added: seq<Event>, bound: nat)
    requires StampedBefore(h, bound) && |added| <= 1
    requires |added| == 1 && added[0].Inserted? ==> added[0].row.uploadedAt < bound
    ensures StampedBefore(h + added, bound)
  {}

  lemma StampedBeforeLater(h: seq<Event>, bound: nat, later: nat)
    requires StampedBefore(h, bound) && bound <= later
    ensures StampedBefore(h, later)
  {}

  /** Upload `i`, open after the step, began after everything that is stamped then. */
  lemma OpenStaysOrderly(cfg: Config, s: State, l: Label, s': State, name: string, clock: nat, h: seq<Event>, added: seq<Event>, i: nat)
    requires Next(cfg, s, l) == Some(s') && Orderly(s, h, name, clock) && Open(s', i, name)
    requires if l.Step? && l.request < |s.reqs| then StepEvents(s, l.request, name, added) else added == []
    requires Begins(s, l, name) ==> l.outcome.n >= clock
    ensures s'.reqs[i].begun < (if Begins(s, l, name) then l.outcome.n + 1 else clock)
    ensures StampedBefore(h + added, s'.reqs[i].begun)
  {
    hide StepOf, StampedBefore, IncreasingStamps;
    if |added| == 1 && added[0].Inserted? { assert Open(s, l.request, name); }
    OpenAfter(cfg, s, l, s', name, i);
    if Open(s, i, name) && s'.reqs[i].begun == s.reqs[i].begun {
      StampedBeforeBy(h, added, s.reqs[i].begun);
    } else {
      StampedBeforeLater(h, clock, l.outcome.n);
      StampedBeforeBy(h, added, l.outcome.n);
    }
  }

  lemma StepStaysOrderly(cfg: Config, s: State, l: Label, s': State, name: string, clock: nat, h: seq<Event>, added: seq<Event>)
    requires Next(cfg, s, l) == Some(s') && Orderly(s, h, name, clock)
    requires if l.Step? && l.request < |s.reqs| then StepEvents(s, l.request, name, added) else added == []
    requires Begins(s, l, name) ==> l.outcome.n >= clock && forall i: nat :: !Open(s, i, name)
    ensures Orderly(s', h + added, name, if Begins(s, l, name) then l.outcome.n + 1 else clock)
  {
    hide StepOf, StampedBefore, IncreasingStamps;
    var clock' := if Begins(s, l, name) then l.outcome.n + 1 else clock;
    if |added| == 1 && added[0].Inserted? { assert Open(s, l.request, name); }
    IncreasesBy(h, added);
    StampedBeforeBy(h, added, clock);
    StampedBeforeLater(h + added, clock, clock');
    forall i: nat | Open(s', i, name) ensures s'.reqs[i].begun < clock' && StampedBefore(h + added, s'.reqs[i].begun) {
      OpenStaysOrderly(cfg, s, l, s', name, clock, h, added, i);
    }
    forall i: nat, j: nat | Open(s', i, name) && Open(s', j, name) ensures i == j {
      OpenAfter(cfg, s, l, s', name, i);
      OpenAfter(cfg, s, l, s', name, j);
    }
  }

  lemma {:induction false} RunStaysOrderly(cfg: Config, s: State, labels: seq<Label>, name: string, clock: nat)
    requires Inv(cfg, s) && Follows(s.db, Events(cfg, s, name), name) && Orderly(s, Events(cfg, s, name), name, clock)
    requires Run(cfg, s, labels).Some? && InTurn(cfg, s, labels, name, clock)
    ensures IncreasingStamps(Events(cfg, Run(cfg, s, labels).value, name))
    decreases |labels|
  {
    hide RequestsOk, NoClash, Holds, HistoryOk, FilesOk, CatalogStored, PoolOk, StepOf, Follows, Events, StepEvents, Orderly;
    if labels == [] {
      OrderlyIncreases(s, Events(cfg, s, name), name, clock);
    } else {
      var l := labels[0];
      var s1 := Next(cfg, s, l).value;
      NextKeeps(cfg, s, l);
      var added := [];
      if l.Step? {
        added := StepFollows(cfg, s, l.request, l.outcome, s1, name);
      } else {
        OtherLabels(cfg, s, l, s1, name);
        assert Events(cfg, s, name) + [] == Events(cfg, s, name);
      }
      StepStaysOrderly(cfg, s, l, s1, name, clock, Events(cfg, s, name), added);
      RunStaysOrderly(cfg, s1, labels[1..], name, if Begins(s, l, name) then l.outcome.n + 1 else clock);
    }
  }

  lemma OrderlyIncreases(s: State, h: seq<Event>, name: string, clock: nat)
    requires Orderly(s, h, name, clock)
    ensures IncreasingStamps(h)
  {}

  /**
   * For uploads of a package one after another, under an increasing clock: the
   * detail view of every state such a run reaches is the live versions, last
   * published first, and `latest_version` is the last published still live, after
   * any mix of publishes and deletes and whatever happens to other packages.
   */
  lemma UploadsInTurn(cfg: Config, labels: seq<Label>, s: State, name: string)
    requires Run(cfg, INITIAL, labels) == Some(s) && InTurn(cfg, INITIAL, labels, name, 0) && name in s.db.packages
    ensures var rows, order := VersionsOf(s.db, s.db.packages[name].id), LiveOrder(Events(cfg, s, name));
            && NewestFirst(rows, order)
            && forall latest :: IsLatest(rows, latest) ==> latest == Head(order)
  {
    hide Inv, Events, VersionsOf, LiveOrder, RowsAfter, IncreasingStamps, FreshInserts, NewestFirst, InTurn;
    InitialInv(cfg);
    NothingFollows(cfg, name);
    NothingIsOrderly(cfg, name);
    RunStaysOrderly(cfg, INITIAL, labels, name, 0);
    RowsAreEvents(cfg, labels, s, name);
    LatestIsMostRecentlyPublished(Events(cfg, s, name));
  }

  lemma NothingIsOrderly(cfg: Config, name: string)
    ensures Orderly(INITIAL, Events(cfg, INITIAL, name), name, 0)
  {}
}
