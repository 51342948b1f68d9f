/** The protocol against the sequential registry: what clients and the tables can rely on in every run. */
module Refinement {
  import opened Wrappers
  import opened Text
  import opened Storage
  import opened Names
  import opened Registry
  import opened Tables
  import opened Protocol
  import opened Checks
  import opened Invariants
  import opened Preservation
  import B = BlobFile

  /** Request `r` got the answer the sequential registry gives at its own place in `log`, or none was decided. */
  ghost predicate AnsweredInOrder(cfg: Config, s: State, r: nat)
    requires r < |s.reqs| && s.reqs[r].pc.Done?
  {
    var q := s.reqs[r];
    if q.lin.None? then Undecided(q.pc.answer)
    else
      && q.lin.value < |s.log| && s.log[q.lin.value] == Entry(r, Asked(cfg, q.call))
      && Matches(cfg, q.call, q.pc.answer, ReplyAt(s.log, q.lin.value))
  }

  /** Entry `k` of the history is what its request asked for under a good name and version, and that request's only one. */
  ghost predicate AskedFor(cfg: Config, s: State, k: nat) {
    && k < |s.log| && s.log[k].request < |s.reqs|
    && var q := s.reqs[s.log[k].request];
    q.lin == Some(k) && GoodPath(q.call) && AsksFor(q.call, cfg.maxUpload, s.log[k].op)
  }

  /**
   * Refinement: after any interleaving the committed tables hold exactly the
   * catalog that `log` leads to one operation at a time, every answer is the one
   * that history gives, and nothing is in it but what requests asked for, each once.
   */
  lemma RunsAreSequential(cfg: Config, labels: seq<Label>, s: State)
    requires Run(cfg, INITIAL, labels) == Some(s)
    ensures Holds(cfg, Replay(s.log), s.db)
    ensures forall r: nat :: r < |s.reqs| && s.reqs[r].pc.Done? ==> AnsweredInOrder(cfg, s, r)
    ensures forall k :: 0 <= k < |s.log| ==> AskedFor(cfg, s, k)
    ensures forall j, k :: 0 <= j < k < |s.log| ==> s.log[j].request != s.log[k].request
  {
    hide RequestsOk, NoClash, HistoryOk, Holds, FilesOk, CatalogStored, PoolOk, AnsweredInOrder, AskedFor;
    EveryRunKeepsInv(cfg, labels);
    forall r: nat | r < |s.reqs| && s.reqs[r].pc.Done? ensures AnsweredInOrder(cfg, s, r) {
      AnswerIsInOrder(cfg, s, r);
    }
    EntriesAreDistinct(cfg, s);
    EntriesAreAskedFor(cfg, s);
  }

  lemma AnswerIsInOrder(cfg: Config, s: State, r: nat)
    requires RequestsOk(cfg, s) && HistoryOk(cfg, s) && r < |s.reqs| && s.reqs[r].pc.Done?
    ensures AnsweredInOrder(cfg, s, r)
  {
    hide Matches;
    assert RequestOk(cfg, s, r, s.reqs[r]);
  }

  lemma EntriesAreDistinct(cfg: Config, s: State)
    requires HistoryOk(cfg, s)
    ensures forall j, k :: 0 <= j < k < |s.log| ==> s.log[j].request != s.log[k].request
  {}

  lemma EntriesAreAskedFor(cfg: Config, s: State)
    requires HistoryOk(cfg, s) && RequestsOk(cfg, s)
    ensures forall k :: 0 <= k < |s.log| ==> AskedFor(cfg, s, k)
  {
    hide Facts, Fault, GoodPath, AsksFor, Asked;
    forall k | 0 <= k < |s.log| ensures AskedFor(cfg, s, k) {
      assert RequestOk(cfg, s, s.log[k].request, s.reqs[s.log[k].request]);
      AskedIsAskedFor(cfg, s.reqs[s.log[k].request].call);
    }
  }

  // ---- one step ----

  /** What one step of request `r` may do: move `r`, append `r`'s own entry, and write tables only when that ends `r`. */
  ghost predicate Moved(cfg: Config, s: State, s': State, r: nat)
    requires r < |s.reqs|
  {
    && |s'.reqs| == |s.reqs|
    && (forall i :: 0 <= i < |s.reqs| && i != r ==> s'.reqs[i] == s.reqs[i])
    && s'.reqs[r].call == s.reqs[r].call
    && (s'.log == s.log || (s'.log == s.log + [Entry(r, Asked(cfg, s.reqs[r].call))] && s'.reqs[r].lin == Some(|s.log|)))
    && (s'.db == s.db || (s'.log != s.log && s'.reqs[r].pc.Done?))
  }

  lemma UploadMoves(cfg: Config, s: State, r: nat, lost: bool)
    requires r < |s.reqs| && s.reqs[r].call.Upload? && UploadStep(cfg, s, r, lost).Some?
    ensures Moved(cfg, s, UploadStep(cfg, s, r, lost).value, r)
  {
    hide Content, UploadFile, RowFor, Sha256Hex, Committed, PackageReserved, VersionReserved, B.Register;
  }

  lemma DeleteMoves(cfg: Config, s: State, r: nat, lost: bool)
    requires r < |s.reqs| && s.reqs[r].call.Delete? && DeleteStep(cfg, s, r, lost).Some?
    ensures Moved(cfg, s, DeleteStep(cfg, s, r, lost).value, r)
  {}

  lemma StepShape(cfg: Config, s: State, r: nat, o: Outcome)
    requires r < |s.reqs| && StepOf(cfg, s, r, o).Some?
    ensures Moved(cfg, s, StepOf(cfg, s, r, o).value, r) && !s.reqs[r].pc.Done?
  {
    hide UploadStep, DeleteStep;
    if UploadStep.requires(cfg, s, r, o.LoseReply?) && UploadStep(cfg, s, r, o.LoseReply?).Some? {
      UploadMoves(cfg, s, r, o.LoseReply?);
    }
    if DeleteStep.requires(cfg, s, r, o.LoseReply?) && DeleteStep(cfg, s, r, o.LoseReply?).Some? {
      DeleteMoves(cfg, s, r, o.LoseReply?);
    }
  }

  /** The only step that touches the files is the one that begins a `put`. */
  lemma StepFiles(cfg: Config, s: State, r: nat, o: Outcome)
    requires r < |s.reqs| && StepOf(cfg, s, r, o).Some?
    ensures var s' := StepOf(cfg, s, r, o).value;
            || s'.files == s.files
            || (s.reqs[r].pc.CheckVersion? && s.reqs[r].call.Upload? && !o.Fail? && s' == Registered(cfg, s, r))
  {}

  /** A COMMIT, or a DELETE whose row is there. */
  predicate AboutToWrite(s: State, r: nat)
    requires r < |s.reqs|
  {
    var q := s.reqs[r];
    q.pc.Commit? || (q.pc.RemoveVersion? && q.call.Delete? && (q.pc.id, q.call.version) in s.db.versions)
  }

  lemma CommitWrites(cfg: Config, s: State, r: nat)
    requires RequestsOk(cfg, s) && NoClash(s) && r < |s.reqs| && s.reqs[r].pc.Commit?
    ensures Committed(s.db, s.reqs[r].tx) != s.db
    ensures s.reqs[r].call.Upload?
  {
    assert RequestOk(cfg, s, r, s.reqs[r]);
    var key := s.reqs[r].tx.version.value.0;
    assert key !in s.db.versions && key in Committed(s.db, s.reqs[r].tx).versions;
  }

  lemma StepChangesTables(cfg: Config, s: State, r: nat, o: Outcome, s': State)
    requires Inv(cfg, s) && r < |s.reqs| && StepOf(cfg, s, r, o) == Some(s')
    ensures |s'.reqs| == |s.reqs|
    ensures s'.db != s.db <==> !o.Fail? && AboutToWrite(s, r)
    ensures s'.db != s.db ==> (s'.reqs[r].pc == Done(Rejected(Internal)) <==> o.LoseReply?)
  {
    hide RequestsOk, NoClash, Holds, HistoryOk, CatalogStored, FilesOk, PoolOk, Facts, Shape, Fault, Content, RowFor, PackageReserved, VersionReserved, PoolFull;
    if s.reqs[r].pc.Commit? {
      CommitWrites(cfg, s, r);
    } else if s.reqs[r].pc.RemoveVersion? && s.reqs[r].call.Delete? {
      var key := (s.reqs[r].pc.id, s.reqs[r].call.version);
      if key in s.db.versions {
        assert key !in RemoveRow(s.db, key).versions;
      } else {
        assert RemoveRow(s.db, key).versions == s.db.versions;
      }
    }
  }

  /**
   * Exactly when the committed tables change, and what the client is told: they
   * change at a COMMIT or at a DELETE that finds its row, unless the operation
   * fails; the client is then answered Internal if and only if the reply was lost.
   * So an Internal answer leaves the tables as they were in every other case.
   */
  lemma TablesChangeIff(cfg: Config, labels: seq<Label>, s: State, r: nat, o: Outcome, s': State)
    requires Run(cfg, INITIAL, labels) == Some(s) && r < |s.reqs| && StepOf(cfg, s, r, o) == Some(s')
    ensures |s'.reqs| == |s.reqs|
    ensures s'.db != s.db <==> !o.Fail? && AboutToWrite(s, r)
    ensures s'.db != s.db ==> (s'.reqs[r].pc == Done(Rejected(Internal)) <==> o.LoseReply?)
  {
    hide Inv, StepOf;
    EveryRunKeepsInv(cfg, labels);
    StepChangesTables(cfg, s, r, o, s');
  }

  // ---- continuations ----

  /** What never changes again: package rows, the history so far, and finished requests. */
  ghost predicate Kept(s: State, s': State) {
    && (forall n :: n in s.db.packages ==> n in s'.db.packages && s'.db.packages[n] == s.db.packages[n])
    && s.log <= s'.log && |s.reqs| <= |s'.reqs|
    && (forall i :: 0 <= i < |s.reqs| ==> s'.reqs[i].call == s.reqs[i].call
                                          && (s.reqs[i].pc.Done? ==> s'.reqs[i] == s.reqs[i]))
    && forall k :: |s.log| <= k < |s'.log| && s'.log[k].request < |s.reqs| ==> !s.reqs[s'.log[k].request].pc.Done?
  }

  lemma NextKept(cfg: Config, s: State, l: Label)
    requires Inv(cfg, s) && Next(cfg, s, l).Some?
    ensures Kept(s, Next(cfg, s, l).value)
  {
    hide RequestsOk, Holds, HistoryOk, CatalogStored, FilesOk, PoolOk, StepOf;
    if l.Step? {
      StepShape(cfg, s, l.request, l.outcome);
      PackagesKept(cfg, s, l.request, l.outcome);
    }
  }

  lemma PackagesKept(cfg: Config, s: State, r: nat, o: Outcome)
    requires NoClash(s) && r < |s.reqs| && StepOf(cfg, s, r, o).Some?
    ensures forall n :: n in s.db.packages ==>
              n in StepOf(cfg, s, r, o).value.db.packages && StepOf(cfg, s, r, o).value.db.packages[n] == s.db.packages[n]
  {
    hide NoClash;
    CommitGrows(s, r);
  }

  lemma {:induction false} RunKept(cfg: Config, s: State, labels: seq<Label>)
    requires Inv(cfg, s) && Run(cfg, s, labels).Some?
    ensures Kept(s, Run(cfg, s, labels).value)
    decreases |labels|
  {
    hide Inv, Next;
    if labels == [] {
    } else {
      var s1 := Next(cfg, s, labels[0]).value;
      NextKept(cfg, s, labels[0]);
      NextKeeps(cfg, s, labels[0]);
      RunKept(cfg, s1, labels[1..]);
      KeptTransitive(s, s1, Run(cfg, s1, labels[1..]).value);
    }
  }

  /** Ownership for ever, and real-time order: operations that take effect later come from requests not yet answered. */
  lemma ContinuationsKeep(cfg: Config, before: seq<Label>, s: State, after: seq<Label>, s': State)
    requires Run(cfg, INITIAL, before) == Some(s) && Run(cfg, s, after) == Some(s')
    ensures Kept(s, s')
  {
    hide Inv;
    EveryRunKeepsInv(cfg, before);
    RunKept(cfg, s, after);
  }

  lemma KeptTransitive(s: State, s1: State, s2: State)
    requires Kept(s, s1) && Kept(s1, s2)
    ensures Kept(s, s2)
  {
    forall k | |s.log| <= k < |s2.log| && s2.log[k].request < |s.reqs| ensures !s.reqs[s2.log[k].request].pc.Done? {
      if k < |s1.log| { assert s2.log[k] == s1.log[k]; }
    }
  }

  // ---- readings of the refinement ----

  /**
   * A package row exists exactly when an upload of that name has succeeded, and
   * its owner is the user of the first one that did. So no state ever shows a
   * package that never had a version.
   */
  lemma PackageRowIffPublished(cfg: Config, labels: seq<Label>, s: State, name: string) returns (first: Option<nat>)
    requires Run(cfg, INITIAL, labels) == Some(s)
    ensures name in s.db.packages <==> first.Some?
    ensures first.Some? ==> first.value < |s.log| && FirstPublishedAt(s.log, first.value, name)
                            && s.db.packages[name].owner == s.log[first.value].op.user
    ensures first.None? ==> forall k: nat :: k < |s.log| ==> !PublishedAt(s.log, k, name)
  {
    EveryRunKeepsInv(cfg, labels);
    first := OwnerIsFirstPublisher(s.log, name);
    if name in s.db.packages { LookupAgrees(cfg, Replay(s.log), s.db, name, ""); }
  }

  /** A version row exists exactly while its latest publish stands, and it describes those very bytes. */
  lemma VersionRowIffLive(cfg: Config, labels: seq<Label>, s: State, name: string, version: string)
    requires Run(cfg, INITIAL, labels) == Some(s) && name in s.db.packages
    ensures var key := (s.db.packages[name].id, version);
            && (key in s.db.versions <==> LiveContent(s.log, name, version).Some?)
            && (key in s.db.versions ==>
                  s.db.versions[key] == RowFor(cfg, s.db.packages[name].owner, LiveContent(s.log, name, version).value, s.db.versions[key].uploadedAt))
  {
    EveryRunKeepsInv(cfg, labels);
    LookupAgrees(cfg, Replay(s.log), s.db, name, version);
    CatalogHoldsLiveContent(s.log, name, version);
  }

  /**
   * Cross-store invariant: every committed version row belongs to a committed
   * package of its uploader, describes some bytes within the size limit, and the
   * file its path and its hash lead to exists.
   */
  lemma RowsHaveFiles(cfg: Config, labels: seq<Label>, s: State, key: VersionKey) returns (name: string, content: Bytes)
    requires Run(cfg, INITIAL, labels) == Some(s) && key in s.db.versions
    ensures name in s.db.packages && s.db.packages[name].id == key.0
    ensures var row := s.db.versions[key];
            && row.uploadedBy == s.db.packages[name].owner
            && row.sha256 == Sha256Hex(cfg.sha, content) && row.size == |content| <= cfg.maxUpload
            && cfg.root + Split(row.blobPath) == PathFor(cfg.root, row.sha256)
            && PathFor(cfg.root, row.sha256) in s.files && s.files[PathFor(cfg.root, row.sha256)].bytes.Some?
  {
    EveryRunKeepsInv(cfg, labels);
    assert HasPackage(s.db, key.0);
    name :| name in s.db.packages && s.db.packages[name].id == key.0;
    LookupAgrees(cfg, Replay(s.log), s.db, name, key.1);
    content := Replay(s.log)[name].versions[key.1];
    assert Stored(cfg, s.files, content);
    BlobPathRejoinsRoot(cfg.root, Sha256Hex(cfg.sha, content));
  }

  /** Pending and committed names never collide, nor do version keys: what the UNIQUE constraints promise. */
  lemma ReservationsAreUnique(cfg: Config, labels: seq<Label>, s: State, i: nat, j: nat)
    requires Run(cfg, INITIAL, labels) == Some(s) && i < |s.reqs| && j < |s.reqs| && i != j
    ensures s.reqs[i].tx.package.Some? ==>
              && s.reqs[i].tx.package.value.0 !in s.db.packages
              && (s.reqs[j].tx.package.Some? ==> s.reqs[i].tx.package.value.0 != s.reqs[j].tx.package.value.0)
    ensures s.reqs[i].tx.version.Some? ==>
              && s.reqs[i].tx.version.value.0 !in s.db.versions
              && (s.reqs[j].tx.version.Some? ==> s.reqs[i].tx.version.value.0 != s.reqs[j].tx.version.value.0)
  {
    EveryRunKeepsInv(cfg, labels);
    hide RequestsOk, Holds, HistoryOk, CatalogStored, FilesOk;
    if j < i {
      assert s.reqs[j].tx.package.Some? && s.reqs[i].tx.package.Some? ==>
          s.reqs[j].tx.package.value.0 != s.reqs[i].tx.package.value.0;
    }
  }
}
