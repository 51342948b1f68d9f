/** No deadlock on unique keys or on the connection pool, and a bound on every run of the requests received so far. */
module Progress {
  import opened Wrappers
  import opened Storage
  import opened Tables
  import opened Protocol
  import opened Invariants
  import opened Preservation
  import opened Refinement
  import B = BlobFile

  // ---- who waits for whom ----

  /** `r` needs a unique key that `h` has inserted and not committed. */
  ghost predicate WaitsForKey(s: State, r: nat, h: nat)
    requires r < |s.reqs| && h < |s.reqs|
  {
    var q, t := s.reqs[r], s.reqs[h].tx;
    && r != h && q.call.Upload?
    && ((q.pc.AddPackage? && t.package.Some? && t.package.value.0 == q.call.name)
        || (q.pc.AddVersion? && t.version.Some? && t.version.value.0 == (q.pc.id, q.call.version)))
  }

  predicate WantsConnection(pc: Pc) {
    pc.Authenticate? || pc.Connect?
  }

  ghost predicate WaitsFor(s: State, r: nat, h: nat)
    requires r < |s.reqs| && h < |s.reqs|
  {
    WaitsForKey(s, r, h) || (WantsConnection(s.reqs[r].pc) && PoolFull(s) && Holding(s.reqs[h].pc))
  }

  ghost predicate KeyBlocked(s: State, r: nat)
    requires r < |s.reqs|
  {
    exists h: nat :: h < |s.reqs| && WaitsForKey(s, r, h)
  }

  ghost function Rank(s: State, r: nat): nat
    requires r < |s.reqs|
  {
    if WantsConnection(s.reqs[r].pc) then 2 else if KeyBlocked(s, r) then 1 else 0
  }

  lemma HolderDoesNotWait(cfg: Config, s: State, h: nat, j: nat)
    requires RequestsOk(cfg, s) && NoClash(s) && h < |s.reqs| && j < |s.reqs|
    requires s.reqs[h].tx.package.Some? || s.reqs[h].tx.version.Some?
    ensures !WaitsForKey(s, h, j) && !WantsConnection(s.reqs[h].pc)
  {
    assert RequestOk(cfg, s, h, s.reqs[h]);
    assert RequestOk(cfg, s, j, s.reqs[j]);
  }

  /** Whoever has inserted a key others wait for is itself waiting for no key. */
  lemma KeyHolderIsFree(cfg: Config, s: State, h: nat)
    requires RequestsOk(cfg, s) && NoClash(s) && h < |s.reqs|
    requires s.reqs[h].tx.package.Some? || s.reqs[h].tx.version.Some?
    ensures !KeyBlocked(s, h) && !WantsConnection(s.reqs[h].pc)
  {
    hide RequestsOk, NoClash;
    HolderDoesNotWait(cfg, s, h, h);
    forall j: nat | j < |s.reqs| ensures !WaitsForKey(s, h, j) {
      HolderDoesNotWait(cfg, s, h, j);
    }
  }

  /** The wait-for relation, keys and pool together, decreases a rank: it has no cycle. */
  lemma WaitingIsAcyclic(cfg: Config, labels: seq<Label>, s: State, r: nat, h: nat)
    requires Run(cfg, INITIAL, labels) == Some(s)
    requires r < |s.reqs| && h < |s.reqs| && WaitsFor(s, r, h)
    ensures Rank(s, h) < Rank(s, r)
  {
    hide RequestsOk, NoClash, Holds, HistoryOk, CatalogStored, FilesOk, PoolOk;
    EveryRunKeepsInv(cfg, labels);
    if WaitsForKey(s, r, h) {
      KeyHolderIsFree(cfg, s, h);
      assert KeyBlocked(s, r);
    }
  }

  // ---- something can always happen ----

  /** Request `r`, or the `put` it is waiting for, can take a step that is not a failure. */
  ghost predicate CanMove(cfg: Config, s: State, r: nat)
    requires r < |s.reqs|
  {
    StepOf(cfg, s, r, Proceed(1)).Some? || Next(cfg, s, Write(r, 1)).Some?
  }

  lemma UnblockedMoves(cfg: Config, s: State, r: nat)
    requires RequestsOk(cfg, s) && r < |s.reqs| && !s.reqs[r].pc.Done?
    ensures CanMove(cfg, s, r) || KeyBlocked(s, r) || (WantsConnection(s.reqs[r].pc) && PoolFull(s))
  {
    var q := s.reqs[r];
    assert RequestOk(cfg, s, r, q);
    if q.pc.Store? {
      var file := UploadFile(cfg, q.call);
      assert B.Act(s.files[file], B.Move(r, 1)) == B.Advance(s.files[file], r, 1);
    } else if q.pc.AddPackage? && PackageReserved(s, r, q.call.name) {
      var i :| 0 <= i < |s.reqs| && i != r && s.reqs[i].tx.package.Some? && s.reqs[i].tx.package.value.0 == q.call.name;
      assert WaitsForKey(s, r, i);
    } else if q.pc.AddVersion? && VersionReserved(s, r, (q.pc.id, q.call.version)) {
      var i :| 0 <= i < |s.reqs| && i != r && s.reqs[i].tx.version.Some? && s.reqs[i].tx.version.value.0 == (q.pc.id, q.call.version);
      assert WaitsForKey(s, r, i);
    }
  }

  lemma {:induction false} SomeoneHolds(reqs: seq<Request>) returns (h: nat)
    requires Held(reqs) > 0
    ensures h < |reqs| && Holding(reqs[h].pc)
  {
    if Holding(reqs[0].pc) {
      h := 0;
    } else {
      h := SomeoneHolds(reqs[1..]);
      h := h + 1;
    }
  }

  lemma KeyBlockedHasMover(cfg: Config, s: State, r: nat) returns (h: nat)
    requires RequestsOk(cfg, s) && NoClash(s) && r < |s.reqs| && KeyBlocked(s, r)
    ensures h < |s.reqs| && CanMove(cfg, s, h)
  {
    h :| h < |s.reqs| && WaitsForKey(s, r, h);
    assert RequestOk(cfg, s, h, s.reqs[h]);
    hide RequestsOk, NoClash;
    KeyHolderIsFree(cfg, s, h);
    UnblockedMoves(cfg, s, h);
  }

  lemma SomeoneMoves(cfg: Config, s: State, r: nat) returns (h: nat)
    requires Inv(cfg, s) && r < |s.reqs| && !s.reqs[r].pc.Done?
    ensures h < |s.reqs| && CanMove(cfg, s, h)
  {
    hide RequestsOk, NoClash, Holds, HistoryOk, CatalogStored, FilesOk, PoolOk, CanMove, KeyBlocked;
    UnblockedMoves(cfg, s, r);
    h := r;
    if !CanMove(cfg, s, r) {
      if KeyBlocked(s, r) {
        h := KeyBlockedHasMover(cfg, s, r);
      } else {
        h := SomeoneHolds(s.reqs);
        UnblockedMoves(cfg, s, h);
        if !CanMove(cfg, s, h) {
          h := KeyBlockedHasMover(cfg, s, h);
        }
      }
    }
  }

  /** Deadlock freedom: while any request is unanswered, some request can move without a failure. */
  lemma NoDeadlock(cfg: Config, labels: seq<Label>, s: State, r: nat) returns (h: nat)
    requires Run(cfg, INITIAL, labels) == Some(s) && r < |s.reqs| && !s.reqs[r].pc.Done?
    ensures h < |s.reqs| && CanMove(cfg, s, h)
  {
    hide Inv, CanMove;
    EveryRunKeepsInv(cfg, labels);
    h := SomeoneMoves(cfg, s, r);
  }

  /** At most 16 connections are out in every reachable state, and a request that wants one gets it exactly while fewer are. */
  lemma PoolIsRespected(cfg: Config, labels: seq<Label>, s: State, r: nat, n: nat)
    requires Run(cfg, INITIAL, labels) == Some(s) && r < |s.reqs|
    ensures Held(s.reqs) <= 16
    ensures WantsConnection(s.reqs[r].pc) ==> (StepOf(cfg, s, r, Proceed(n)).Some? <==> Held(s.reqs) < 16)
  {
    hide RequestsOk, NoClash, Holds, HistoryOk, CatalogStored, FilesOk;
    EveryRunKeepsInv(cfg, labels);
  }

  // ---- every run ends ----

  function StageCost(w: B.Writer): nat {
    match w.stage
    case Checking => |w.data| + 4
    case Creating => |w.data| + 3
    case Writing(offset) => if offset <= |w.data| then |w.data| - offset + 2 else 2
    case _ => 0
  }

  function WriterCost(cfg: Config, s: State, r: nat): nat
    requires r < |s.reqs|
  {
    var file := UploadFile(cfg, s.reqs[r].call);
    if file in s.files && r in s.files[file].writers then StageCost(s.files[file].writers[r]) else 0
  }

  /** An upper bound on the steps a request still has to take; its `put` counts once it has begun. */
  function PcCost(max: nat, pc: Pc): nat {
    match pc
    case Authenticate => max + 14
    case Resolving => max + 13
    case Validate => max + 12
    case Connect => max + 11
    case FindPackage => max + 10
    case AddPackage => max + 9
    case CheckVersion(_) => max + 8
    case Store(_) => 3
    case AddVersion(_) => 2
    case Commit(_) => 1
    case FindOwned => 2
    case RemoveVersion(_) => 1
    case FindBlob => max + 2
    case ReadBlob(_, got) => if |got| <= max then max - |got| + 1 else 1
    case FindShown => 2
    case FindVersions(_, _) => 1
    case Summarize => 1
    case Done(_) => 0
  }

  function Load(cfg: Config, s: State, r: nat): nat
    requires r < |s.reqs|
  {
    PcCost(cfg.maxUpload, s.reqs[r].pc) + WriterCost(cfg, s, r)
  }

  function Total(cfg: Config, s: State, n: nat): nat
    requires n <= |s.reqs|
  {
    if n == 0 then 0 else Total(cfg, s, n - 1) + Load(cfg, s, n - 1)
  }

  function Measure(cfg: Config, s: State): nat {
    Total(cfg, s, |s.reqs|)
  }

  /** Files stay within the upload limit, whatever hashes to the same name. */
  ghost predicate SmallFiles(cfg: Config, s: State) {
    forall p :: p in s.files ==>
      && (s.files[p].bytes.Some? ==> |s.files[p].bytes.value| <= cfg.maxUpload)
      && forall w :: w in s.files[p].writers ==>
           && |s.files[p].writers[w].data| <= cfg.maxUpload
           && (s.files[p].writers[w].stage.Writing? ==> s.files[p].writers[w].stage.offset <= |s.files[p].writers[w].data|)
  }

  lemma ContentIsSmall(cfg: Config, call: Call)
    ensures |Content(cfg, call)| <= cfg.maxUpload
  {
    if call.Upload? { FileFaults(call.parts, cfg.maxUpload); }
  }

  lemma WriteStaysSmall(cfg: Config, s: State, w: nat, n: nat)
    requires SmallFiles(cfg, s) && Next(cfg, s, Write(w, n)).Some?
    ensures SmallFiles(cfg, Next(cfg, s, Write(w, n)).value)
  {
    hide B.WriteAt, UploadFile, Content;
    var file := UploadFile(cfg, s.reqs[w].call);
    var f := s.files[file];
    var f' := B.Advance(f, w, n).value;
    assert Next(cfg, s, Write(w, n)).value.files == s.files[file := f'];
    var writer := f.writers[w];
    if writer.stage.Writing? && writer.stage.offset < |writer.data| {
      var k := B.Clamp(n, |writer.data| - writer.stage.offset);
      B.WriteAtBytes(if f.bytes.Some? then f.bytes.value else [], writer.stage.offset, writer.data[writer.stage.offset..writer.stage.offset + k]);
    }
  }

  lemma StepStaysSmall(cfg: Config, s: State, r: nat, o: Outcome)
    requires SmallFiles(cfg, s) && r < |s.reqs| && StepOf(cfg, s, r, o).Some?
    ensures SmallFiles(cfg, StepOf(cfg, s, r, o).value)
  {
    ContentIsSmall(cfg, s.reqs[r].call);
    StepFiles(cfg, s, r, o);
  }

  lemma {:induction false} TotalDrops(cfg: Config, s: State, s': State, r: nat, n: nat)
    requires r < |s.reqs| == |s'.reqs| && n <= |s.reqs|
    requires forall i: nat :: i < |s.reqs| && i != r ==> Load(cfg, s', i) == Load(cfg, s, i)
    requires Load(cfg, s', r) < Load(cfg, s, r)
    ensures Total(cfg, s', n) <= Total(cfg, s, n)
    ensures r < n ==> Total(cfg, s', n) < Total(cfg, s, n)
  {
    hide Load;
    if n == 0 {
    } else {
      TotalDrops(cfg, s, s', r, n - 1);
    }
  }

  lemma UploadCostDrops(cfg: Config, s: State, r: nat, lost: bool)
    requires r < |s.reqs| && s.reqs[r].call.Upload? && UploadStep(cfg, s, r, lost).Some?
    ensures var max, pc, pc' := cfg.maxUpload, s.reqs[r].pc, UploadStep(cfg, s, r, lost).value.reqs[r].pc;
            PcCost(max, pc') + (if pc.CheckVersion? then max + 4 else 0) < PcCost(max, pc)
  {
    hide Content, UploadFile, RowFor, Sha256Hex, Committed, PackageReserved, VersionReserved, B.Register;
  }

  lemma DownloadCostDrops(cfg: Config, s: State, r: nat, n: nat)
    requires SmallFiles(cfg, s) && r < |s.reqs| && s.reqs[r].call.Download? && DownloadStep(cfg, s, r, n).Some?
    ensures !s.reqs[r].pc.CheckVersion?
    ensures PcCost(cfg.maxUpload, DownloadStep(cfg, s, r, n).value.reqs[r].pc) < PcCost(cfg.maxUpload, s.reqs[r].pc)
  {}

  lemma PcCostDrops(cfg: Config, s: State, r: nat, o: Outcome)
    requires SmallFiles(cfg, s) && r < |s.reqs| && StepOf(cfg, s, r, o).Some?
    ensures var max, pc, pc' := cfg.maxUpload, s.reqs[r].pc, StepOf(cfg, s, r, o).value.reqs[r].pc;
            PcCost(max, pc') + (if pc.CheckVersion? && !o.Fail? then max + 4 else 0) < PcCost(max, pc)
  {
    hide UploadStep, DownloadStep, SmallFiles;
    if UploadStep.requires(cfg, s, r, o.LoseReply?) && UploadStep(cfg, s, r, o.LoseReply?).Some? {
      UploadCostDrops(cfg, s, r, o.LoseReply?);
    }
    var n := if o.Proceed? then o.n else 0;
    if DownloadStep.requires(cfg, s, r, n) && DownloadStep(cfg, s, r, n).Some? {
      DownloadCostDrops(cfg, s, r, n);
    }
  }

  lemma StepDrops(cfg: Config, s: State, r: nat, o: Outcome)
    requires SmallFiles(cfg, s) && r < |s.reqs| && StepOf(cfg, s, r, o).Some?
    ensures Measure(cfg, StepOf(cfg, s, r, o).value) < Measure(cfg, s)
  {
    hide SmallFiles, StepOf, PcCost, UploadFile, Content;
    var s' := StepOf(cfg, s, r, o).value;
    StepShape(cfg, s, r, o);
    StepFiles(cfg, s, r, o);
    PcCostDrops(cfg, s, r, o);
    ContentIsSmall(cfg, s.reqs[r].call);
    TotalDrops(cfg, s, s', r, |s.reqs|);
  }

  lemma WriteDrops(cfg: Config, s: State, w: nat, n: nat)
    requires SmallFiles(cfg, s) && Next(cfg, s, Write(w, n)).Some?
    ensures Measure(cfg, Next(cfg, s, Write(w, n)).value) < Measure(cfg, s)
  {
    hide PcCost, UploadFile, Content;
    TotalDrops(cfg, s, Next(cfg, s, Write(w, n)).value, w, |s.reqs|);
  }

  ghost predicate NoArrivals(labels: seq<Label>) {
    forall i :: 0 <= i < |labels| ==> !labels[i].Arrive?
  }

  lemma NextDrops(cfg: Config, s: State, l: Label)
    requires SmallFiles(cfg, s) && Next(cfg, s, l).Some? && !l.Arrive?
    ensures SmallFiles(cfg, Next(cfg, s, l).value) && Measure(cfg, Next(cfg, s, l).value) < Measure(cfg, s)
  {
    hide SmallFiles, StepOf, Measure;
    if l.Step? {
      StepStaysSmall(cfg, s, l.request, l.outcome);
      StepDrops(cfg, s, l.request, l.outcome);
    } else {
      WriteStaysSmall(cfg, s, l.writer, l.amount);
      WriteDrops(cfg, s, l.writer, l.amount);
    }
  }

  lemma {:induction false} RunStaysSmall(cfg: Config, s: State, labels: seq<Label>)
    requires SmallFiles(cfg, s) && Run(cfg, s, labels).Some?
    ensures SmallFiles(cfg, Run(cfg, s, labels).value)
    decreases |labels|
  {
    hide SmallFiles, StepOf, Measure;
    if labels == [] {
    } else {
      if !labels[0].Arrive? {
        NextDrops(cfg, s, labels[0]);
      } else {
        SameFilesStaySmall(cfg, s, Next(cfg, s, labels[0]).value);
      }
      RunStaysSmall(cfg, Next(cfg, s, labels[0]).value, labels[1..]);
    }
  }

  lemma SameFilesStaySmall(cfg: Config, s: State, s': State)
    requires SmallFiles(cfg, s) && s'.files == s.files
    ensures SmallFiles(cfg, s')
  {}

  lemma {:induction false} RunDrops(cfg: Config, s: State, labels: seq<Label>)
    requires SmallFiles(cfg, s) && NoArrivals(labels) && Run(cfg, s, labels).Some?
    ensures |labels| + Measure(cfg, Run(cfg, s, labels).value) <= Measure(cfg, s)
    decreases |labels|
  {
    hide SmallFiles, Next, Measure;
    if labels == [] {
    } else {
      NextDrops(cfg, s, labels[0]);
      RunDrops(cfg, Next(cfg, s, labels[0]).value, labels[1..]);
    }
  }

  /** However they interleave and fail, the requests received so far take at most `Measure` steps between them. */
  lemma EveryRunEnds(cfg: Config, before: seq<Label>, s: State, labels: seq<Label>)
    requires Run(cfg, INITIAL, before) == Some(s) && NoArrivals(labels) && Run(cfg, s, labels).Some?
    ensures |labels| <= Measure(cfg, s)
  {
    RunStaysSmall(cfg, INITIAL, before);
    RunDrops(cfg, s, labels);
  }

  ghost predicate AllAnswered(s: State) {
    forall r :: 0 <= r < |s.reqs| ==> s.reqs[r].pc.Done?
  }

  predicate Faultless(l: Label) {
    l.Write? || (l.Step? && l.outcome.Proceed?)
  }

  lemma {:induction false} CanAllBeAnswered(cfg: Config, s: State) returns (labels: seq<Label>)
    requires Inv(cfg, s) && SmallFiles(cfg, s)
    ensures forall i :: 0 <= i < |labels| ==> Faultless(labels[i])
    ensures Run(cfg, s, labels).Some? && AllAnswered(Run(cfg, s, labels).value)
    decreases Measure(cfg, s)
  {
    hide Inv, SmallFiles, Next, Measure, CanMove;
    if AllAnswered(s) {
      return [];
    }
    var r: nat :| r < |s.reqs| && !s.reqs[r].pc.Done?;
    var h := SomeoneMoves(cfg, s, r);
    var l := MovingLabel(cfg, s, h);
    NextDrops(cfg, s, l);
    NextKeeps(cfg, s, l);
    var rest := CanAllBeAnswered(cfg, Next(cfg, s, l).value);
    labels := [l] + rest;
    assert labels[1..] == rest;
  }

  lemma MovingLabel(cfg: Config, s: State, h: nat) returns (l: Label)
    requires h < |s.reqs| && CanMove(cfg, s, h)
    ensures Faultless(l) && Next(cfg, s, l).Some?
  {
    hide StepOf;
    l := if StepOf(cfg, s, h, Proceed(1)).Some? then Step(h, Proceed(1)) else Write(h, 1);
  }

  /** From every reachable state the requests received so far can all be answered without another arrival or failure. */
  lemma RequestsCanBeAnswered(cfg: Config, before: seq<Label>, s: State) returns (labels: seq<Label>)
    requires Run(cfg, INITIAL, before) == Some(s)
    ensures forall i :: 0 <= i < |labels| ==> Faultless(labels[i])
    ensures Run(cfg, s, labels).Some? && AllAnswered(Run(cfg, s, labels).value)
  {
    hide Inv;
    EveryRunKeepsInv(cfg, before);
    RunStaysSmall(cfg, INITIAL, before);
    labels := CanAllBeAnswered(cfg, s);
  }
}
