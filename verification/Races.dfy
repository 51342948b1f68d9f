/**
 * What an answer means when nothing failed: an upload is answered Internal only
 * for a race that another upload won while it ran. Everything else is decided.
 */
module Races {
  import opened Wrappers
  import opened Names
  import opened Registry
  import opened Tables
  import opened Protocol
  import opened Checks
  import opened Invariants
  import opened Preservation
  import opened Refinement

  /** No statement of the request has run yet. */
  predicate Unstarted(pc: Pc) {
    || pc.Authenticate? || pc.Resolving? || pc.Validate? || pc.Connect?
    || pc.FindPackage? || pc.FindOwned? || pc.FindBlob? || pc.FindShown? || pc.Summarize?
  }

  ghost predicate NoFaults(labels: seq<Label>, r: nat) {
    forall i :: 0 <= i < |labels| && labels[i].Step? && labels[i].request == r ==> labels[i].outcome.Proceed?
  }

  /** While the history grew from `h` to `g`, this very version, or the first one of this package, was published. */
  ghost predicate Overtaken(h: History, g: History, call: Call)
    requires call.Upload?
  {
    exists k: nat :: |h| <= k < |g| && PublishedAt(g, k, call.name)
                     && (g[k].op.version == call.version || FirstPublishedAt(g, k, call.name))
  }

  /** No version like this is live, unless it was published since `h`. */
  ghost predicate FreeOrOvertaken(h: History, g: History, call: Call)
    requires call.Upload?
  {
    LiveContent(g, call.name, call.version).None? || Overtaken(h, g, call)
  }

  lemma OvertakenStays(h: History, g: History, g': History, call: Call)
    requires g <= g' && call.Upload? && Overtaken(h, g, call)
    ensures Overtaken(h, g', call)
  {
    var k: nat :| |h| <= k < |g| && PublishedAt(g, k, call.name)
                  && (g[k].op.version == call.version || FirstPublishedAt(g, k, call.name));
    ReplyInLongerHistory(g, g', k);
    FirstPublishedInLongerHistory(g, g', k, call.name);
    assert PublishedAt(g', k, call.name);
  }

  lemma FreeOrOvertakenStays(h: History, g: History, e: Entry, call: Call)
    requires h <= g && call.Upload? && FreeOrOvertaken(h, g, call)
    ensures FreeOrOvertaken(h, g + [e], call)
  {
    var g' := g + [e];
    assert g'[..|g|] == g;
    if Overtaken(h, g, call) {
      OvertakenStays(h, g, g', call);
    } else if LiveContent(g', call.name, call.version).Some? {
      assert PublishedAt(g', |g|, call.name);
    }
  }

  /** What request `r` knows, its statements having started when the history was `h` or later. */
  ghost predicate OnTrack(cfg: Config, h: History, t: State, r: nat) {
    && r < |t.reqs| && h <= t.log
    && var q := t.reqs[r];
    && (q.call.Upload? && q.pc.AddPackage? ==> q.call.name !in Replay(h))
    && (q.call.Upload? && (q.pc.Store? || q.pc.AddVersion?) ==> FreeOrOvertaken(h, t.log, q.call))
    && (q.pc.Done? ==> Justified(cfg, h, t.log, q))
  }

  /** An answer that no fault explains. */
  ghost predicate Justified(cfg: Config, h: History, g: History, q: Request)
    requires q.pc.Done?
  {
    var a := q.pc.answer;
    if q.lin.Some? then a != Rejected(Internal)
    else
      || a == Unauthorized
      || (a.Rejected? && Deserves(q.call, cfg.maxUpload, a.error))
      || (a == Rejected(Internal) && q.call.Upload? && Overtaken(h, g, q.call))
  }

  lemma JustifiedStays(cfg: Config, h: History, g: History, g': History, q: Request)
    requires q.pc.Done? && g <= g' && Justified(cfg, h, g, q)
    ensures Justified(cfg, h, g', q)
  {
    if q.call.Upload? && Overtaken(h, g, q.call) { OvertakenStays(h, g, g', q.call); }
  }

  lemma OthersKeepOnTrack(cfg: Config, h: History, t: State, t': State, r: nat, e: Entry)
    requires r < |t.reqs| && r < |t'.reqs| && t'.reqs[r] == t.reqs[r] && OnTrack(cfg, h, t, r)
    requires t'.log == t.log || t'.log == t.log + [e]
    ensures OnTrack(cfg, h, t', r)
  {
    hide Justified, FreeOrOvertaken;
    var q := t.reqs[r];
    if q.pc.Done? { JustifiedStays(cfg, h, t.log, t'.log, q); }
    if q.call.Upload? && (q.pc.Store? || q.pc.AddVersion?) && t'.log != t.log {
      FreeOrOvertakenStays(h, t.log, e, q.call);
    }
  }

  // ---- the three statements that look at shared state ----

  lemma AbsentThen(h: History, g: History, name: string)
    requires h <= g && name !in Replay(g)
    ensures name !in Replay(h)
  {
    if name in Replay(h) { OwnerIsForever(h, g, name); }
  }

  lemma LostPackageRace(h: History, g: History, call: Call)
    requires h <= g && call.Upload? && call.name !in Replay(h) && call.name in Replay(g)
    ensures Overtaken(h, g, call)
  {
    var first := OwnerIsFirstPublisher(g, call.name);
    var k := first.value;
    if k < |h| {
      var none := OwnerIsFirstPublisher(h, call.name);
      FirstPublishedInLongerHistory(h, g, k, call.name);
    }
  }

  lemma OwnIdHasNoRows(s: State, r: nat, version: string)
    requires NoClash(s) && References(s.db) && r < |s.reqs| && !s.reqs[r].pc.Done?
    ensures (r, version) !in s.db.versions
  {
    forall k | k in s.db.versions ensures k.0 != r {
      assert HasPackage(s.db, k.0);
    }
  }

  lemma VersionKeyIsLive(cfg: Config, s: State, r: nat, id: nat)
    requires NoClash(s) && Holds(cfg, Replay(s.log), s.db)
    requires r < |s.reqs| && !s.reqs[r].pc.Done? && s.reqs[r].call.Upload? && Owns(s.db, r, s.reqs[r], id)
    ensures (id, s.reqs[r].call.version) in s.db.versions <==>
            LiveContent(s.log, s.reqs[r].call.name, s.reqs[r].call.version).Some?
  {
    var name, version := s.reqs[r].call.name, s.reqs[r].call.version;
    CatalogHoldsLiveContent(s.log, name, version);
    NamesAgree(cfg, Replay(s.log), s.db, name);
    OwnIdHasNoRows(s, r, version);
    if s.reqs[r].tx.package.None? {
      LookupAgrees(cfg, Replay(s.log), s.db, name, version);
    }
  }

  /** What the sequential history at this moment says of the upload, and the step it makes of it. */
  ghost predicate Verdicts(s: State, r: nat, s': State)
    requires r < |s.reqs| && s.reqs[r].call.Upload?
  {
    && r < |s'.reqs|
    && var call, pc, pc' := s.reqs[r].call, s.reqs[r].pc, s'.reqs[r].pc;
    var c := Replay(s.log);
    var live := LiveContent(s.log, call.name, call.version).Some?;
    && (pc' == Done(Rejected(Forbidden)) <==> pc.FindPackage? && call.name in c && c[call.name].owner != call.user)
    && (pc' == Done(Rejected(Conflict)) <==> pc.CheckVersion? && live)
    && (pc' == Done(Rejected(Internal)) <==> (pc.AddPackage? && call.name in c) || (pc.AddVersion? && live))
    && (pc'.AddPackage? <==> pc.FindPackage? && call.name !in c)
  }

  lemma StepVerdicts(cfg: Config, s: State, r: nat, s': State)
    requires r < |s.reqs| && s.reqs[r].call.Upload? && UploadStep(cfg, s, r, false) == Some(s')
    requires Inv(cfg, s)
    ensures Verdicts(s, r, s')
  {
    hide RequestsOk, NoClash, Holds, HistoryOk, FilesOk, CatalogStored, PoolOk, Fault, Content, RowFor, UploadFile, Committed, PackageReserved, VersionReserved;
    var q := s.reqs[r];
    RequestInOrder(cfg, s, r);
    NamesAgree(cfg, Replay(s.log), s.db, q.call.name);
    if q.call.name in s.db.packages { LookupAgrees(cfg, Replay(s.log), s.db, q.call.name, q.call.version); }
    if q.pc.CheckVersion? || q.pc.AddVersion? { VersionKeyIsLive(cfg, s, r, q.pc.id); }
  }

  /** Exactly when an upload is told Forbidden or Conflict, or loses a race, by the sequential history at that moment. */
  lemma UploadVerdicts(cfg: Config, labels: seq<Label>, s: State, r: nat, s': State)
    requires Run(cfg, INITIAL, labels) == Some(s)
    requires r < |s.reqs| && s.reqs[r].call.Upload? && UploadStep(cfg, s, r, false) == Some(s')
    ensures Verdicts(s, r, s')
  {
    hide Inv, Verdicts, UploadStep;
    EveryRunKeepsInv(cfg, labels);
    StepVerdicts(cfg, s, r, s');
  }

  lemma LogGrows(cfg: Config, s: State, r: nat, o: Outcome, s': State)
    requires r < |s.reqs| && StepOf(cfg, s, r, o) == Some(s')
    ensures |s'.reqs| == |s.reqs| && s.log <= s'.log
    ensures forall i :: 0 <= i < |s.reqs| && i != r ==> s'.reqs[i] == s.reqs[i]
    ensures s'.log == s.log || s'.log == s.log + [Entry(r, Asked(cfg, s.reqs[r].call))]
  {
    hide StepOf;
    StepShape(cfg, s, r, o);
  }

  lemma RequestInOrder(cfg: Config, s: State, r: nat)
    requires RequestsOk(cfg, s) && r < |s.reqs|
    ensures RequestOk(cfg, s, r, s.reqs[r])
  {}

  lemma UploadStaysOnTrack(cfg: Config, h: History, s: State, r: nat, s': State)
    requires r < |s.reqs| && s.reqs[r].call.Upload? && Uploading(s.reqs[r].pc)
    requires UploadStep(cfg, s, r, false) == Some(s')
    requires OnTrack(cfg, h, s, r) && Inv(cfg, s)
    ensures OnTrack(cfg, h, s', r)
  {
    hide RequestsOk, NoClash, Holds, HistoryOk, FilesOk, CatalogStored, PoolOk, Facts, Overtaken, LiveContent, Fault;
    var call := s.reqs[r].call;
    RequestInOrder(cfg, s, r);
    StepVerdicts(cfg, s, r, s');
    if s'.reqs[r].pc.AddPackage? { AbsentThen(h, s.log, call.name); }
    if s.reqs[r].pc.AddPackage? && call.name in Replay(s.log) { LostPackageRace(h, s.log, call); }
  }

  /** Request `r` moved on, or was decided without an Internal answer. */
  ghost predicate MovedOrDecided(s: State, s': State, r: nat)
    requires r < |s.reqs|
  {
    && r < |s'.reqs| && s.log <= s'.log && s'.reqs[r].call == s.reqs[r].call
    && !s'.reqs[r].pc.AddPackage? && !s'.reqs[r].pc.Store? && !s'.reqs[r].pc.AddVersion?
    && (s'.reqs[r].pc.Done? ==> s'.reqs[r].lin.Some? && s'.reqs[r].pc.answer != Rejected(Internal))
  }

  lemma DeleteDecides(cfg: Config, s: State, r: nat)
    requires r < |s.reqs| && s.reqs[r].call.Delete? && DeleteStep(cfg, s, r, false).Some?
    ensures MovedOrDecided(s, DeleteStep(cfg, s, r, false).value, r)
  {}

  lemma DownloadDecides(cfg: Config, s: State, r: nat, n: nat)
    requires r < |s.reqs| && s.reqs[r].call.Download? && DownloadStep(cfg, s, r, n).Some?
    requires s.reqs[r].pc.ReadBlob? ==> s.reqs[r].lin.Some?
    ensures MovedOrDecided(s, DownloadStep(cfg, s, r, n).value, r)
  {}

  lemma ReadDecides(cfg: Config, s: State, r: nat)
    requires r < |s.reqs| && (s.reqs[r].call.Get? || s.reqs[r].call.List?) && ReadStep(cfg, s, r).Some?
    ensures MovedOrDecided(s, ReadStep(cfg, s, r).value, r)
  {}

  predicate Early(pc: Pc) {
    pc.Authenticate? || pc.Resolving? || pc.Validate? || pc.Connect?
  }

  lemma LateStep(cfg: Config, s: State, r: nat, n: nat, s': State)
    requires RequestsOk(cfg, s) && r < |s.reqs| && !Early(s.reqs[r].pc) && !s.reqs[r].call.Upload?
    requires StepOf(cfg, s, r, Proceed(n)) == Some(s')
    ensures MovedOrDecided(s, s', r)
  {
    hide RequestsOk, UploadStep, DeleteStep, DownloadStep, ReadStep, MovedOrDecided, Facts;
    RequestInOrder(cfg, s, r);
    match s.reqs[r].call
    case Delete(_, _, _) => DeleteDecides(cfg, s, r);
    case Download(_, _) => DownloadDecides(cfg, s, r, n);
    case _ => ReadDecides(cfg, s, r);
  }

  lemma EarlyStep(cfg: Config, h: History, s: State, r: nat, n: nat, s': State)
    requires r < |s.reqs| && Early(s.reqs[r].pc) && StepOf(cfg, s, r, Proceed(n)) == Some(s')
    requires OnTrack(cfg, h, s, r) && RequestsOk(cfg, s)
    ensures OnTrack(cfg, h, s', r)
  {
    hide RequestsOk, UploadStep, DeleteStep, DownloadStep, ReadStep, Facts, Fault, Overtaken, FreeOrOvertaken, PoolFull, Deserves;
    RequestInOrder(cfg, s, r);
    if Fault(cfg, s.reqs[r].call).Some? { TurnedAwayIff(cfg, s.reqs[r].call, Fault(cfg, s.reqs[r].call).value); }
  }

  lemma StepStaysOnTrack(cfg: Config, h: History, s: State, r: nat, n: nat, s': State)
    requires r < |s.reqs| && StepOf(cfg, s, r, Proceed(n)) == Some(s')
    requires OnTrack(cfg, h, s, r) && Inv(cfg, s)
    ensures OnTrack(cfg, h, s', r)
  {
    hide RequestsOk, NoClash, Holds, HistoryOk, FilesOk, CatalogStored, PoolOk, Facts, Overtaken, FreeOrOvertaken, Fault;
    hide UploadStep, DeleteStep, DownloadStep, ReadStep;
    RequestInOrder(cfg, s, r);
    if Early(s.reqs[r].pc) {
      EarlyStep(cfg, h, s, r, n, s');
    } else if s.reqs[r].call.Upload? {
      UploadStaysOnTrack(cfg, h, s, r, s');
    } else {
      LateStep(cfg, s, r, n, s');
    }
  }

  lemma {:induction false} RunStaysOnTrack(cfg: Config, h: History, s: State, r: nat, labels: seq<Label>)
    requires Run(cfg, s, labels).Some? && NoFaults(labels, r)
    requires OnTrack(cfg, h, s, r) && Inv(cfg, s)
    ensures OnTrack(cfg, h, Run(cfg, s, labels).value, r)
    decreases |labels|
  {
    hide Inv, Justified, FreeOrOvertaken, Replay, StepOf;
    if labels == [] {
    } else {
      var s1 := Next(cfg, s, labels[0]).value;
      NextKeeps(cfg, s, labels[0]);
      if labels[0].Step? && labels[0].request == r {
        StepStaysOnTrack(cfg, h, s, r, labels[0].outcome.n, s1);
      } else if labels[0].Step? {
        LogGrows(cfg, s, labels[0].request, labels[0].outcome, s1);
        OthersKeepOnTrack(cfg, h, s, s1, r, Entry(labels[0].request, Asked(cfg, s.reqs[labels[0].request].call)));
      } else {
        OthersKeepOnTrack(cfg, h, s, s1, r, Entry(0, ListAll));
      }
      RunStaysOnTrack(cfg, h, s1, r, labels[1..]);
    }
  }

  /**
   * The answers that need a fault, or a rival. If none of a request's own awaits
   * fails, then it is turned away for its credential or its input, or it takes
   * its place in the sequential history and is told so; the one exception is an
   * upload that is answered Internal, and only when since it started another
   * upload published this very version, or was the first to publish this package.
   */
  lemma FaultlessAnswers(cfg: Config, before: seq<Label>, s: State, r: nat, after: seq<Label>, s': State)
    requires Run(cfg, INITIAL, before) == Some(s) && Run(cfg, s, after) == Some(s')
    requires r < |s.reqs| && Unstarted(s.reqs[r].pc) && NoFaults(after, r)
    ensures r < |s'.reqs|
    ensures s'.reqs[r].pc.Done? ==> Justified(cfg, s.log, s'.log, s'.reqs[r])
  {
    hide Inv, Justified;
    EveryRunKeepsInv(cfg, before);
    RunStaysOnTrack(cfg, s.log, s, r, after);
  }

  // ---- requests that come with a key ----

  /** In this run from `s`, the key lookup of request `r` named somebody. */
  ghost predicate LookupNamed(cfg: Config, s: State, labels: seq<Label>, r: nat) {
    exists i :: 0 <= i < |labels| && labels[i].Step? && labels[i].request == r && labels[i].outcome.Proceed? && labels[i].outcome.n != 0
                && Run(cfg, s, labels[..i]).Some? && AtLookup(Run(cfg, s, labels[..i]).value, r)
  }

  predicate AtLookup(s: State, r: nat) {
    r < |s.reqs| && s.reqs[r].pc.Resolving?
  }

  /** Nothing but the key lookup has happened to request `r`, and it named nobody. */
  predicate Unnamed(s: State, r: nat) {
    && r < |s.reqs| && s.reqs[r].lin.None?
    && (s.reqs[r].pc in {Authenticate, Resolving} || s.reqs[r].pc in {Done(Unauthorized), Done(Rejected(Internal))})
  }

  /** Exactly when a request is told Unauthorized: when its key lookup names nobody. */
  lemma UnauthorizedIff(cfg: Config, s: State, r: nat, o: Outcome, s': State)
    requires r < |s.reqs| && StepOf(cfg, s, r, o) == Some(s') && |s'.reqs| == |s.reqs|
    ensures s'.reqs[r].pc == Done(Unauthorized) <==> s.reqs[r].pc.Resolving? && o == Proceed(0)
    ensures s.reqs[r].pc.Resolving? ==> s'.reqs[r].pc == (if o.Fail? then Done(Rejected(Internal)) else if o == Proceed(0) then Done(Unauthorized) else Validate)
    ensures s.reqs[r].pc.Authenticate? ==> s'.reqs[r].pc == (if o.Fail? then Done(Rejected(Internal)) else Resolving)
    ensures s.reqs[r].pc.Authenticate? || s.reqs[r].pc.Resolving? ==> s'.reqs[r].lin == s.reqs[r].lin && !o.LoseReply?
  {
    hide RowFor, Content, Fault, UploadFile, Committed, PackageReserved, VersionReserved, PoolFull;
  }

  lemma StaysUnnamed(cfg: Config, s: State, l: Label, r: nat)
    requires Unnamed(s, r) && Next(cfg, s, l).Some?
    requires !(l.Step? && l.request == r && l.outcome.Proceed? && l.outcome.n != 0 && AtLookup(s, r))
    ensures Unnamed(Next(cfg, s, l).value, r)
  {
    hide StepOf;
    if l.Step? {
      StepShape(cfg, s, l.request, l.outcome);
      if l.request == r { UnauthorizedIff(cfg, s, r, l.outcome, Next(cfg, s, l).value); }
    }
  }

  lemma NamedLater(cfg: Config, s: State, labels: seq<Label>, r: nat)
    requires labels != [] && Next(cfg, s, labels[0]).Some?
    requires LookupNamed(cfg, Next(cfg, s, labels[0]).value, labels[1..], r)
    ensures LookupNamed(cfg, s, labels, r)
  {
    hide Next, AtLookup;
    var s1, rest := Next(cfg, s, labels[0]).value, labels[1..];
    var i :| 0 <= i < |rest| && rest[i].Step? && rest[i].request == r && rest[i].outcome.Proceed? && rest[i].outcome.n != 0
             && Run(cfg, s1, rest[..i]).Some? && AtLookup(Run(cfg, s1, rest[..i]).value, r);
    assert labels[..i + 1][1..] == rest[..i];
    assert labels[i + 1] == rest[i];
  }

  lemma {:induction false} RunStaysUnnamed(cfg: Config, s: State, labels: seq<Label>, r: nat)
    requires Unnamed(s, r) && Run(cfg, s, labels).Some? && !LookupNamed(cfg, s, labels, r)
    ensures Unnamed(Run(cfg, s, labels).value, r)
    decreases |labels|
  {
    hide Next, Unnamed, AtLookup;
    if labels == [] {
    } else {
      var s1 := Next(cfg, s, labels[0]).value;
      assert Run(cfg, s, labels[..0]) == Some(s);
      StaysUnnamed(cfg, s, labels[0], r);
      if LookupNamed(cfg, s1, labels[1..], r) { NamedLater(cfg, s, labels, r); }
      RunStaysUnnamed(cfg, s1, labels[1..], r);
    }
  }

  /**
   * An upload or a delete that comes with a key gets nowhere unless the lookup of its
   * key names somebody: until then it is undecided, and is told Unauthorized or, for
   * a failure, Internal.
   */
  lemma KeyedRequestsNeedTheirKey(cfg: Config, s: State, call: Call, labels: seq<Label>)
    requires call.Upload? || call.Delete?
    requires Run(cfg, Next(cfg, s, Arrive(call, true)).value, labels).Some?
    requires !LookupNamed(cfg, Next(cfg, s, Arrive(call, true)).value, labels, |s.reqs|)
    ensures Unnamed(Run(cfg, Next(cfg, s, Arrive(call, true)).value, labels).value, |s.reqs|)
  {
    hide Run;
    RunStaysUnnamed(cfg, Next(cfg, s, Arrive(call, true)).value, labels, |s.reqs|);
  }
}
