/**
 * Exactly when clients can rely on a live version: `EndToEnd` has the condition
 * under which every later download is right; here it is shown to be the weakest.
 */
module Reliance {
  import opened Wrappers
  import opened Text
  import opened Storage
  import opened Registry
  import opened Tables
  import opened Protocol
  import opened Checks
  import opened Invariants
  import opened Preservation
  import opened Refinement
  import opened EndToEnd
  import opened Runs
  import B = BlobFile

  /** Nobody has unpublished this version between `s` and `s'`. */
  ghost predicate NotUnpublished(s: State, s': State, name: string, version: string) {
    forall k :: |s.log| <= k < |s'.log| && s'.log[k].op.Unpublish? && Touches(s'.log[k], name, version) ==>
      !ReplyAt(s'.log, k).Unpublished?
  }

  /** `after` leads from `s` to a state in which `d`, a download of this version that began to read after `s`, is answered. */
  ghost predicate LaterDownload(cfg: Config, s: State, after: seq<Label>, d: nat, name: string, version: string) {
    && Run(cfg, s, after).Some?
    && var s' := Run(cfg, s, after).value;
    && NoCollisions(cfg, s'.files) && NotUnpublished(s, s', name, version)
    && NotReadingYet(s, d) && d < |s'.reqs| && s'.reqs[d].call == Download(name, version) && s'.reqs[d].pc.Done?
  }

  ghost predicate ServedRight(cfg: Config, s: State, after: seq<Label>, d: nat, content: Bytes) {
    && Run(cfg, s, after).Some?
    && var s' := Run(cfg, s, after).value;
    && d < |s'.reqs| && s'.reqs[d].pc.Done?
    && (s'.reqs[d].pc.answer == Body(content) || Undecided(s'.reqs[d].pc.answer))
  }

  /** Whatever happens from `s` on, every later download of this version gets its bytes, or no decision. */
  ghost predicate AlwaysServed(cfg: Config, s: State, name: string, version: string, content: Bytes) {
    forall after, d: nat :: LaterDownload(cfg, s, after, d, name, version) ==> ServedRight(cfg, s, after, d, content)
  }

  /** An empty content cannot be served wrong: there is nothing to cut off. */
  lemma EmptyIsServed(cfg: Config, before: seq<Label>, s: State, after: seq<Label>, name: string, version: string, d: nat)
    requires Run(cfg, INITIAL, before) == Some(s) && LaterDownload(cfg, s, after, d, name, version)
    requires Apply(Replay(s.log), Fetch(name, version)).1 == Fetched([])
    ensures ServedRight(cfg, s, after, d, [])
  {
    hide RequestsOk, NoClash, Holds, HistoryOk, FilesOk, CatalogStored, PoolOk, NoCollisions;
    var s' := Run(cfg, s, after).value;
    EveryRunKeepsInv(cfg, before);
    RunKeeps(cfg, s, after);
    AnswerIsInOrder(cfg, s', d);
    if s'.reqs[d].lin.Some? {
      NotReadingIsExact(cfg, s, d, []);
      ContinuationsKeep(cfg, before, s, after, s');
      DecidedAfter(cfg, s, s', d);
      LaterFetch(s.log, s'.log, s'.reqs[d].lin.value, name, version, []);
      if s'.reqs[d].pc.answer.Body? {
        Onward(cfg, INITIAL, before, after);
        DownloadsAreRightOrHole(cfg, before + after, s', d);
      }
    }
  }

  // ---- the other half ----

  lemma LiveVersionIsNamed(cfg: Config, s: State, name: string, version: string)
    requires HistoryOk(cfg, s) && RequestsOk(cfg, s) && LiveContent(s.log, name, version).Some?
    ensures Fault(cfg, Download(name, version)).None?
  {
    var k := LiveWasPublished(s.log, name, version);
    EntriesAreAskedFor(cfg, s);
    assert AskedFor(cfg, s, k);
    PassesIff(cfg, Download(name, version));
  }

  /** What the lookup of a live version finds, and the file it leads to. */
  lemma LiveVersionIsFound(cfg: Config, s: State, name: string, version: string, content: Bytes)
    requires Inv(cfg, s) && Apply(Replay(s.log), Fetch(name, version)).1 == Fetched(content)
    ensures Fault(cfg, Download(name, version)).None?
    ensures name in s.db.packages && (s.db.packages[name].id, version) in s.db.versions
    ensures PathFor(cfg.root, s.db.versions[(s.db.packages[name].id, version)].sha256) == BlobFileOf(cfg, content)
    ensures Stored(cfg, s.files, content)
  {
    hide RequestsOk, NoClash, Holds, HistoryOk, FilesOk, PoolOk, Fault, Stored, PathFor;
    CatalogHoldsLiveContent(s.log, name, version);
    LiveVersionIsNamed(cfg, s, name, version);
    NamesAgree(cfg, Replay(s.log), s.db, name);
    LookupAgrees(cfg, Replay(s.log), s.db, name, version);
    assert Stored(cfg, s.files, Replay(s.log)[name].versions[version]);
  }

  lemma SameContents(cfg: Config, files: Files, files': Files)
    requires NoCollisions(cfg, files)
    requires forall d :: Given(files', d) ==> Given(files, d)
    ensures NoCollisions(cfg, files')
  {}

  lemma AdvanceGivesNothingNew(files: Files, p: Path, w: nat, n: nat, d: Bytes)
    requires p in files && w in files[p].writers && B.Advance(files[p], w, n).Some?
    requires Given(files[p := B.Advance(files[p], w, n).value], d)
    ensures Given(files, d)
  {
    var files' := files[p := B.Advance(files[p], w, n).value];
    var q, v :| q in files' && v in files'[q].writers && files'[q].writers[v].data == d;
    assert q in files && v in files[q].writers && files[q].writers[v].data == d;
  }

  /** A file that is not durable can be brought to hold something else: it does already, or a writer is about to truncate it. */
  lemma BreakFile(cfg: Config, s: State, content: Bytes) returns (labels: seq<Label>, s': State, bytes: Bytes)
    requires FilesOk(cfg, s) && NoCollisions(cfg, s.files) && Stored(cfg, s.files, content) && content != []
    requires !B.Durable(content, s.files[BlobFileOf(cfg, content)])
    ensures Run(cfg, s, labels) == Some(s') && s' == s.(files := s'.files) && NoCollisions(cfg, s'.files)
    ensures BlobFileOf(cfg, content) in s'.files && s'.files[BlobFileOf(cfg, content)].bytes == Some(bytes) && bytes != content
  {
    hide NoCollisions, UploadFile, Run;
    var p := BlobFileOf(cfg, content);
    RunNothing(cfg, s);
    labels, s', bytes := [], s, s.files[p].bytes.value;
    if bytes == content {
      var w :| w in s.files[p].writers && s.files[p].writers[w].stage.Creating?;
      assert WriterOk(cfg, s, p, w);
      bytes := [];
      s' := s.(files := s.files[p := B.Advance(s.files[p], w, 0).value]);
      Then(cfg, s, [], s, Write(w, 0), s');
      labels := [] + [Write(w, 0)];
      forall d | Given(s'.files, d) ensures Given(s.files, d) {
        AdvanceGivesNothingNew(s.files, p, w, 0, d);
      }
      SameContents(cfg, s.files, s'.files);
    }
  }

  /** A run after which a fresh download of a live version is answered with other bytes. */
  lemma ServedWrong(cfg: Config, s: State, name: string, version: string, content: Bytes) returns (after: seq<Label>)
    requires Inv(cfg, s) && NoCollisions(cfg, s.files)
    requires Apply(Replay(s.log), Fetch(name, version)).1 == Fetched(content) && content != []
    requires BlobFileOf(cfg, content) in s.files && !B.Durable(content, s.files[BlobFileOf(cfg, content)])
    ensures LaterDownload(cfg, s, after, |s.reqs|, name, version) && !ServedRight(cfg, s, after, |s.reqs|, content)
  {
    hide RequestsOk, NoClash, Holds, HistoryOk, FilesOk, CatalogStored, Held, NoCollisions, Run, BlobFileOf, PathFor, Fault, PoolFull, B.Durable;
    LiveVersionIsFound(cfg, s, name, version, content);
    var labels, s1, bytes := BreakFile(cfg, s, content);
    var more, s2 := FreeConnection(cfg, s, labels, s1);
    var s': State;
    after, s' := FreshDownload(cfg, s, more, s2, name, version, bytes);
  }

  /**
   * What clients can rely on, exactly: from a reachable state on, every later
   * download of a live version is right, whatever else happens short of a hash
   * collision or its own unpublish, if and only if the version is empty or its file
   * holds it in full and no writer has yet to truncate it.
   */
  lemma AlwaysServedIff(cfg: Config, before: seq<Label>, s: State, name: string, version: string, content: Bytes)
    requires Run(cfg, INITIAL, before) == Some(s) && NoCollisions(cfg, s.files)
    requires Apply(Replay(s.log), Fetch(name, version)).1 == Fetched(content)
    ensures BlobFileOf(cfg, content) in s.files
    ensures AlwaysServed(cfg, s, name, version, content)
            <==> content == [] || B.Durable(content, s.files[BlobFileOf(cfg, content)])
  {
    hide Inv, NoCollisions, BlobFileOf, B.Durable, LaterDownload, ServedRight;
    EveryRunKeepsInv(cfg, before);
    LiveVersionIsFound(cfg, s, name, version, content);
    if content == [] || B.Durable(content, s.files[BlobFileOf(cfg, content)]) {
      forall after, d: nat | LaterDownload(cfg, s, after, d, name, version) ensures ServedRight(cfg, s, after, d, content) {
        if content == [] {
          EmptyIsServed(cfg, before, s, after, name, version, d);
        } else {
          DurableIsServed(cfg, before, s, after, name, version, content, d);
        }
      }
    } else {
      var after := ServedWrong(cfg, s, name, version, content);
    }
  }

  lemma DurableIsServed(cfg: Config, before: seq<Label>, s: State, after: seq<Label>, name: string, version: string, content: Bytes, d: nat)
    requires Run(cfg, INITIAL, before) == Some(s) && LaterDownload(cfg, s, after, d, name, version)
    requires Apply(Replay(s.log), Fetch(name, version)).1 == Fetched(content)
    requires BlobFileOf(cfg, content) in s.files && B.Durable(content, s.files[BlobFileOf(cfg, content)])
    ensures ServedRight(cfg, s, after, d, content)
  {
    hide NoCollisions, B.Durable;
    DownloadsAreImmutable(cfg, before, s, after, Run(cfg, s, after).value, name, version, content, d);
  }
}
