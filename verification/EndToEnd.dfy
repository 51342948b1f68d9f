/**
 * From the bytes a client uploads to the bytes a client downloads, through the
 * tables and the files. The only hypothesis on SHA-256 is that it has no
 * collision among the contents that some `put` of the run was given.
 */
module EndToEnd {
  import opened Wrappers
  import opened Text
  import opened Storage
  import opened Registry
  import opened Tables
  import opened Protocol
  import opened Invariants
  import opened Preservation
  import opened Refinement
  import B = BlobFile

  type Files = map<Path, B.File>

  ghost predicate Given(files: Files, data: Bytes) {
    exists p, w :: p in files && w in files[p].writers && files[p].writers[w].data == data
  }

  ghost predicate NoCollisions(cfg: Config, files: Files) {
    forall d, e :: Given(files, d) && Given(files, e) && cfg.sha(d) == cfg.sha(e) ==> d == e
  }

  lemma FewerContentsFewerCollisions(cfg: Config, files: Files, files': Files)
    requires FilesGrow(files, files') && NoCollisions(cfg, files')
    ensures NoCollisions(cfg, files)
  {
    forall d | Given(files, d) ensures Given(files', d) {
      var p, w :| p in files && w in files[p].writers && files[p].writers[w].data == d;
      assert p in files' && w in files'[p].writers;
    }
  }

  // ---- every file is one content's file ----

  ghost predicate GenuineFor(cfg: Config, p: Path, f: B.File, content: Bytes) {
    BlobFileOf(cfg, content) == p && f.writers != map[] && B.Inv(content, f)
  }

  ghost predicate Genuine(cfg: Config, files: Files) {
    forall p :: p in files ==> exists content :: GenuineFor(cfg, p, files[p], content)
  }

  /** The file of a content some writer carries is genuine for that content. */
  lemma WriterTellsContent(cfg: Config, files: Files, p: Path, w: nat)
    requires Genuine(cfg, files) && p in files && w in files[p].writers
    ensures GenuineFor(cfg, p, files[p], files[p].writers[w].data)
  {
    var content :| GenuineFor(cfg, p, files[p], content);
    assert B.WriterOk(content, files[p].bytes.Some?, files[p].writers[w]);
  }

  lemma StoredIsGenuine(cfg: Config, files: Files, content: Bytes)
    requires Genuine(cfg, files) && Stored(cfg, files, content)
    ensures GenuineFor(cfg, BlobFileOf(cfg, content), files[BlobFileOf(cfg, content)], content)
  {
    var p := BlobFileOf(cfg, content);
    var w :| w in files[p].writers && files[p].writers[w].data == content;
    WriterTellsContent(cfg, files, p, w);
  }

  lemma RegisterStaysGenuine(cfg: Config, files: Files, p: Path, r: nat, data: Bytes)
    requires Genuine(cfg, files) && p == BlobFileOf(cfg, data)
    requires var f := if p in files then files[p] else B.ABSENT;
             r !in f.writers && NoCollisions(cfg, files[p := B.Register(f, r, data)])
    ensures var f := if p in files then files[p] else B.ABSENT;
            Genuine(cfg, files[p := B.Register(f, r, data)]) && (p in files ==> GenuineFor(cfg, p, f, data))
  {
    var f := if p in files then files[p] else B.ABSENT;
    var files' := files[p := B.Register(f, r, data)];
    assert B.Inv(data, B.ABSENT);
    if p in files {
      SameFileSameData(cfg, files, files', p, r, data);
    }
    B.ActKeepsInv(data, f, B.Begin(r, data));
    hide B.Inv, NoCollisions;
    assert GenuineFor(cfg, p, files'[p], data);
    forall q | q in files' ensures exists content :: GenuineFor(cfg, q, files'[q], content) {
      if q != p { assert files'[q] == files[q]; }
    }
  }

  lemma SameFileSameData(cfg: Config, files: Files, files': Files, p: Path, r: nat, data: Bytes)
    requires Genuine(cfg, files) && p in files && p in files' && p == BlobFileOf(cfg, data)
    requires r in files'[p].writers && files'[p].writers[r].data == data
    requires FilesGrow(files, files') && NoCollisions(cfg, files')
    ensures GenuineFor(cfg, p, files[p], data)
  {
    var content :| GenuineFor(cfg, p, files[p], content);
    var w :| w in files[p].writers;
    assert B.WriterOk(content, files[p].bytes.Some?, files[p].writers[w]);
    assert w in files'[p].writers && files'[p].writers[w].data == content;
    PathForInjective(cfg.root, cfg.sha(content), cfg.sha(data));
    assert Given(files', content) && Given(files', data);
  }

  lemma AdvanceStaysGenuine(cfg: Config, files: Files, p: Path, w: nat, n: nat)
    requires Genuine(cfg, files) && p in files && w in files[p].writers && B.Advance(files[p], w, n).Some?
    ensures Genuine(cfg, files[p := B.Advance(files[p], w, n).value])
  {
    var files' := files[p := B.Advance(files[p], w, n).value];
    var data := files[p].writers[w].data;
    WriterTellsContent(cfg, files, p, w);
    B.AdvanceKeepsInv(data, files[p], w, n);
    assert GenuineFor(cfg, p, files'[p], data);
    forall q | q in files' ensures exists content :: GenuineFor(cfg, q, files'[q], content) {
      if q != p { assert files'[q] == files[q]; }
    }
  }

  // ---- how one protocol step acts on the files ----

  datatype FileChange = Same | Begun(p: Path, r: nat, data: Bytes) | Moved(p: Path, w: nat, n: nat)

  ghost predicate Changes(cfg: Config, files: Files, files': Files, c: FileChange) {
    match c
    case Same => files' == files
    case Begun(p, r, data) =>
      var f := if p in files then files[p] else B.ABSENT;
      p == BlobFileOf(cfg, data) && r !in f.writers && files' == files[p := B.Register(f, r, data)]
    case Moved(p, w, n) =>
      && p in files && w in files[p].writers && B.Advance(files[p], w, n).Some?
      && files' == files[p := B.Advance(files[p], w, n).value]
  }

  lemma StepOnFiles(cfg: Config, s: State, l: Label) returns (c: FileChange)
    requires FilesOk(cfg, s) && Next(cfg, s, l).Some?
    ensures Changes(cfg, s.files, Next(cfg, s, l).value.files, c)
  {
    hide StepOf, FilesOk;
    match l
    case Arrive(_, _) => c := Same;
    case Step(r, o) =>
      StepFiles(cfg, s, r, o);
      if Next(cfg, s, l).value.files == s.files {
        c := Same;
      } else {
        NotYetRegistered(cfg, s, r);
        c := Begun(UploadFile(cfg, s.reqs[r].call), r, Content(cfg, s.reqs[r].call));
      }
    case Write(w, n) => c := Moved(UploadFile(cfg, s.reqs[w].call), w, n);
  }

  lemma NotYetRegistered(cfg: Config, s: State, r: nat)
    requires FilesOk(cfg, s) && r < |s.reqs| && s.reqs[r].pc.CheckVersion?
    ensures forall p :: p in s.files ==> r !in s.files[p].writers
  {
    forall p, w | p in s.files && w in s.files[p].writers ensures w != r {
      assert WriterOk(cfg, s, p, w);
    }
  }

  lemma ChangeGrows(cfg: Config, files: Files, files': Files, c: FileChange)
    requires Changes(cfg, files, files', c)
    ensures FilesGrow(files, files')
  {}

  lemma ChangeStaysGenuine(cfg: Config, files: Files, files': Files, c: FileChange)
    requires Genuine(cfg, files) && NoCollisions(cfg, files') && Changes(cfg, files, files', c)
    ensures Genuine(cfg, files')
  {
    match c
    case Same =>
    case Begun(p, r, data) => RegisterStaysGenuine(cfg, files, p, r, data);
    case Moved(p, w, n) => AdvanceStaysGenuine(cfg, files, p, w, n);
  }

  /** The file holds these bytes and nobody is about to truncate it. */
  ghost predicate Safe(cfg: Config, files: Files, content: Bytes) {
    BlobFileOf(cfg, content) in files && B.Durable(content, files[BlobFileOf(cfg, content)])
    && GenuineFor(cfg, BlobFileOf(cfg, content), files[BlobFileOf(cfg, content)], content)
  }

  lemma BeginStaysSafe(cfg: Config, files: Files, p: Path, r: nat, content: Bytes)
    requires Safe(cfg, files, content) && p == BlobFileOf(cfg, content) && r !in files[p].writers
    ensures Safe(cfg, files[p := B.Register(files[p], r, content)], content)
  {
    B.ActKeepsInv(content, files[p], B.Begin(r, content));
  }

  lemma SamePutSameContent(cfg: Config, files: Files, p: Path, content: Bytes, data: Bytes)
    requires p in files && GenuineFor(cfg, p, files[p], content) && GenuineFor(cfg, p, files[p], data)
    ensures content == data
  {
    var w :| w in files[p].writers;
    assert B.WriterOk(content, files[p].bytes.Some?, files[p].writers[w]);
    assert B.WriterOk(data, files[p].bytes.Some?, files[p].writers[w]);
  }

  lemma MoveStaysSafe(cfg: Config, files: Files, p: Path, w: nat, n: nat, content: Bytes)
    requires Safe(cfg, files, content) && p == BlobFileOf(cfg, content)
    requires w in files[p].writers && B.Advance(files[p], w, n).Some?
    ensures Safe(cfg, files[p := B.Advance(files[p], w, n).value], content)
  {
    hide B.Inv, B.Durable;
    B.AdvanceKeepsInv(content, files[p], w, n);
    B.AdvanceKeepsDurable(content, files[p], w, n);
  }

  lemma ChangeStaysSafe(cfg: Config, files: Files, files': Files, c: FileChange, content: Bytes)
    requires Safe(cfg, files, content) && Changes(cfg, files, files', c)
    requires Genuine(cfg, files) && NoCollisions(cfg, files')
    ensures Safe(cfg, files', content)
  {
    hide B.Inv, B.Durable, Genuine, NoCollisions, GenuineFor, B.Advance, B.Register;
    match c
    case Same =>
    case Begun(q, r, data) =>
      if q == BlobFileOf(cfg, content) {
        RegisterStaysGenuine(cfg, files, q, r, data);
        SamePutSameContent(cfg, files, q, content, data);
        BeginStaysSafe(cfg, files, q, r, content);
      }
    case Moved(q, w, n) =>
      if q == BlobFileOf(cfg, content) {
        MoveStaysSafe(cfg, files, q, w, n, content);
      }
  }

  // ---- downloads ----

  /** A download under way or answered: the registry's bytes for it, what it has read, and whether that is the answer. */
  datatype Reading = Reading(content: Bytes, got: Bytes, answered: bool)

  ghost function ReadingOf(s: State, i: nat): Option<Reading> {
    if i < |s.reqs| && s.reqs[i].lin.Some? && s.reqs[i].lin.value < |s.log| && ReplyAt(s.log, s.reqs[i].lin.value).Fetched? then
      var content := ReplyAt(s.log, s.reqs[i].lin.value).content;
      if s.reqs[i].pc.ReadBlob? then Some(Reading(content, s.reqs[i].pc.got, false))
      else if s.reqs[i].pc.Done? && s.reqs[i].pc.answer.Body? then Some(Reading(content, s.reqs[i].pc.answer.bytes, true))
      else None
    else None
  }

  /** One more read of the file as it is now, or end of file. */
  ghost predicate ReadsOn(bytes: Bytes, v: Reading, v': Reading) {
    && v'.content == v.content && !v.answered
    && if v'.answered then v'.got == v.got && |v.got| >= |bytes|
       else |v.got| < |v'.got| <= |bytes| && v'.got == v.got + bytes[|v.got|..|v'.got|]
  }

  ghost predicate ReadingMoves(cfg: Config, s: State, s': State, i: nat) {
    || ReadingOf(s', i).None?
    || ReadingOf(s', i) == ReadingOf(s, i)
    || (ReadingOf(s', i).value.got == [] && !ReadingOf(s', i).value.answered)
    || (ReadingOf(s, i).Some?
        && BlobFileOf(cfg, ReadingOf(s, i).value.content) in s.files
        && s.files[BlobFileOf(cfg, ReadingOf(s, i).value.content)].bytes.Some?
        && Stored(cfg, s.files, ReadingOf(s, i).value.content)
        && ReadsOn(s.files[BlobFileOf(cfg, ReadingOf(s, i).value.content)].bytes.value, ReadingOf(s, i).value, ReadingOf(s', i).value))
  }

  lemma DownloadReads(cfg: Config, s: State, r: nat, n: nat)
    requires RequestsOk(cfg, s) && r < |s.reqs| && s.reqs[r].call.Download? && s.reqs[r].pc.ReadBlob?
    requires DownloadStep(cfg, s, r, n).Some?
    ensures ReadingMoves(cfg, s, DownloadStep(cfg, s, r, n).value, r)
  {
    assert RequestOk(cfg, s, r, s.reqs[r]);
  }

  lemma OwnReading(cfg: Config, s: State, r: nat, o: Outcome)
    requires RequestsOk(cfg, s) && r < |s.reqs| && StepOf(cfg, s, r, o).Some?
    ensures ReadingMoves(cfg, s, StepOf(cfg, s, r, o).value, r)
  {
    hide ReadingMoves, DownloadStep, UploadStep, DeleteStep, ReadStep, Facts;
    var s' := StepOf(cfg, s, r, o).value;
    assert RequestOk(cfg, s, r, s.reqs[r]);
    var n := if o.Proceed? then o.n else 0;
    if s.reqs[r].pc.ReadBlob? && !o.Fail? {
      DownloadReads(cfg, s, r, n);
    } else {
      OtherSteps(cfg, s, r, o);
    }
  }

  lemma OtherSteps(cfg: Config, s: State, r: nat, o: Outcome)
    requires r < |s.reqs| && StepOf(cfg, s, r, o).Some? && (o.Fail? || !s.reqs[r].pc.ReadBlob?)
    ensures ReadingMoves(cfg, s, StepOf(cfg, s, r, o).value, r)
  {
    var pc' := StepOf(cfg, s, r, o).value.reqs[r].pc;
    assert pc'.Done? ==> !pc'.answer.Body?;
    assert pc'.ReadBlob? ==> pc'.got == [];
  }

  lemma ReadingOfOthers(s: State, s': State, i: nat)
    requires s.log <= s'.log && i < |s.reqs| && i < |s'.reqs| && s'.reqs[i] == s.reqs[i]
    requires s.reqs[i].lin.Some? ==> s.reqs[i].lin.value < |s.log|
    ensures ReadingOf(s', i) == ReadingOf(s, i)
  {
    if s.reqs[i].lin.Some? {
      ReplyInLongerHistory(s.log, s'.log, s.reqs[i].lin.value);
    }
  }

  lemma NextReading(cfg: Config, s: State, l: Label, i: nat)
    requires Inv(cfg, s) && Next(cfg, s, l).Some?
    ensures ReadingMoves(cfg, s, Next(cfg, s, l).value, i)
  {
    hide RequestsOk, NoClash, Holds, FilesOk, CatalogStored, PoolOk, StepOf;
    var s' := Next(cfg, s, l).value;
    if l.Step? && l.request == i {
      OwnReading(cfg, s, i, l.outcome);
    } else if i < |s.reqs| {
      if l.Step? { StepShape(cfg, s, l.request, l.outcome); }
      ReadingOfOthers(s, s', i);
    } else if l.Step? {
      StepShape(cfg, s, l.request, l.outcome);
    }
  }

  /** Every byte read so far is right or a hole, and no more than the content. */
  ghost predicate Sound(s: State, i: nat) {
    ReadingOf(s, i).Some? ==> B.RightOrHole(ReadingOf(s, i).value.content, ReadingOf(s, i).value.got)
  }

  /** As far as it went, this download of `content` read exactly `content`. */
  ghost predicate Exact(s: State, i: nat, content: Bytes) {
    ReadingOf(s, i).Some? && ReadingOf(s, i).value.content == content ==>
      && ReadingOf(s, i).value.got <= content
      && (ReadingOf(s, i).value.answered ==> ReadingOf(s, i).value.got == content)
  }

  lemma SoundStays(cfg: Config, s: State, s': State, i: nat)
    requires ReadingMoves(cfg, s, s', i) && Genuine(cfg, s.files) && Sound(s, i)
    ensures Sound(s', i)
  {
    hide Genuine;
    if ReadingOf(s, i).Some? && Stored(cfg, s.files, ReadingOf(s, i).value.content) {
      StoredIsGenuine(cfg, s.files, ReadingOf(s, i).value.content);
    }
  }

  lemma ExactStays(cfg: Config, s: State, s': State, i: nat, content: Bytes)
    requires ReadingMoves(cfg, s, s', i) && Safe(cfg, s.files, content) && Exact(s, i, content)
    ensures Exact(s', i, content)
  {
    hide B.Inv;
  }

  lemma {:induction false} RunStaysSound(cfg: Config, s: State, labels: seq<Label>, i: nat)
    requires Inv(cfg, s) && Genuine(cfg, s.files) && Sound(s, i)
    requires Run(cfg, s, labels).Some? && NoCollisions(cfg, Run(cfg, s, labels).value.files)
    ensures Genuine(cfg, Run(cfg, s, labels).value.files) && Sound(Run(cfg, s, labels).value, i)
    decreases |labels|
  {
    hide Inv, Genuine, Sound, NoCollisions, Next, FilesGrow;
    if labels == [] {
    } else {
      var s1 := Next(cfg, s, labels[0]).value;
      var c := OneStep(cfg, s, labels, i);
      SoundStays(cfg, s, s1, i);
      RunStaysSound(cfg, s1, labels[1..], i);
    }
  }

  lemma OneStep(cfg: Config, s: State, labels: seq<Label>, i: nat) returns (c: FileChange)
    requires Inv(cfg, s) && Genuine(cfg, s.files) && labels != []
    requires Run(cfg, s, labels).Some? && NoCollisions(cfg, Run(cfg, s, labels).value.files)
    ensures var s1 := Next(cfg, s, labels[0]).value;
            && Inv(cfg, s1) && Genuine(cfg, s1.files) && NoCollisions(cfg, s1.files)
            && ReadingMoves(cfg, s, s1, i) && Changes(cfg, s.files, s1.files, c)
  {
    hide RequestsOk, NoClash, Holds, HistoryOk, FilesOk, CatalogStored, PoolOk, Genuine, NoCollisions, Next, FilesGrow, Changes;
    var s1 := Next(cfg, s, labels[0]).value;
    NextKeeps(cfg, s, labels[0]);
    RunGrowsFiles(cfg, s1, labels[1..]);
    FewerContentsFewerCollisions(cfg, s1.files, Run(cfg, s, labels).value.files);
    c := StepOnFiles(cfg, s, labels[0]);
    ChangeStaysGenuine(cfg, s.files, s1.files, c);
    NextReading(cfg, s, labels[0], i);
  }

  lemma {:induction false} RunGrowsFiles(cfg: Config, s: State, labels: seq<Label>)
    requires Inv(cfg, s) && Run(cfg, s, labels).Some?
    ensures FilesGrow(s.files, Run(cfg, s, labels).value.files)
    decreases |labels|
  {
    hide RequestsOk, NoClash, Holds, HistoryOk, FilesOk, CatalogStored, PoolOk, Next, Changes;
    if labels == [] {
    } else {
      var s1 := Next(cfg, s, labels[0]).value;
      NextKeeps(cfg, s, labels[0]);
      var c := StepOnFiles(cfg, s, labels[0]);
      ChangeGrows(cfg, s.files, s1.files, c);
      RunGrowsFiles(cfg, s1, labels[1..]);
    }
  }

  lemma {:induction false} RunStaysExact(cfg: Config, s: State, labels: seq<Label>, i: nat, content: Bytes)
    requires Inv(cfg, s) && Genuine(cfg, s.files) && Safe(cfg, s.files, content) && Exact(s, i, content)
    requires Run(cfg, s, labels).Some? && NoCollisions(cfg, Run(cfg, s, labels).value.files)
    ensures Safe(cfg, Run(cfg, s, labels).value.files, content) && Exact(Run(cfg, s, labels).value, i, content)
    decreases |labels|
  {
    hide Inv, Genuine, Safe, Exact, NoCollisions, Next, Changes, ReadingMoves;
    if labels == [] {
    } else {
      var s1 := Next(cfg, s, labels[0]).value;
      var c := OneStep(cfg, s, labels, i);
      ChangeStaysSafe(cfg, s.files, s1.files, c, content);
      ExactStays(cfg, s, s1, i, content);
      RunStaysExact(cfg, s1, labels[1..], i, content);
    }
  }

  lemma GenuineInEveryRun(cfg: Config, labels: seq<Label>, s: State, i: nat)
    requires Run(cfg, INITIAL, labels) == Some(s) && NoCollisions(cfg, s.files)
    ensures Inv(cfg, s) && Genuine(cfg, s.files) && Sound(s, i)
  {
    hide RequestsOk, NoClash, Holds, HistoryOk, FilesOk, CatalogStored, PoolOk;
    InitialInv(cfg);
    EveryRunKeepsInv(cfg, labels);
    RunStaysSound(cfg, INITIAL, labels, i);
  }

  /** File `p` belongs to a content that some `put` was given. */
  ghost predicate Belongs(cfg: Config, files: Files, p: Path) {
    exists d :: Given(files, d) && BlobFileOf(cfg, d) == p
  }

  ghost predicate HasFile(cfg: Config, files: Files, d: Bytes) {
    BlobFileOf(cfg, d) in files && B.Inv(d, files[BlobFileOf(cfg, d)])
  }

  /**
   * In every run files and the contents given to `put` correspond one to one, and
   * each file obeys the last-truncator invariant for its content.
   */
  lemma FilesMatchContents(cfg: Config, labels: seq<Label>, s: State)
    requires Run(cfg, INITIAL, labels) == Some(s) && NoCollisions(cfg, s.files)
    ensures forall p :: p in s.files <==> Belongs(cfg, s.files, p)
    ensures forall d :: Given(s.files, d) ==> HasFile(cfg, s.files, d)
    ensures forall d, e :: Given(s.files, d) && Given(s.files, e) && BlobFileOf(cfg, d) == BlobFileOf(cfg, e) ==> d == e
  {
    hide Inv, NoCollisions, Genuine, Sound, Given, Belongs, HasFile, BlobFileOf;
    GenuineInEveryRun(cfg, labels, s, 0);
    forall d | Given(s.files, d) ensures HasFile(cfg, s.files, d) {
      GivenHasFile(cfg, s.files, d);
    }
    forall p ensures p in s.files <==> Belongs(cfg, s.files, p) {
      if p in s.files {
        var d := GivenContent(cfg, s.files, p);
      }
      if Belongs(cfg, s.files, p) { BelongsIsThere(cfg, s.files, p); }
    }
    forall d, e | Given(s.files, d) && Given(s.files, e) && BlobFileOf(cfg, d) == BlobFileOf(cfg, e) ensures d == e {
      OnlyOneContent(cfg, s.files, d, e);
    }
  }

  lemma GivenHasFile(cfg: Config, files: Files, d: Bytes)
    requires Genuine(cfg, files) && Given(files, d)
    ensures HasFile(cfg, files, d)
  {
    var p, w :| p in files && w in files[p].writers && files[p].writers[w].data == d;
    WriterTellsContent(cfg, files, p, w);
  }

  lemma BelongsIsThere(cfg: Config, files: Files, p: Path)
    requires Genuine(cfg, files) && Belongs(cfg, files, p)
    ensures p in files
  {
    hide Genuine;
    var d :| Given(files, d) && BlobFileOf(cfg, d) == p;
    GivenHasFile(cfg, files, d);
  }

  lemma OnlyOneContent(cfg: Config, files: Files, d: Bytes, e: Bytes)
    requires NoCollisions(cfg, files) && Given(files, d) && Given(files, e)
    ensures BlobFileOf(cfg, d) == BlobFileOf(cfg, e) ==> d == e
  {
    SameFileIffSameContent(cfg.root, cfg.sha, d, e);
  }

  lemma GivenContent(cfg: Config, files: Files, p: Path) returns (d: Bytes)
    requires Genuine(cfg, files) && p in files
    ensures Given(files, d) && BlobFileOf(cfg, d) == p && Belongs(cfg, files, p)
  {
    d :| GenuineFor(cfg, p, files[p], d);
    var w :| w in files[p].writers;
    assert B.WriterOk(d, files[p].bytes.Some?, files[p].writers[w]);
  }

  /**
   * In every run, whatever else is going on: a download that found its version is
   * answered only with bytes of that version, each of them right or a zero hole
   * and never more of them than were published.
   */
  lemma DownloadsAreRightOrHole(cfg: Config, labels: seq<Label>, s: State, d: nat)
    requires Run(cfg, INITIAL, labels) == Some(s) && NoCollisions(cfg, s.files)
    requires d < |s.reqs| && s.reqs[d].call.Download? && s.reqs[d].pc.Done? && s.reqs[d].pc.answer.Body?
    ensures s.reqs[d].lin.Some? && s.reqs[d].lin.value < |s.log| && ReplyAt(s.log, s.reqs[d].lin.value).Fetched?
    ensures B.RightOrHole(ReplyAt(s.log, s.reqs[d].lin.value).content, s.reqs[d].pc.answer.bytes)
  {
    hide RequestsOk, NoClash, Holds, HistoryOk, FilesOk, CatalogStored, PoolOk, Genuine;
    GenuineInEveryRun(cfg, labels, s, d);
    AnswerIsInOrder(cfg, s, d);
  }

  /** Request `d` has not begun to read its blob, or has not arrived. */
  ghost predicate NotReadingYet(s: State, d: nat) {
    d < |s.reqs| ==> !s.reqs[d].pc.ReadBlob? && !s.reqs[d].pc.Done?
  }

  lemma NotReadingIsExact(cfg: Config, s: State, d: nat, content: Bytes)
    requires RequestsOk(cfg, s) && NotReadingYet(s, d)
    ensures Exact(s, d, content)
    ensures d < |s.reqs| ==> s.reqs[d].lin.None?
  {
    if d < |s.reqs| { assert RequestOk(cfg, s, d, s.reqs[d]); }
  }

  /** A later decision of `d` takes a place after the history so far. */
  lemma DecidedAfter(cfg: Config, s: State, s': State, d: nat)
    requires HistoryOk(cfg, s) && HistoryOk(cfg, s') && s.log <= s'.log
    requires d < |s'.reqs| && s'.reqs[d].lin.Some? && (d < |s.reqs| ==> s.reqs[d].lin.None?)
    ensures |s.log| <= s'.reqs[d].lin.value < |s'.log|
  {
    assert forall k :: 0 <= k < |s.log| ==> s'.log[k] == s.log[k];
  }

  /**
   * End-to-end immutability. From a moment when a version is live and its file is
   * durable, every download of it that starts reading later is answered with
   * exactly the published bytes, or not served at all, for as long as nobody
   * unpublishes that version: no other upload, delete, failure or skipped write
   * can change it.
   */
  lemma DownloadsAreImmutable(cfg: Config, before: seq<Label>, s: State, after: seq<Label>, s': State,
                              name: string, version: string, content: Bytes, d: nat)
    requires Run(cfg, INITIAL, before) == Some(s) && Run(cfg, s, after) == Some(s') && NoCollisions(cfg, s'.files)
    requires Apply(Replay(s.log), Fetch(name, version)).1 == Fetched(content)
    requires BlobFileOf(cfg, content) in s.files && B.Durable(content, s.files[BlobFileOf(cfg, content)])
    requires forall k :: |s.log| <= k < |s'.log| && s'.log[k].op.Unpublish? && Touches(s'.log[k], name, version) ==>
               !ReplyAt(s'.log, k).Unpublished?
    requires NotReadingYet(s, d) && d < |s'.reqs| && s'.reqs[d].call == Download(name, version) && s'.reqs[d].pc.Done?
    ensures s'.reqs[d].pc.answer == Body(content) || Undecided(s'.reqs[d].pc.answer)
  {
    hide RequestsOk, NoClash, Holds, HistoryOk, FilesOk, CatalogStored, PoolOk, Genuine, NoCollisions, B.Durable, B.Inv, Safe;
    EveryRunKeepsInv(cfg, before);
    RunKeeps(cfg, s, after);
    RunGrowsFiles(cfg, s, after);
    FewerContentsFewerCollisions(cfg, s.files, s'.files);
    GenuineInEveryRun(cfg, before, s, d);
    LiveIsSafe(cfg, s, name, version, content);
    NotReadingIsExact(cfg, s, d, content);
    RunStaysExact(cfg, s, after, d, content);
    AnswerIsInOrder(cfg, s', d);
    if s'.reqs[d].lin.Some? {
      var k := s'.reqs[d].lin.value;
      ContinuationsKeep(cfg, before, s, after, s');
      DecidedAfter(cfg, s, s', d);
      LaterFetch(s.log, s'.log, k, name, version, content);
    }
  }

  lemma LaterFetch(h: History, h': History, k: nat, name: string, version: string, content: Bytes)
    requires h <= h' && |h| <= k < |h'| && h'[k].op == Fetch(name, version)
    requires Apply(Replay(h), Fetch(name, version)).1 == Fetched(content)
    requires forall j :: |h| <= j < |h'| && h'[j].op.Unpublish? && Touches(h'[j], name, version) ==> !ReplyAt(h', j).Unpublished?
    ensures ReplyAt(h', k) == Fetched(content)
  {
    var g := h'[..k];
    forall j | |h| <= j < |g| && g[j].op.Unpublish? && Touches(g[j], name, version) ensures !ReplyAt(g, j).Unpublished? {
      ReplyInLongerHistory(g, h', j);
      assert h'[j] == g[j];
    }
    FetchIsImmutable(h, g, name, version, content);
  }

  lemma LiveIsSafe(cfg: Config, s: State, name: string, version: string, content: Bytes)
    requires CatalogStored(cfg, s) && Genuine(cfg, s.files)
    requires Apply(Replay(s.log), Fetch(name, version)).1 == Fetched(content)
    requires BlobFileOf(cfg, content) in s.files && B.Durable(content, s.files[BlobFileOf(cfg, content)])
    ensures Safe(cfg, s.files, content)
  {
    assert Stored(cfg, s.files, Replay(s.log)[name].versions[version]);
    StoredIsGenuine(cfg, s.files, content);
  }

  /**
   * When a live version's file is durable: in particular as soon as no `put` of
   * its bytes is in flight and none was abandoned.
   */
  lemma SettledLiveFileIsDurable(cfg: Config, labels: seq<Label>, s: State, name: string, version: string, content: Bytes)
    requires Run(cfg, INITIAL, labels) == Some(s) && NoCollisions(cfg, s.files)
    requires Apply(Replay(s.log), Fetch(name, version)).1 == Fetched(content)
    ensures BlobFileOf(cfg, content) in s.files
    ensures B.Settled(s.files[BlobFileOf(cfg, content)]) ==> B.Durable(content, s.files[BlobFileOf(cfg, content)])
  {
    hide RequestsOk, NoClash, Holds, HistoryOk, FilesOk, PoolOk;
    GenuineInEveryRun(cfg, labels, s, 0);
    assert Stored(cfg, s.files, Replay(s.log)[name].versions[version]);
    StoredIsGenuine(cfg, s.files, content);
    if B.Settled(s.files[BlobFileOf(cfg, content)]) {
      B.SettledIsDurable(content, s.files[BlobFileOf(cfg, content)]);
    }
  }
}
