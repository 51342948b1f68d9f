/**
 * A run that shows what `EndToEnd` needs its condition for: an acknowledged
 * version is served as no bytes at all while a second upload of the same bytes,
 * under another name, is between creating the file and writing it.
 */
module Witness {
  import opened Wrappers
  import opened Text
  import opened Storage
  import opened Names
  import opened Registry
  import opened Tables
  import opened Protocol
  import opened Runs
  import Views
  import B = BlobFile

  const VERSION := "1"

  function Publishing(user: UserId, name: string, version: string, content: Bytes): Call {
    Upload(user, name, version, [Field(Some("file"), Some(content))])
  }

  // ---- an upload up to its `put` ----

  function Storing(cfg: Config, s: State, user: UserId, name: string, content: Bytes): State {
    var r := |s.reqs|;
    var call := Publishing(user, name, VERSION, content);
    var file := UploadFile(cfg, call);
    State(s.db,
          s.files[file := B.Register(if file in s.files then s.files[file] else B.ABSENT, r, Content(cfg, call))],
          s.reqs + [Request(call, Store(r), Tx(Some((name, PackageRow(r, user))), None), 0, None)],
          s.log)
  }

  ghost predicate NameIsFree(s: State, name: string) {
    && name !in s.db.packages && !PackageReserved(s, |s.reqs|, name)
    && (|s.reqs|, VERSION) !in s.db.versions
  }

  lemma GoodCall(cfg: Config, user: UserId, name: string, version: string, content: Bytes)
    requires IsPackageName(name) && VersionError(version).None? && |content| <= cfg.maxUpload
    ensures Fault(cfg, Publishing(user, name, version, content)).None?
    ensures Content(cfg, Publishing(user, name, version, content)) == content
  {
    AcceptedNames(name);
    var call := Publishing(user, name, version, content);
    assert FileOf(call.parts, cfg.maxUpload) == Success(content);
  }

  lemma FreeStays(s: State, name: string, q: Request)
    requires NameIsFree(s, name)
    ensures !PackageReserved(With(s, q), |s.reqs|, name)
  {}

  lemma UploadsToStore(cfg: Config, s0: State, a: seq<Label>, s: State, user: UserId, name: string, content: Bytes)
    returns (labels: seq<Label>)
    requires Run(cfg, s0, a) == Some(s) && |s.reqs| < 8 && NameIsFree(s, name)
    requires IsPackageName(name) && |content| <= cfg.maxUpload
    ensures Run(cfg, s0, labels) == Some(Storing(cfg, s, user, name, content))
  {
    hide Run, UploadFile, B.Register, PackageReserved, Fault, Content, Held;
    var r, call := |s.reqs|, Publishing(user, name, VERSION, content);
    GoodCall(cfg, user, name, VERSION, content);
    var q0 := Request(call, Validate, NO_TX, 0, None);
    var q1, q2, q3 := q0.(pc := Connect), q0.(pc := FindPackage), q0.(pc := AddPackage);
    var q4 := q0.(pc := CheckVersion(r), tx := Tx(Some((name, PackageRow(r, user))), None));
    Then(cfg, s0, a, s, Arrive(call, false), With(s, q0));
    labels := NewestGoes(cfg, s0, a + [Arrive(call, false)], s, q0, Proceed(0), q1);
    HeldAtMostAll(With(s, q1).reqs);
    labels := NewestGoes(cfg, s0, labels, s, q1, Proceed(0), q2);
    labels := NewestGoes(cfg, s0, labels, s, q2, Proceed(0), q3);
    FreeStays(s, name, q3);
    labels := NewestGoes(cfg, s0, labels, s, q3, Proceed(0), q4);
    assert (s.reqs + [q4])[r := q4.(pc := Store(r))] == s.reqs + [q4.(pc := Store(r))];
    Then(cfg, s0, labels, With(s, q4), Step(r, Proceed(0)), Storing(cfg, s, user, name, content));
    labels := labels + [Step(r, Proceed(0))];
  }

  // ---- the writers of one file ----

  /** Moves of the writers of one file, as steps of the protocol. */
  lemma {:induction false} FileMoves(cfg: Config, s0: State, a: seq<Label>, s: State, file: Path, f: B.File, moves: seq<(nat, nat)>, f': B.File)
    returns (labels: seq<Label>)
    requires Run(cfg, s0, a) == Some(s.(files := s.files[file := f]))
    requires forall i :: 0 <= i < |moves| ==> moves[i].0 < |s.reqs| && UploadFile(cfg, s.reqs[moves[i].0].call) == file
    requires B.Run(f, seq(|moves|, i requires 0 <= i < |moves| => B.Move(moves[i].0, moves[i].1))) == Some(f')
    ensures Run(cfg, s0, labels) == Some(s.(files := s.files[file := f']))
    decreases |moves|
  {
    hide Run, UploadFile, B.Act;
    labels := a;
    if moves == [] {
    } else {
      var actions := seq(|moves|, i requires 0 <= i < |moves| => B.Move(moves[i].0, moves[i].1));
      var (w, n) := moves[0];
      var g := B.Act(f, B.Move(w, n)).value;
      var rest := moves[1..];
      assert actions[1..] == seq(|rest|, i requires 0 <= i < |rest| => B.Move(rest[i].0, rest[i].1));
      var now := s.(files := s.files[file := f]);
      var next := s.(files := s.files[file := g]);
      assert now.files[file := g] == next.files;
      Then(cfg, s0, a, now, Write(w, n), next);
      labels := FileMoves(cfg, s0, a + [Write(w, n)], s, file, g, rest, f');
    }
  }

  /** Writer 0 has written everything; writer 1, having found no file, is about to create it. */
  function Dangerous(content: Bytes): B.File {
    B.File(Some(content), map[0 := B.Writer(content, B.Finished), 1 := B.Writer(content, B.Creating)], Some(0))
  }

  /** Writer 0 finishes while writer 1, which also found no file, has yet to create it. */
  lemma OneFinishes(f: B.File, content: Bytes, moves: seq<(nat, nat)>) returns (g: B.File)
    requires |content| == 1
    requires f == B.Register(B.Register(B.ABSENT, 0, content), 1, content)
    requires moves == [(0, 0), (1, 0), (0, 0), (0, 1), (0, 0)]
    ensures B.Run(f, seq(|moves|, i requires 0 <= i < |moves| => B.Move(moves[i].0, moves[i].1))) == Some(g)
    ensures g == Dangerous(content)
  {
    var actions := seq(|moves|, i requires 0 <= i < |moves| => B.Move(moves[i].0, moves[i].1));
    assert content[0..1] == content;
    assert B.WriteAt([], 0, content) == content;
    var f1 := B.MoveTo(f, 0, B.Creating);
    var f2 := B.MoveTo(f1, 1, B.Creating);
    var f3 := B.MoveTo(f2, 0, B.Writing(0)).(bytes := Some([]), last := Some(0));
    var f4 := B.MoveTo(f3, 0, B.Writing(1)).(bytes := Some(content));
    g := B.MoveTo(f4, 0, B.Finished);
    assert g.writers == map[0 := B.Writer(content, B.Finished), 1 := B.Writer(content, B.Creating)];
    B.RunThrough([f, f1, f2, f3, f4, g], actions);
  }

  // ---- the rest of an upload, and a download ----

  function Row(cfg: Config, user: UserId, content: Bytes): VersionRow {
    RowFor(cfg, user, content, 0)
  }

  /** Upload `r`, its `put` done and nobody else about to commit, inserts its version and commits. */
  lemma Commits(cfg: Config, s0: State, a: seq<Label>, s: State, r: nat, id: nat, user: UserId, name: string, version: string, content: Bytes)
    returns (labels: seq<Label>, s': State)
    requires Run(cfg, s0, a) == Some(s) && IsPackageName(name) && VersionError(version).None? && |content| <= cfg.maxUpload
    requires r < |s.reqs| && s.reqs[r] == Request(Publishing(user, name, version, content), Store(id), Tx(s.reqs[r].tx.package, None), 0, None)
    requires (id, version) !in s.db.versions && !VersionReserved(s, r, (id, version))
    requires var file := BlobFileOf(cfg, content);
             file in s.files && r in s.files[file].writers && s.files[file].writers[r].stage in {B.Finished, B.Skipped}
    ensures Run(cfg, s0, labels) == Some(s')
    ensures s'.files == s.files && |s'.reqs| == |s.reqs| && s'.reqs[r].tx == NO_TX
    ensures s'.reqs[r].pc == Done(Uploaded(Sha256Hex(cfg.sha, content), |content|))
    ensures forall i :: 0 <= i < |s.reqs| && i != r ==> s'.reqs[i] == s.reqs[i]
    ensures s'.db == Committed(s.db, Tx(s.reqs[r].tx.package, Some(((id, version), Row(cfg, user, content)))))
    ensures s'.log == s.log + [Entry(r, Publish(user, name, version, content))]
  {
    hide Run, Sha256Hex, RowFor, BlobFileOf, Fault, Content;
    GoodCall(cfg, user, name, version, content);
    var go := Step(r, Proceed(0));
    var q := s.reqs[r];
    var s1 := Set(s, r, q.(pc := AddVersion(id)));
    var s2 := Set(s1, r, q.(pc := Commit(id), tx := q.tx.(version := Some(((id, version), Row(cfg, user, content))))));
    Then(cfg, s0, a, s, go, s1);
    assert !VersionReserved(s1, r, (id, version));
    assert s1.reqs[r := s2.reqs[r]] == s2.reqs;
    Then(cfg, s0, a + [go], s1, go, s2);
    s' := Next(cfg, s2, go).value;
    Then(cfg, s0, a + [go] + [go], s2, go, s');
    labels := a + [go] + [go] + [go];
  }

  function BothStoring(cfg: Config, content: Bytes): State {
    Storing(cfg, Storing(cfg, INITIAL, 1, "a", content), 2, "b", content)
  }

  lemma FirstPutFinishes(cfg: Config, content: Bytes) returns (labels: seq<Label>)
    requires |content| == 1 <= cfg.maxUpload
    ensures var s := BothStoring(cfg, content);
            Run(cfg, INITIAL, labels) == Some(s.(files := s.files[BlobFileOf(cfg, content) := Dangerous(content)]))
  {
    hide Run, Next, Sha256Hex, BlobFileOf, Fault, Content, IsPackageName;
    var file := BlobFileOf(cfg, content);
    ShortNames();
    GoodCall(cfg, 1, "a", VERSION, content);
    GoodCall(cfg, 2, "b", VERSION, content);
    RunNothing(cfg, INITIAL);
    labels := UploadsToStore(cfg, INITIAL, [], INITIAL, 1, "a", content);
    labels := UploadsToStore(cfg, INITIAL, labels, Storing(cfg, INITIAL, 1, "a", content), 2, "b", content);
    var s := BothStoring(cfg, content);
    var f := B.Register(B.Register(B.ABSENT, 0, content), 1, content);
    assert s.files == s.files[file := f];
    var moves := [(0, 0), (1, 0), (0, 0), (0, 1), (0, 0)];
    var g := OneFinishes(f, content, moves);
    labels := FileMoves(cfg, INITIAL, labels, s, file, f, moves, g);
  }

  /**
   * The run: version 1 of `a` is published and acknowledged, nobody unpublishes
   * it, and a download of it that starts afterwards is answered with no bytes. The
   * hash plays no part: the upload of the same bytes under `b` has truncated the
   * file and is about to write it.
   */
  lemma AcknowledgedVersionServedEmpty(cfg: Config, content: Bytes) returns (labels: seq<Label>, s: State)
    requires |content| == 1 <= cfg.maxUpload
    ensures Run(cfg, INITIAL, labels) == Some(s)
    ensures |s.reqs| == 3
    ensures s.reqs[0].pc == Done(Uploaded(Sha256Hex(cfg.sha, content), 1))
    ensures s.log == [Entry(0, Publish(1, "a", VERSION, content)), Entry(2, Fetch("a", VERSION))]
    ensures ReplyAt(s.log, 1) == Fetched(content)
    ensures s.reqs[2].call == Download("a", VERSION) && s.reqs[2].pc == Done(Body([]))
  {
    hide Run, Next, Sha256Hex, PathFor, Fault, Content, IsPackageName, Held;
    var file := BlobFileOf(cfg, content);
    ShortNames();
    GoodCall(cfg, 1, "a", VERSION, content);
    GoodCall(cfg, 2, "b", VERSION, content);
    labels := FirstPutFinishes(cfg, content);
    var s3 := BothStoring(cfg, content);
    s3 := s3.(files := s3.files[file := Dangerous(content)]);
    var s4: State;
    labels, s4 := Commits(cfg, INITIAL, labels, s3, 0, 0, 1, "a", VERSION, content);
    assert s4.db == Tables(map["a" := PackageRow(0, 1)], map[(0, VERSION) := Row(cfg, 1, content)]);
    var empty := B.Advance(Dangerous(content), 1, 0).value;
    assert s4 == s4.(files := s4.files[file := Dangerous(content)]);
    labels := FileMoves(cfg, INITIAL, labels, s4, file, Dangerous(content), [(1, 0)], empty);
    var s5 := s4.(files := s4.files[file := empty]);
    GoodDownload(cfg, "a", VERSION);
    HeldAtMostAll(s5.reqs);
    labels, s := FreshDownload(cfg, INITIAL, labels, s5, "a", VERSION, []);
    Replies(s.log, content);
  }

  lemma ShortNames()
    ensures IsPackageName("a") && IsPackageName("b")
  {}

  lemma Replies(h: History, content: Bytes)
    requires h == [Entry(0, Publish(1, "a", VERSION, content)), Entry(2, Fetch("a", VERSION))]
    ensures ReplyAt(h, 1) == Fetched(content)
  {
    var first := Entry(0, Publish(1, "a", VERSION, content));
    assert h[..1] == [] + [first];
    ReplayExtend([], first);
  }

  // ---- a tie ----

  const NEXT_VERSION := "2"

  /** An upload of a further version of a package that is there, up to its `put`. */
  lemma NextVersionToStore(cfg: Config, s0: State, a: seq<Label>, s: State, id: nat, user: UserId, name: string, content: Bytes)
    returns (labels: seq<Label>, s': State)
    requires Run(cfg, s0, a) == Some(s) && |s.reqs| < 8 && IsPackageName(name) && |content| <= cfg.maxUpload
    requires name in s.db.packages && s.db.packages[name] == PackageRow(id, user) && (id, NEXT_VERSION) !in s.db.versions
    ensures Run(cfg, s0, labels) == Some(s')
    ensures var call := Publishing(user, name, NEXT_VERSION, content);
            var file := BlobFileOf(cfg, content);
            s' == With(s, Request(call, Store(id), NO_TX, 0, None))
                    .(files := s.files[file := B.Register(if file in s.files then s.files[file] else B.ABSENT, |s.reqs|, content)])
  {
    hide Run, BlobFileOf, B.Register, Fault, Content, Held;
    var r, call := |s.reqs|, Publishing(user, name, NEXT_VERSION, content);
    GoodCall(cfg, user, name, NEXT_VERSION, content);
    var q0 := Request(call, Validate, NO_TX, 0, None);
    var q1, q2, q3, q4 := q0.(pc := Connect), q0.(pc := FindPackage), q0.(pc := CheckVersion(id)), q0.(pc := Store(id));
    Then(cfg, s0, a, s, Arrive(call, false), With(s, q0));
    labels := NewestGoes(cfg, s0, a + [Arrive(call, false)], s, q0, Proceed(0), q1);
    HeldAtMostAll(With(s, q1).reqs);
    labels := NewestGoes(cfg, s0, labels, s, q1, Proceed(0), q2);
    labels := NewestGoes(cfg, s0, labels, s, q2, Proceed(0), q3);
    assert (s.reqs + [q3])[r := q4] == s.reqs + [q4];
    s' := Next(cfg, With(s, q3), Step(r, Proceed(0))).value;
    Then(cfg, s0, labels, With(s, q3), Step(r, Proceed(0)), s');
    labels := labels + [Step(r, Proceed(0))];
  }

  /** The only writer of an empty content creates its file and is done. */
  lemma EmptyPut(f: B.File, moves: seq<(nat, nat)>) returns (g: B.File)
    requires f == B.Register(B.ABSENT, 0, []) && moves == [(0, 0), (0, 0), (0, 0)]
    ensures B.Run(f, seq(|moves|, i requires 0 <= i < |moves| => B.Move(moves[i].0, moves[i].1))) == Some(g)
    ensures g.bytes == Some([]) && g.writers == map[0 := B.Writer([], B.Finished)]
  {
    var actions := seq(|moves|, i requires 0 <= i < |moves| => B.Move(moves[i].0, moves[i].1));
    var f1 := B.MoveTo(f, 0, B.Creating);
    var f2 := B.MoveTo(f1, 0, B.Writing(0)).(bytes := Some([]), last := Some(0));
    g := B.MoveTo(f2, 0, B.Finished);
    B.RunThrough([f, f1, f2, g], actions);
  }

  /** Version 1 of `a`, with no bytes, published by the only request. */
  lemma PublishesFirst(cfg: Config) returns (labels: seq<Label>, s: State)
    ensures Run(cfg, INITIAL, labels) == Some(s)
    ensures |s.reqs| == 1 && s.reqs[0].tx == NO_TX
    ensures s.db == Tables(map["a" := PackageRow(0, 1)], map[(0, VERSION) := Row(cfg, 1, [])])
    ensures s.log == [Entry(0, Publish(1, "a", VERSION, []))]
    ensures var file := BlobFileOf(cfg, []);
            file in s.files && s.files[file].bytes == Some([]) && s.files[file].writers.Keys == {0}
  {
    hide Run, Next, Sha256Hex, BlobFileOf, Fault, Content, IsPackageName;
    var file := BlobFileOf(cfg, []);
    ShortNames();
    GoodCall(cfg, 1, "a", VERSION, []);
    RunNothing(cfg, INITIAL);
    labels := UploadsToStore(cfg, INITIAL, [], INITIAL, 1, "a", []);
    var s1 := Storing(cfg, INITIAL, 1, "a", []);
    var f := B.Register(B.ABSENT, 0, []);
    assert s1.files == s1.files[file := f];
    var moves := [(0, 0), (0, 0), (0, 0)];
    var g := EmptyPut(f, moves);
    labels := FileMoves(cfg, INITIAL, labels, s1, file, f, moves, g);
    labels, s := Commits(cfg, INITIAL, labels, s1.(files := s1.files[file := g]), 0, 0, 1, "a", VERSION, []);
  }

  /** Version 2 of `a` follows, its transaction stamped with the same moment. */
  lemma PublishesSecond(cfg: Config) returns (labels: seq<Label>, s: State)
    ensures Run(cfg, INITIAL, labels) == Some(s)
    ensures s.db == Tables(map["a" := PackageRow(0, 1)], map[(0, VERSION) := Row(cfg, 1, []), (0, NEXT_VERSION) := Row(cfg, 1, [])])
    ensures s.log == [Entry(0, Publish(1, "a", VERSION, [])), Entry(1, Publish(1, "a", NEXT_VERSION, []))]
  {
    hide Run, Next, Sha256Hex, BlobFileOf, Fault, Content, IsPackageName;
    var file := BlobFileOf(cfg, []);
    ShortNames();
    GoodCall(cfg, 1, "a", NEXT_VERSION, []);
    var s1, s2: State;
    labels, s1 := PublishesFirst(cfg);
    labels, s2 := NextVersionToStore(cfg, INITIAL, labels, s1, 0, 1, "a", []);
    var f := B.Register(s1.files[file], 1, []);
    var g := Skips(f, [(1, 0)]);
    assert s2.files == s2.files[file := f];
    labels := FileMoves(cfg, INITIAL, labels, s2, file, f, [(1, 0)], g);
    var s3 := s2.(files := s2.files[file := g]);
    labels, s := Commits(cfg, INITIAL, labels, s3, 1, 0, 1, "a", NEXT_VERSION, []);
  }

  lemma Skips(f: B.File, moves: seq<(nat, nat)>) returns (g: B.File)
    requires 1 in f.writers && f.writers[1].stage.Checking? && f.bytes.Some? && moves == [(1, 0)]
    ensures B.Run(f, seq(|moves|, i requires 0 <= i < |moves| => B.Move(moves[i].0, moves[i].1))) == Some(g)
    ensures 1 in g.writers && g.writers[1].stage == B.Skipped
  {
    g := B.MoveTo(f, 1, B.Skipped);
    B.RunThrough([f, g], seq(|moves|, i requires 0 <= i < |moves| => B.Move(moves[i].0, moves[i].1)));
  }

  /**
   * A tied newest timestamp is reachable, with two uploads that do not even overlap:
   * `latest_version` may then be version 1 while the detail view lists version 2,
   * published later, first.
   */
  lemma ViewsCanDisagree(cfg: Config) returns (labels: seq<Label>, s: State)
    ensures Run(cfg, INITIAL, labels) == Some(s) && "a" in s.db.packages
    ensures s.log == [Entry(0, Publish(1, "a", VERSION, [])), Entry(1, Publish(1, "a", NEXT_VERSION, []))]
    ensures var rows := VersionsOf(s.db, s.db.packages["a"].id);
            && Views.NewestFirst(rows, [NEXT_VERSION, VERSION]) && Views.IsLatest(rows, Some(VERSION))
            && !Views.ViewsAgree(rows)
  {
    hide Run;
    labels, s := PublishesSecond(cfg);
    TiedRows(cfg, s.db);
  }

  lemma TiedRows(cfg: Config, db: Tables)
    requires db.versions == map[(0, VERSION) := Row(cfg, 1, []), (0, NEXT_VERSION) := Row(cfg, 1, [])]
    ensures var rows := VersionsOf(db, 0);
            && Views.NewestFirst(rows, [NEXT_VERSION, VERSION]) && Views.IsLatest(rows, Some(VERSION))
            && !Views.ViewsAgree(rows)
  {
    hide VersionsOf;
    var rows := VersionsOf(db, 0);
    Views.SelectedKeys(db, 0);
    assert VERSION in rows && NEXT_VERSION in rows;
    assert Views.NewestFirst(rows, [NEXT_VERSION, VERSION]);
    assert Views.IsLatest(rows, Some(VERSION));
    assert Views.Head([NEXT_VERSION, VERSION]) == Some(NEXT_VERSION);
  }
}
