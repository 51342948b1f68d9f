/** Runs put together from shorter runs, and one request run from end to end. */
module Runs {
  import opened Wrappers
  import opened Text
  import opened Storage
  import opened Names
  import opened Registry
  import opened Tables
  import opened Protocol
  import opened Invariants
  import opened Progress

  lemma {:induction false} Onward(cfg: Config, s: State, a: seq<Label>, b: seq<Label>)
    requires Run(cfg, s, a).Some?
    ensures Run(cfg, s, a + b) == Run(cfg, Run(cfg, s, a).value, b)
    decreases |a|
  {
    hide Next;
    if a == [] {
      assert a + b == b;
    } else {
      assert (a + b)[1..] == a[1..] + b;
      Onward(cfg, Next(cfg, s, a[0]).value, a[1..], b);
    }
  }

  lemma RunNothing(cfg: Config, s: State)
    ensures Run(cfg, s, []) == Some(s)
  {}

  lemma Then(cfg: Config, s0: State, a: seq<Label>, s: State, l: Label, s': State)
    requires Run(cfg, s0, a) == Some(s) && Next(cfg, s, l) == Some(s')
    ensures Run(cfg, s0, a + [l]) == Some(s')
  {
    hide Next;
    Onward(cfg, s0, a, [l]);
    assert Run(cfg, s, [l]) == Run(cfg, s', []);
  }

  lemma {:induction false} HeldAtMostAll(reqs: seq<Request>)
    ensures Held(reqs) <= |reqs|
  {
    if reqs == [] {
    } else {
      HeldAtMostAll(reqs[1..]);
    }
  }

  // ---- the newest request ----

  function With(s: State, q: Request): State {
    s.(reqs := s.reqs + [q])
  }

  /** Request `q`, the newest, steps to `q'` and nothing else changes. */
  lemma NewestGoes(cfg: Config, s0: State, a: seq<Label>, s: State, q: Request, o: Outcome, q': Request) returns (labels: seq<Label>)
    requires Run(cfg, s0, a) == Some(With(s, q))
    requires StepOf(cfg, With(s, q), |s.reqs|, o) == Some(Set(With(s, q), |s.reqs|, q'))
    ensures Run(cfg, s0, labels) == Some(With(s, q'))
  {
    hide StepOf;
    labels := a + [Step(|s.reqs|, o)];
    assert (s.reqs + [q])[|s.reqs| := q'] == s.reqs + [q'];
    Then(cfg, s0, a, With(s, q), Step(|s.reqs|, o), With(s, q'));
  }

  lemma GoodDownload(cfg: Config, name: string, version: string)
    requires IsPackageName(name) && VersionError(version).None?
    ensures Fault(cfg, Download(name, version)).None?
  {
    AcceptedNames(name);
  }

  /** What a download that finds these bytes has read, and its answer. */
  function Reader(s: State, name: string, version: string, pc: Pc): Request {
    Request(Download(name, version), pc, NO_TX, 0, Some(|s.log|))
  }

  /** A download that starts now, with nobody else moving, is answered with whatever its file holds. */
  lemma FreshDownload(cfg: Config, s0: State, a: seq<Label>, s: State, name: string, version: string, bytes: Bytes)
    returns (labels: seq<Label>, s': State)
    requires Run(cfg, s0, a) == Some(s) && !PoolFull(s) && Fault(cfg, Download(name, version)).None?
    requires name in s.db.packages && (s.db.packages[name].id, version) in s.db.versions
    requires var file := PathFor(cfg.root, s.db.versions[(s.db.packages[name].id, version)].sha256);
             file in s.files && s.files[file].bytes == Some(bytes)
    ensures Run(cfg, s0, labels) == Some(s')
    ensures s' == With(s, Reader(s, name, version, Done(Body(bytes)))).(log := s.log + [Entry(|s.reqs|, Fetch(name, version))])
  {
    hide Run, PathFor, Fault, Held;
    var r, call := |s.reqs|, Download(name, version);
    var sha256 := s.db.versions[(s.db.packages[name].id, version)].sha256;
    var q0 := Request(call, Validate, NO_TX, 0, None);
    var q1, q2 := q0.(pc := Connect), q0.(pc := FindBlob);
    Then(cfg, s0, a, s, Arrive(call, false), With(s, q0));
    labels := NewestGoes(cfg, s0, a + [Arrive(call, false)], s, q0, Proceed(0), q1);
    HeldAppend(s.reqs, q1);
    labels := NewestGoes(cfg, s0, labels, s, q1, Proceed(0), q2);
    var t := s.(log := s.log + [Entry(r, Fetch(name, version))]);
    var q3, q4 := Reader(s, name, version, ReadBlob(sha256, [])), Reader(s, name, version, ReadBlob(sha256, bytes));
    assert (s.reqs + [q2])[r := q3] == s.reqs + [q3];
    Then(cfg, s0, labels, With(s, q2), Step(r, Proceed(0)), With(t, q3));
    labels := labels + [Step(r, Proceed(0))];
    if bytes != [] {
      assert [] + bytes[0..0 + |bytes|] == bytes;
      labels := NewestGoes(cfg, s0, labels, t, q3, Proceed(|bytes|), q4);
    }
    var q5 := Reader(s, name, version, Done(Body(bytes)));
    labels := NewestGoes(cfg, s0, labels, t, q4, Proceed(0), q5);
    s' := With(t, q5);
  }

  /** Failing one request that holds a connection frees it, and changes neither tables, files nor history. */
  lemma FreeConnection(cfg: Config, s0: State, a: seq<Label>, s: State) returns (labels: seq<Label>, s': State)
    requires Run(cfg, s0, a) == Some(s) && PoolOk(s)
    ensures Run(cfg, s0, labels) == Some(s') && !PoolFull(s')
    ensures s' == s.(reqs := s'.reqs) && |s'.reqs| == |s.reqs|
    ensures forall i :: 0 <= i < |s.reqs| ==> s'.reqs[i].call == s.reqs[i].call
  {
    labels, s' := a, s;
    if PoolFull(s) {
      var h := SomeoneHolds(s.reqs);
      s' := Finish(s, h, Rejected(Internal));
      HeldUpdate(s.reqs, h, s'.reqs[h]);
      Then(cfg, s0, a, s, Step(h, Fail), s');
      labels := a + [Step(h, Fail)];
    }
  }
}
