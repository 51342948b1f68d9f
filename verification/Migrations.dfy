/**
 * The schema migration runner under any number of concurrent, crashing boots.
 *
 * A schema is any value and a migration any function on schemas. Each boot runs a
 * binary that carries some prefix of one master list. Nothing orders the boots:
 * the advisory lock that a comment mentions is not taken. What a transaction does
 * to the schema is private until its COMMIT, which installs the schema as the
 * transaction saw it; the primary key of the bookkeeping table is reserved by a
 * pending insert and a second inserter of the same name waits.
 */
module Migrations {
  import opened Wrappers

  datatype Migration<!S> = Migration(name: string, apply: S -> S)

  ghost predicate DuplicateFree<S>(master: seq<Migration<S>>) {
    forall i, j :: 0 <= i < j < |master| ==> master[i].name != master[j].name
  }

  function Names<S>(list: seq<Migration<S>>): set<string> {
    set i | 0 <= i < |list| :: list[i].name
  }

  /** The migrations of the list, in order, on a schema. */
  function Fold<S>(list: seq<Migration<S>>, s0: S): S {
    if list == [] then s0 else list[|list| - 1].apply(Fold(list[..|list| - 1], s0))
  }

  datatype Pc<!S> =
    | EnsureTable                   // CREATE TABLE IF NOT EXISTS
    | ReadApplied
    | Loop                          // at the head of the for loop
    | Execute                       // in a transaction, before the migration's SQL
    | Record(schema: S)             // SQL done; before the bookkeeping insert
    | Commit(schema: S)
    | Finished
    | Failed

  datatype Boot<!S> = Boot(length: nat, pc: Pc<S>, applied: set<string>, index: nat)

  /** `commits` and `authors` are history variables: list entries in the order they committed, and the boots that did. No step reads them. */
  datatype State<!S> = State(recorded: set<string>, schema: S, boots: seq<Boot<S>>, commits: seq<nat>, authors: seq<nat>)

  datatype Label = Start(length: nat) | Step(boot: nat) | Crash(boot: nat)

  predicate Pending<S>(master: seq<Migration<S>>, b: Boot<S>, name: string) {
    b.pc.Commit? && b.index < |master| && master[b.index].name == name
  }

  predicate NameReserved<S>(master: seq<Migration<S>>, s: State<S>, r: nat, name: string) {
    exists i :: 0 <= i < |s.boots| && i != r && Pending(master, s.boots[i], name)
  }

  function Put<S>(s: State<S>, r: nat, b: Boot<S>): State<S>
    requires r < |s.boots|
  {
    s.(boots := s.boots[r := b])
  }

  /** One statement of boot `r`, or None when it waits for another boot's pending insert. */
  function StepOf<S>(master: seq<Migration<S>>, s: State<S>, r: nat): Option<State<S>>
    requires r < |s.boots|
  {
    var b := s.boots[r];
    match b.pc
    case EnsureTable => Some(Put(s, r, b.(pc := ReadApplied)))
    case ReadApplied => Some(Put(s, r, b.(pc := Loop, applied := s.recorded, index := 0)))
    case Loop =>
      if b.index >= b.length || b.index >= |master| then Some(Put(s, r, b.(pc := Finished)))
      else if master[b.index].name in b.applied then Some(Put(s, r, b.(index := b.index + 1)))
      else Some(Put(s, r, b.(pc := Execute)))
    case Execute =>
      if b.index >= |master| then None
      else Some(Put(s, r, b.(pc := Record(master[b.index].apply(s.schema)))))
    case Record(schema) =>
      if b.index >= |master| then None
      else if master[b.index].name in s.recorded then Some(Put(s, r, b.(pc := Failed)))
      else if NameReserved(master, s, r, master[b.index].name) then None
      else Some(Put(s, r, b.(pc := Commit(schema))))
    case Commit(schema) =>
      if b.index >= |master| then None
      else Some(Put(s, r, b.(pc := Loop, index := b.index + 1))
                  .(recorded := s.recorded + {master[b.index].name}, schema := schema, commits := s.commits + [b.index], authors := s.authors + [r]))
    case _ => None
  }

  /** Any boot may die, or get an error, at any point; an open transaction rolls back. */
  function Next<S>(master: seq<Migration<S>>, s: State<S>, l: Label): Option<State<S>> {
    match l
    case Start(length) => if length <= |master| then Some(s.(boots := s.boots + [Boot(length, EnsureTable, {}, 0)])) else None
    case Step(r) => if r < |s.boots| then StepOf(master, s, r) else None
    case Crash(r) =>
      if r < |s.boots| && !s.boots[r].pc.Finished? then Some(Put(s, r, s.boots[r].(pc := Failed))) else None
  }

  function Run<S>(master: seq<Migration<S>>, s: State<S>, labels: seq<Label>): Option<State<S>>
    decreases |labels|
  {
    if labels == [] then Some(s)
    else
      match Next(master, s, labels[0])
      case None => None
      case Some(s') => Run(master, s', labels[1..])
  }

  function Initial<S>(s0: S): State<S> {
    State({}, s0, [], [], [])
  }

  // ---- the invariant ----

  /** How many list entries have been committed. */
  function Done<S>(s: State<S>): nat {
    |s.commits|
  }

  predicate InTransaction<S>(pc: Pc<S>) {
    pc.Execute? || pc.Record? || pc.Commit?
  }

  ghost predicate BootOk<S>(master: seq<Migration<S>>, s: State<S>, b: Boot<S>) {
    var k := Done(s);
    && b.length <= |master|
    && (b.pc.EnsureTable? || b.pc.ReadApplied? || b.pc.Failed? ||
        // everything before the loop index is recorded, and so is everything the snapshot saw
        (b.index <= k && b.index <= b.length && exists j :: 0 <= j <= k && j <= |master| && b.applied == Names(master[..j])))
    && (InTransaction(b.pc) ==> b.index < b.length && master[b.index].name !in b.applied)
    // a transaction that can still commit saw the schema of exactly the entries before it
    && ((b.pc.Record? || b.pc.Commit?) && b.index == k ==> b.pc.schema == master[k].apply(s.schema))
    && (b.pc.Commit? ==> b.index == k)
    && (b.pc.Finished? ==> b.index == b.length)
  }

  ghost predicate Inv<S>(master: seq<Migration<S>>, s0: S, s: State<S>) {
    var k := Done(s);
    && k <= |master|
    && (forall i :: 0 <= i < k ==> s.commits[i] == i)
    && s.recorded == Names(master[..k])
    && s.schema == Fold(master[..k], s0)
    && (forall r :: 0 <= r < |s.boots| ==> BootOk(master, s, s.boots[r]))
    && (forall i, j :: 0 <= i < j < |s.boots| ==> !(s.boots[i].pc.Commit? && s.boots[j].pc.Commit?))
  }

  lemma NamesOfPrefix<S>(master: seq<Migration<S>>, k: nat, i: nat)
    requires DuplicateFree(master) && k <= |master| && i < |master|
    ensures master[i].name in Names(master[..k]) <==> i < k
  {
    if i < k { assert master[..k][i].name == master[i].name; }
  }

  lemma OneMore<S>(master: seq<Migration<S>>, k: nat, s0: S)
    requires k < |master|
    ensures Names(master[..k + 1]) == Names(master[..k]) + {master[k].name}
    ensures Fold(master[..k + 1], s0) == master[k].apply(Fold(master[..k], s0))
  {
    var a, b := master[..k], master[..k + 1];
    assert b[..k] == a && b[k] == master[k];
    forall n ensures n in Names(b) <==> n in Names(a) + {master[k].name} {
      if n in Names(a) {
        var i :| 0 <= i < k && a[i].name == n;
        assert b[i].name == n;
      }
      if n == master[k].name { assert b[k].name == n; }
      if n in Names(b) {
        var i :| 0 <= i <= k && b[i].name == n;
        if i < k { assert a[i].name == n; }
      }
    }
  }

  /** A boot about to open a transaction, having skipped what its snapshot saw, is at or below the frontier. */
  lemma LoopStep<S>(master: seq<Migration<S>>, s: State<S>, b: Boot<S>)
    requires DuplicateFree(master) && b.pc.Loop? && BootOk(master, s, b) && Done(s) <= |master|
    requires b.index < b.length && master[b.index].name in b.applied
    ensures b.index < Done(s)
  {
    var j :| 0 <= j <= Done(s) && b.applied == Names(master[..j]);
    NamesOfPrefix(master, j, b.index);
  }

  lemma OtherBoots<S>(master: seq<Migration<S>>, s: State<S>, s': State<S>, r: nat)
    requires r < |s.boots| == |s'.boots| && s'.commits == s.commits && s'.schema == s.schema
    requires forall i :: 0 <= i < |s.boots| && i != r ==> s'.boots[i] == s.boots[i]
    requires forall i :: 0 <= i < |s.boots| ==> BootOk(master, s, s.boots[i])
    requires BootOk(master, s', s'.boots[r])
    ensures forall i :: 0 <= i < |s'.boots| ==> BootOk(master, s', s'.boots[i])
  {
    forall i | 0 <= i < |s'.boots| ensures BootOk(master, s', s'.boots[i]) {
      if i != r { assert BootOk(master, s, s.boots[i]); }
    }
  }

  lemma CommitKeeps<S>(master: seq<Migration<S>>, s0: S, s: State<S>, r: nat)
    requires DuplicateFree(master) && Inv(master, s0, s) && r < |s.boots| && s.boots[r].pc.Commit?
    ensures StepOf(master, s, r).Some? && Inv(master, s0, StepOf(master, s, r).value)
  {
    var b, k := s.boots[r], Done(s);
    assert BootOk(master, s, b);
    var s' := StepOf(master, s, r).value;
    OneMore(master, k, s0);
    forall i | 0 <= i < |s'.boots| ensures BootOk(master, s', s'.boots[i]) {
      assert BootOk(master, s, s.boots[i]);
    }
  }

  lemma RecordKeeps<S>(master: seq<Migration<S>>, s0: S, s: State<S>, r: nat)
    requires DuplicateFree(master) && Inv(master, s0, s) && r < |s.boots| && s.boots[r].pc.Record?
    requires StepOf(master, s, r).Some?
    ensures Inv(master, s0, StepOf(master, s, r).value)
  {
    var b, k := s.boots[r], Done(s);
    assert BootOk(master, s, b);
    var s' := StepOf(master, s, r).value;
    NamesOfPrefix(master, k, b.index);
    if s'.boots[r].pc.Commit? {
      forall i | 0 <= i < |s.boots| && i != r ensures !s.boots[i].pc.Commit? {
        assert BootOk(master, s, s.boots[i]);
        assert !Pending(master, s.boots[i], master[b.index].name);
      }
    }
    OtherBoots(master, s, s', r);
  }

  lemma StepKeeps<S>(master: seq<Migration<S>>, s0: S, s: State<S>, r: nat)
    requires DuplicateFree(master) && Inv(master, s0, s) && r < |s.boots| && StepOf(master, s, r).Some?
    ensures Inv(master, s0, StepOf(master, s, r).value)
  {
    var b := s.boots[r];
    assert BootOk(master, s, b);
    if b.pc.Commit? {
      CommitKeeps(master, s0, s, r);
    } else if b.pc.Record? {
      RecordKeeps(master, s0, s, r);
    } else {
      var s' := StepOf(master, s, r).value;
      if b.pc.Loop? && b.index < b.length && master[b.index].name in b.applied { LoopStep(master, s, b); }
      assert BootOk(master, s', s'.boots[r]);
      OtherBoots(master, s, s', r);
    }
  }

  lemma NextKeeps<S>(master: seq<Migration<S>>, s0: S, s: State<S>, l: Label)
    requires DuplicateFree(master) && Inv(master, s0, s) && Next(master, s, l).Some?
    ensures Inv(master, s0, Next(master, s, l).value)
  {
    match l
    case Step(r) => StepKeeps(master, s0, s, r);
    case Start(_) =>
      var s' := Next(master, s, l).value;
      forall i | 0 <= i < |s'.boots| ensures BootOk(master, s', s'.boots[i]) {
        if i < |s.boots| { assert BootOk(master, s, s.boots[i]); }
      }
    case Crash(r) =>
      assert BootOk(master, s, s.boots[r]);
      OtherBoots(master, s, Next(master, s, l).value, r);
  }

  lemma {:induction false} RunKeeps<S>(master: seq<Migration<S>>, s0: S, s: State<S>, labels: seq<Label>)
    requires DuplicateFree(master) && Inv(master, s0, s) && Run(master, s, labels).Some?
    ensures Inv(master, s0, Run(master, s, labels).value)
    decreases |labels|
  {
    if labels == [] {
    } else {
      NextKeeps(master, s0, s, labels[0]);
      RunKeeps(master, s0, Next(master, s, labels[0]).value, labels[1..]);
    }
  }

  /**
   * For any number of concurrent or crashing boots with binaries of any age: what
   * is recorded is always a prefix of the master list, the committed schema is the
   * in-order fold of exactly that prefix, and each entry of it committed once, in order.
   */
  lemma RecordedIsFoldedPrefix<S>(master: seq<Migration<S>>, s0: S, labels: seq<Label>, s: State<S>)
    requires DuplicateFree(master) && Run(master, Initial(s0), labels) == Some(s)
    ensures var k := |s.commits|;
            && k <= |master|
            && s.recorded == Names(master[..k]) && s.schema == Fold(master[..k], s0)
            && forall i :: 0 <= i < k ==> s.commits[i] == i
  {
    InitialInv(master, s0);
    RunKeeps(master, s0, Initial(s0), labels);
  }

  lemma InitialInv<S>(master: seq<Migration<S>>, s0: S)
    ensures Inv(master, s0, Initial(s0))
  {
    assert master[..0] == [];
    assert Names(master[..0]) == {};
  }

  lemma ReachableInv<S>(master: seq<Migration<S>>, s0: S, labels: seq<Label>, s: State<S>)
    requires DuplicateFree(master) && Run(master, Initial(s0), labels) == Some(s)
    ensures Inv(master, s0, s)
  {
    InitialInv(master, s0);
    RunKeeps(master, s0, Initial(s0), labels);
  }

  /**
   * Of two migration transactions in flight on different entries, the earlier entry
   * is already recorded: so at most one distinct entry can still commit.
   */
  lemma OneEntryCanCommit<S>(master: seq<Migration<S>>, s0: S, labels: seq<Label>, s: State<S>, r: nat, t: nat)
    requires DuplicateFree(master) && Run(master, Initial(s0), labels) == Some(s)
    requires r < |s.boots| && t < |s.boots| && InTransaction(s.boots[r].pc) && InTransaction(s.boots[t].pc)
    requires s.boots[r].index < s.boots[t].index
    ensures s.boots[r].index < |master| && master[s.boots[r].index].name in s.recorded
  {
    ReachableInv(master, s0, labels, s);
    assert BootOk(master, s, s.boots[r]) && BootOk(master, s, s.boots[t]);
    NamesOfPrefix(master, Done(s), s.boots[r].index);
  }

  /** What is recorded stays recorded and never commits again: later commits are of later entries. */
  lemma CommitsOnlyAdvance<S>(master: seq<Migration<S>>, s0: S, before: seq<Label>, s: State<S>, after: seq<Label>, s': State<S>)
    requires DuplicateFree(master) && Run(master, Initial(s0), before) == Some(s) && Run(master, s, after) == Some(s')
    ensures s.commits <= s'.commits && s.recorded <= s'.recorded
    ensures forall i :: |s.commits| <= i < |s'.commits| ==> s'.commits[i] < |master| && master[s'.commits[i]].name !in s.recorded
  {
    ReachableInv(master, s0, before, s);
    RunKeeps(master, s0, s, after);
    CommitsGrow(master, s, after);
    assert s.commits == s'.commits[..|s.commits|];
    forall n | n in s.recorded ensures n in s'.recorded {
      var i :| 0 <= i < Done(s) && master[..Done(s)][i].name == n;
      assert master[..Done(s')][i].name == n;
    }
    forall i | Done(s) <= i < Done(s') ensures master[i].name !in s.recorded {
      NamesOfPrefix(master, Done(s), i);
    }
  }

  lemma {:induction false} CommitsGrow<S>(master: seq<Migration<S>>, s: State<S>, labels: seq<Label>)
    requires Run(master, s, labels).Some?
    ensures s.commits <= Run(master, s, labels).value.commits
    decreases |labels|
  {
    if labels == [] {
    } else {
      CommitsGrow(master, Next(master, s, labels[0]).value, labels[1..]);
    }
  }

  /** A boot that returned Ok leaves its whole list recorded. */
  lemma FinishedBootIsRecorded<S>(master: seq<Migration<S>>, s0: S, labels: seq<Label>, s: State<S>, r: nat)
    requires DuplicateFree(master) && Run(master, Initial(s0), labels) == Some(s)
    requires r < |s.boots| && s.boots[r].pc.Finished?
    ensures s.boots[r].length <= |master| && Names(master[..s.boots[r].length]) <= s.recorded
  {
    ReachableInv(master, s0, labels, s);
    var b := s.boots[r];
    assert BootOk(master, s, b);
    forall n | n in Names(master[..b.length]) ensures n in s.recorded {
      var i :| 0 <= i < b.length && master[..b.length][i].name == n;
      NamesOfPrefix(master, Done(s), i);
    }
  }

  /** Boot `b` has nothing to do: it has yet to read what is recorded, or has read that all its list is. */
  ghost predicate Idle<S>(master: seq<Migration<S>>, b: Boot<S>) {
    && b.length <= |master|
    && (b.pc.EnsureTable? || b.pc.ReadApplied? || b.pc.Failed?
        || ((b.pc.Loop? || b.pc.Finished?) && Names(master[..b.length]) <= b.applied))
  }

  /** Once a list is recorded, a boot with that list or a shorter one changes nothing, whatever else runs. */
  lemma {:induction false} FurtherBootChangesNothing<S>(master: seq<Migration<S>>, s: State<S>, r: nat, labels: seq<Label>)
    requires r < |s.boots| && Idle(master, s.boots[r]) && Names(master[..s.boots[r].length]) <= s.recorded
    requires Run(master, s, labels).Some?
    ensures var s' := Run(master, s, labels).value; r < |s'.boots| && Idle(master, s'.boots[r])
    ensures forall i :: 0 <= i < |labels| && labels[i] == Step(r) ==>
              var t := Run(master, s, labels[..i]);
              t.Some? && Next(master, t.value, labels[i]).Some? && Untouched(t.value, Next(master, t.value, labels[i]).value)
    decreases |labels|
  {
    if labels == [] {
    } else {
      var s1 := Next(master, s, labels[0]).value;
      IdleStep(master, s, r, labels[0]);
      FurtherBootChangesNothing(master, s1, r, labels[1..]);
      forall i | 0 <= i < |labels| && labels[i] == Step(r)
        ensures var t := Run(master, s, labels[..i]);
                t.Some? && Next(master, t.value, labels[i]).Some? && Untouched(t.value, Next(master, t.value, labels[i]).value)
      {
        if i > 0 {
          assert labels[1..][i - 1] == labels[i];
          assert labels[..i][0] == labels[0] && labels[..i][1..] == labels[1..][..i - 1];
        }
      }
    }
  }

  ghost predicate Untouched<S>(s: State<S>, s': State<S>) {
    s'.recorded == s.recorded && s'.schema == s.schema && s'.commits == s.commits
  }

  lemma IdleStep<S>(master: seq<Migration<S>>, s: State<S>, r: nat, l: Label)
    requires r < |s.boots| && Idle(master, s.boots[r]) && Names(master[..s.boots[r].length]) <= s.recorded
    requires Next(master, s, l).Some?
    ensures var s' := Next(master, s, l).value;
            && r < |s'.boots| && Idle(master, s'.boots[r]) && s'.boots[r].length == s.boots[r].length
            && s.recorded <= s'.recorded
            && (l == Step(r) ==> Untouched(s, s'))
  {
    var b := s.boots[r];
    if l == Step(r) && b.pc.Loop? && b.index < b.length {
      assert master[..b.length][b.index].name in Names(master[..b.length]);
    }
  }

  /** Boots never deadlock on the bookkeeping key: one that waits is waiting for a boot that can commit. */
  lemma BootsDoNotDeadlock<S>(master: seq<Migration<S>>, s0: S, labels: seq<Label>, s: State<S>, r: nat) returns (t: nat)
    requires DuplicateFree(master) && Run(master, Initial(s0), labels) == Some(s)
    requires r < |s.boots| && !s.boots[r].pc.Finished? && !s.boots[r].pc.Failed?
    ensures t < |s.boots| && StepOf(master, s, t).Some?
  {
    ReachableInv(master, s0, labels, s);
    assert BootOk(master, s, s.boots[r]);
    t := r;
    if StepOf(master, s, r).None? {
      t :| 0 <= t < |s.boots| && t != r && Pending(master, s.boots[t], master[s.boots[r].index].name);
    }
  }

  // ---- when a boot fails, and when it finishes ----

  /** A boot's own statement fails exactly at the bookkeeping insert of an entry that is recorded already. */
  lemma StepFailsIff<S>(master: seq<Migration<S>>, s: State<S>, r: nat, s': State<S>)
    requires r < |s.boots| && StepOf(master, s, r) == Some(s')
    ensures r < |s'.boots|
    ensures s'.boots[r].pc.Failed? <==>
            s.boots[r].pc.Record? && s.boots[r].index < |master| && master[s.boots[r].index].name in s.recorded
  {}

  predicate Starting<S>(pc: Pc<S>) {
    pc.EnsureTable? || pc.ReadApplied?
  }

  /** Every commit is by a boot that has since moved past its entry. */
  ghost predicate Authored<S>(s: State<S>) {
    && |s.authors| == |s.commits|
    && forall k :: 0 <= k < |s.authors| ==>
         s.authors[k] < |s.boots| && !Starting(s.boots[s.authors[k]].pc) && s.commits[k] < s.boots[s.authors[k]].index
  }

  lemma NextIsAuthored<S>(master: seq<Migration<S>>, s: State<S>, l: Label)
    requires Authored(s) && Next(master, s, l).Some?
    ensures Authored(Next(master, s, l).value)
  {}

  lemma {:induction false} RunIsAuthored<S>(master: seq<Migration<S>>, s: State<S>, labels: seq<Label>)
    requires Authored(s) && Run(master, s, labels).Some?
    ensures Authored(Run(master, s, labels).value)
    decreases |labels|
  {
    hide Next, Authored;
    if labels == [] {
    } else {
      NextIsAuthored(master, s, labels[0]);
      RunIsAuthored(master, Next(master, s, labels[0]).value, labels[1..]);
    }
  }

  ghost predicate NoCrash(labels: seq<Label>, r: nat) {
    forall i :: 0 <= i < |labels| ==> labels[i] != Crash(r)
  }

  /** Boot `r` has read, or will read, at least the first `h` entries; if it failed, it was at an entry committed since. */
  ghost predicate OnCourse<S>(master: seq<Migration<S>>, h: nat, s: State<S>, r: nat) {
    && r < |s.boots| && h <= Done(s) && h <= |master|
    && var b := s.boots[r];
    match b.pc
    case EnsureTable => true
    case ReadApplied => true
    case Failed => h <= b.index < Done(s) && b.index < b.length
    case _ => Names(master[..h]) <= b.applied
  }

  lemma PrefixNames<S>(master: seq<Migration<S>>, h: nat, k: nat)
    requires h <= k <= |master|
    ensures Names(master[..h]) <= Names(master[..k])
  {
    forall n | n in Names(master[..h]) ensures n in Names(master[..k]) {
      var i :| 0 <= i < h && master[..h][i].name == n;
      assert master[..k][i].name == n;
    }
  }

  lemma NextOnCourse<S>(master: seq<Migration<S>>, s0: S, h: nat, s: State<S>, r: nat, l: Label)
    requires DuplicateFree(master) && Inv(master, s0, s) && OnCourse(master, h, s, r)
    requires Next(master, s, l).Some? && l != Crash(r)
    ensures OnCourse(master, h, Next(master, s, l).value, r)
  {
    hide Names;
    assert BootOk(master, s, s.boots[r]);
    PrefixNames(master, h, Done(s));
    var b := s.boots[r];
    if b.pc.Record? && l == Step(r) {
      NamesOfPrefix(master, h, b.index);
      NamesOfPrefix(master, Done(s), b.index);
    }
  }

  lemma {:induction false} RunOnCourse<S>(master: seq<Migration<S>>, s0: S, h: nat, s: State<S>, r: nat, labels: seq<Label>)
    requires DuplicateFree(master) && Inv(master, s0, s) && OnCourse(master, h, s, r)
    requires Run(master, s, labels).Some? && NoCrash(labels, r)
    ensures OnCourse(master, h, Run(master, s, labels).value, r)
    decreases |labels|
  {
    hide Inv, OnCourse, Next;
    if labels == [] {
    } else {
      NextOnCourse(master, s0, h, s, r, labels[0]);
      NextKeeps(master, s0, s, labels[0]);
      RunOnCourse(master, s0, h, Next(master, s, labels[0]).value, r, labels[1..]);
    }
  }

  /**
   * A boot that does not crash fails only for a race it lost: at an entry of its list
   * that another boot committed after this one had started.
   */
  lemma OnlyRivalsStopABoot<S>(master: seq<Migration<S>>, s0: S, before: seq<Label>, s: State<S>, r: nat, after: seq<Label>, s': State<S>)
    requires DuplicateFree(master) && Run(master, Initial(s0), before) == Some(s) && Run(master, s, after) == Some(s')
    requires r < |s.boots| && Starting(s.boots[r].pc) && NoCrash(after, r)
    ensures r < |s'.boots|
    ensures s'.boots[r].pc.Failed? ==>
              && s'.boots[r].index < s'.boots[r].length
              && exists k :: |s.commits| <= k < |s'.commits| && k < |s'.authors| && s'.commits[k] == s'.boots[r].index && s'.authors[k] != r
  {
    hide BootOk, Names, Fold;
    ReachableInv(master, s0, before, s);
    RunOnCourse(master, s0, Done(s), s, r, after);
    RunKeeps(master, s0, s, after);
    RunIsAuthored(master, Initial(s0), before);
    RunIsAuthored(master, s, after);
    if s'.boots[r].pc.Failed? {
      assert s'.commits[s'.boots[r].index] == s'.boots[r].index;
    }
  }

  /** How many statements a boot whose list is recorded has yet to run. */
  function Remaining<S>(b: Boot<S>): nat {
    match b.pc
    case EnsureTable => b.length + 3
    case ReadApplied => b.length + 2
    case Loop => if b.index <= b.length then b.length - b.index + 1 else 1
    case _ => 0
  }

  function StepsOf(labels: seq<Label>, r: nat): nat {
    if labels == [] then 0 else (if labels[0] == Step(r) then 1 else 0) + StepsOf(labels[1..], r)
  }

  /** Boot `b` only reads: it finds all its list recorded. */
  ghost predicate OnlyReads<S>(master: seq<Migration<S>>, b: Boot<S>) {
    Idle(master, b) && !b.pc.Failed? && (b.pc.Loop? ==> b.index <= b.length)
  }

  lemma ReadingStep<S>(master: seq<Migration<S>>, s: State<S>, r: nat, l: Label)
    requires r < |s.boots| && OnlyReads(master, s.boots[r]) && Names(master[..s.boots[r].length]) <= s.recorded
    requires Next(master, s, l).Some? && l != Crash(r)
    ensures var s' := Next(master, s, l).value;
            && r < |s'.boots| && OnlyReads(master, s'.boots[r]) && s'.boots[r].length == s.boots[r].length
            && s.recorded <= s'.recorded
            && Remaining(s.boots[r]) == Remaining(s'.boots[r]) + (if l == Step(r) then 1 else 0)
  {
    var b := s.boots[r];
    if l == Step(r) && b.pc.Loop? && b.index < b.length {
      assert master[..b.length][b.index].name in Names(master[..b.length]);
    }
  }

  lemma ReadingBootMoves<S>(master: seq<Migration<S>>, s: State<S>, r: nat)
    requires r < |s.boots| && OnlyReads(master, s.boots[r])
    ensures Remaining(s.boots[r]) == 0 <==> s.boots[r].pc.Finished?
    ensures !s.boots[r].pc.Finished? ==> StepOf(master, s, r).Some?
  {}

  lemma {:induction false} ReadingRun<S>(master: seq<Migration<S>>, s: State<S>, r: nat, labels: seq<Label>)
    requires r < |s.boots| && OnlyReads(master, s.boots[r]) && Names(master[..s.boots[r].length]) <= s.recorded
    requires Run(master, s, labels).Some? && NoCrash(labels, r)
    ensures var s' := Run(master, s, labels).value;
            && r < |s'.boots| && OnlyReads(master, s'.boots[r])
            && Remaining(s.boots[r]) == Remaining(s'.boots[r]) + StepsOf(labels, r)
    decreases |labels|
  {
    hide Next, OnlyReads, Remaining, Names;
    if labels == [] {
    } else {
      ReadingStep(master, s, r, labels[0]);
      ReadingRun(master, Next(master, s, labels[0]).value, r, labels[1..]);
    }
  }

  /**
   * A boot whose list is recorded before it reads the snapshot returns Ok, whatever
   * else runs: short of a crash it is never stopped and never waits, and it is
   * finished exactly when it has run its remaining statements, one for the snapshot,
   * one for each entry and one more.
   */
  lemma RecordedBootFinishes<S>(master: seq<Migration<S>>, s: State<S>, r: nat, labels: seq<Label>, s': State<S>)
    requires r < |s.boots| && Starting(s.boots[r].pc) && s.boots[r].length <= |master|
    requires Names(master[..s.boots[r].length]) <= s.recorded
    requires Run(master, s, labels) == Some(s') && NoCrash(labels, r)
    ensures r < |s'.boots| && !s'.boots[r].pc.Failed?
    ensures s'.boots[r].pc.Finished? <==> StepsOf(labels, r) == s.boots[r].length + if s.boots[r].pc.EnsureTable? then 3 else 2
    ensures !s'.boots[r].pc.Finished? ==> StepOf(master, s', r).Some?
  {
    ReadingRun(master, s, r, labels);
    ReadingBootMoves(master, s', r);
  }

  /** Boot `r` runs and no other boot is about to commit; it knows of every entry ahead of it that is recorded. */
  ghost predicate Unhindered<S>(master: seq<Migration<S>>, s: State<S>, r: nat) {
    && r < |s.boots| && !s.boots[r].pc.Failed? && s.boots[r].length <= |master|
    && (forall i :: 0 <= i < |s.boots| && i != r ==> !s.boots[i].pc.Commit?)
    && (!Starting(s.boots[r].pc) ==>
          forall i :: s.boots[r].index <= i < s.boots[r].length && master[i].name in s.recorded ==> master[i].name in s.boots[r].applied)
  }

  function Ahead<S>(b: Boot<S>): nat {
    var entries := if b.index <= b.length then b.length - b.index else 0;
    match b.pc
    case EnsureTable => 4 * b.length + 3
    case ReadApplied => 4 * b.length + 2
    case Loop => 4 * entries + 1
    case Execute => 4 * entries
    case Record(_) => 4 * entries - 1 + (if entries == 0 then 1 else 0)
    case Commit(_) => if entries == 0 then 0 else 4 * entries - 2
    case _ => 0
  }

  lemma UnhinderedStep<S>(master: seq<Migration<S>>, s0: S, s: State<S>, r: nat)
    requires DuplicateFree(master) && Inv(master, s0, s) && Unhindered(master, s, r) && !s.boots[r].pc.Finished?
    ensures StepOf(master, s, r).Some?
    ensures var s' := StepOf(master, s, r).value; Unhindered(master, s', r) && Ahead(s'.boots[r]) < Ahead(s.boots[r])
  {
    hide Names, Fold;
    assert BootOk(master, s, s.boots[r]);
  }

  lemma {:induction false} RunAlone<S>(master: seq<Migration<S>>, s0: S, s: State<S>, r: nat) returns (labels: seq<Label>)
    requires DuplicateFree(master) && Inv(master, s0, s) && Unhindered(master, s, r)
    ensures forall i :: 0 <= i < |labels| ==> labels[i] == Step(r)
    ensures Run(master, s, labels).Some? && r < |Run(master, s, labels).value.boots| && Run(master, s, labels).value.boots[r].pc.Finished?
    ensures Run(master, s, labels).value.boots[r].length == s.boots[r].length
    decreases Ahead(s.boots[r])
  {
    hide Inv, Unhindered, Ahead;
    InRange(master, s, r);
    if s.boots[r].pc.Finished? {
      labels := [];
    } else {
      UnhinderedStep(master, s0, s, r);
      NextKeeps(master, s0, s, Step(r));
      var rest := RunAlone(master, s0, StepOf(master, s, r).value, r);
      labels := [Step(r)] + rest;
      assert labels[1..] == rest;
    }
  }

  lemma InRange<S>(master: seq<Migration<S>>, s: State<S>, r: nat)
    requires Unhindered(master, s, r)
    ensures r < |s.boots|
  {}

  /** `labels`, all of them statements of boot `r`, lead to a state in which it is finished with its whole list recorded. */
  ghost predicate FinishesBy<S>(master: seq<Migration<S>>, s: State<S>, r: nat, labels: seq<Label>) {
    && r < |s.boots| && s.boots[r].length <= |master|
    && (forall i :: 0 <= i < |labels| ==> labels[i] == Step(r))
    && Run(master, s, labels).Some?
    && var s' := Run(master, s, labels).value;
    r < |s'.boots| && s'.boots[r].pc.Finished? && Names(master[..s.boots[r].length]) <= s'.recorded
  }

  /**
   * A boot that is not hindered finishes by its own statements alone, with its whole
   * list recorded: from any reachable state in which it has just started and nobody
   * else is about to commit.
   */
  lemma UnhinderedBootFinishes<S>(master: seq<Migration<S>>, s0: S, before: seq<Label>, s: State<S>, r: nat)
    requires DuplicateFree(master) && Run(master, Initial(s0), before) == Some(s)
    requires r < |s.boots| && Starting(s.boots[r].pc)
    requires forall i :: 0 <= i < |s.boots| ==> !s.boots[i].pc.Commit?
    ensures exists labels :: FinishesBy(master, s, r, labels)
  {
    hide Names, Fold;
    ReachableInv(master, s0, before, s);
    assert BootOk(master, s, s.boots[r]);
    var labels := RunAlone(master, s0, s, r);
    Onward(master, Initial(s0), before, labels);
    FinishedBootIsRecorded(master, s0, before + labels, Run(master, s, labels).value, r);
    assert FinishesBy(master, s, r, labels);
  }

  lemma {:induction false} Onward<S>(master: seq<Migration<S>>, s: State<S>, a: seq<Label>, b: seq<Label>)
    requires Run(master, s, a).Some?
    ensures Run(master, s, a + b) == Run(master, Run(master, s, a).value, b)
    decreases |a|
  {
    hide Next;
    if a == [] {
      assert a + b == b;
    } else {
      assert (a + b)[1..] == a[1..] + b;
      Onward(master, Next(master, s, a[0]).value, a[1..], b);
    }
  }

  // ---- the shipped list, and the runner with nobody else about ----

  const MIGRATION_NAMES := ["0001_init", "0002_api_keys"]

  lemma ShippedListIsDuplicateFree<S>(master: seq<Migration<S>>)
    requires |master| == |MIGRATION_NAMES| && forall i :: 0 <= i < |master| ==> master[i].name == MIGRATION_NAMES[i]
    ensures DuplicateFree(master)
  {
    assert "0001_init"[3] != "0002_api_keys"[3];
  }

  class Database<S> {
    var recorded: set<string>
    var schema: S

    constructor (s0: S)
      ensures recorded == {} && schema == s0
    {
      recorded, schema := {}, s0;
    }

    /**
     * Apply every pending entry in order. On success the whole list is recorded and
     * the schema is its fold, or what it was if a longer list had been applied; an
     * error, which needs a fault, leaves a longer or equal prefix behind.
     */
    method RunMigrations(list: seq<Migration<S>>, master: seq<Migration<S>>, s0: S, faulty: bool, ghost k: nat)
      returns (ok: bool, ghost reached: nat)
      requires DuplicateFree(master) && list <= master && k <= |master|
      requires recorded == Names(master[..k]) && schema == Fold(master[..k], s0)
      modifies this
      ensures k <= reached <= |master| && recorded == Names(master[..reached]) && schema == Fold(master[..reached], s0)
      ensures !ok ==> faulty
      ensures ok ==> reached == if k < |list| then |list| else k
    {
      hide Names, Fold, DuplicateFree;
      reached := k;
      var unread :| unread ==> faulty;
      if unread { return false, reached; }
      var applied := recorded;
      for i := 0 to |list|
        invariant reached == if k < i then i else k
        invariant recorded == Names(master[..reached]) && schema == Fold(master[..reached], s0)
      {
        NamesOfPrefix(master, k, i);
        if list[i].name in applied { continue; }
        var migrated := list[i].apply(schema);
        var rolledBack :| rolledBack ==> faulty;
        if rolledBack { return false, reached; }
        OneMore(master, i, s0);
        recorded, schema := recorded + {list[i].name}, migrated;
        reached := i + 1;
      }
      return true, reached;
    }
  }
}
