/**
 * One blob file under any number of concurrent `put` calls.
 *
 * Each call is a writer with a stage of its own; nothing orders two writers. A
 * call whose future was dropped, or whose process died, is a writer that takes
 * no further step (or only the step that was already handed to the thread
 * pool), so abandonment needs no step of its own. `last` is a history
 * variable: the writer that truncated the file most recently. No step reads it.
 */
module BlobFile {
  import opened Wrappers
  import opened Text

  datatype Stage = Checking | Creating | Writing(offset: nat) | Finished | Skipped
  datatype Writer = Writer(data: Bytes, stage: Stage)
  datatype File = File(bytes: Option<Bytes>, writers: map<nat, Writer>, last: Option<nat>)

  datatype Action = Begin(writer: nat, data: Bytes) | Move(writer: nat, amount: nat)

  const ABSENT := File(None, map[], None)

  function Zeros(n: nat): (z: Bytes)
    ensures |z| == n
    ensures forall i :: 0 <= i < n ==> z[i] == 0
  {
    seq(n, i => 0)
  }

  /** A write at an offset; the gap before an offset past the end reads as zeros. */
  function WriteAt(b: Bytes, offset: nat, chunk: Bytes): Bytes {
    var padded := if offset <= |b| then b else b + Zeros(offset - |b|);
    padded[..offset] + chunk + (if offset + |chunk| < |padded| then padded[offset + |chunk|..] else [])
  }

  /** At least one byte, at most what is left. */
  function Clamp(n: nat, left: nat): (k: nat)
    requires left > 0
    ensures 1 <= k <= left
  {
    if n == 0 then 1 else if n > left then left else n
  }

  function Register(f: File, w: nat, data: Bytes): File {
    f.(writers := f.writers[w := Writer(data, Checking)])
  }

  function MoveTo(f: File, w: nat, stage: Stage): File
    requires w in f.writers
  {
    f.(writers := f.writers[w := f.writers[w].(stage := stage)])
  }

  /** The next operating-system call of writer `w`; `amount` is how much one write transfers. */
  function Advance(f: File, w: nat, amount: nat): Option<File>
    requires w in f.writers
  {
    var data := f.writers[w].data;
    match f.writers[w].stage
    case Checking =>
      Some(MoveTo(f, w, if f.bytes.Some? then Skipped else Creating))
    case Creating =>
      Some(MoveTo(f, w, Writing(0)).(bytes := Some([]), last := Some(w)))
    case Writing(offset) =>
      if offset < |data| then
        var k := Clamp(amount, |data| - offset);
        var present := if f.bytes.Some? then f.bytes.value else [];
        Some(MoveTo(f, w, Writing(offset + k)).(bytes := Some(WriteAt(present, offset, data[offset..offset + k]))))
      else
        Some(MoveTo(f, w, Finished))
    case _ => None
  }

  function Act(f: File, a: Action): Option<File> {
    match a
    case Begin(w, data) => if w in f.writers then None else Some(Register(f, w, data))
    case Move(w, amount) => if w in f.writers then Advance(f, w, amount) else None
  }

  /** The file after a whole interleaving, or None when some action was not possible. */
  function Run(f: File, actions: seq<Action>): Option<File>
    decreases |actions|
  {
    if actions == [] then Some(f)
    else
      match Act(f, actions[0])
      case None => None
      case Some(g) => Run(g, actions[1..])
  }

  ghost predicate Carry(content: Bytes, actions: seq<Action>) {
    forall i :: 0 <= i < |actions| && actions[i].Begin? ==> actions[i].data == content
  }

  // ---- the last-truncator invariant ----

  ghost predicate RightOrHole(content: Bytes, b: Bytes) {
    && |b| <= |content|
    && forall i :: 0 <= i < |b| ==> b[i] == content[i] || b[i] == 0
  }

  ghost predicate LastHolds(content: Bytes, b: Bytes, stage: Stage) {
    match stage
    case Writing(offset) => offset <= |b| && offset <= |content| && b[..offset] == content[..offset]
    case Finished => b == content
    case _ => false
  }

  ghost predicate WriterOk(content: Bytes, present: bool, w: Writer) {
    && w.data == content
    && (w.stage.Writing? ==> w.stage.offset <= |content|)
    && (!present ==> w.stage.Checking? || w.stage.Creating?)
  }

  ghost predicate Inv(content: Bytes, f: File) {
    && (forall w :: w in f.writers ==> WriterOk(content, f.bytes.Some?, f.writers[w]))
    && (f.bytes.Some? <==> f.last.Some?)
    && (f.bytes.Some? ==> RightOrHole(content, f.bytes.value))
    && (f.last.Some? ==>
          && f.last.value in f.writers
          && LastHolds(content, f.bytes.value, f.writers[f.last.value].stage))
  }

  lemma WriteAtBytes(b: Bytes, offset: nat, chunk: Bytes)
    requires chunk != []
    ensures var b' := WriteAt(b, offset, chunk);
            && |b'| == (if offset + |chunk| < |b| then |b| else offset + |chunk|)
            && forall i :: 0 <= i < |b'| ==>
                 b'[i] == if offset <= i < offset + |chunk| then chunk[i - offset] else if i < |b| then b[i] else 0
  {}

  /**
   * Writing the right bytes at the writer's own offset keeps every byte right or a
   * hole, keeps a right prefix right, and extends one that reached the offset.
   */
  lemma WriteKeepsContent(content: Bytes, b: Bytes, offset: nat, k: nat, prefix: nat)
    requires RightOrHole(content, b)
    requires 0 < k && offset + k <= |content|
    requires prefix <= |b| && b[..prefix] == content[..prefix]
    ensures var b' := WriteAt(b, offset, content[offset..offset + k]);
            && RightOrHole(content, b')
            && offset + k <= |b'| && prefix <= |b'|
            && b'[..prefix] == content[..prefix]
            && (prefix == offset ==> b'[..offset + k] == content[..offset + k])
  {
    var chunk := content[offset..offset + k];
    var b' := WriteAt(b, offset, chunk);
    WriteAtBytes(b, offset, chunk);
    assert forall i :: 0 <= i < prefix ==> b[i] == content[i] by {
      forall i | 0 <= i < prefix ensures b[i] == content[i] {
        assert b[..prefix][i] == content[..prefix][i];
      }
    }
    assert forall i :: offset <= i < offset + k ==> b'[i] == content[i];
  }

  lemma AdvanceKeepsInv(content: Bytes, f: File, w: nat, amount: nat)
    requires Inv(content, f) && w in f.writers && Advance(f, w, amount).Some?
    ensures Inv(content, Advance(f, w, amount).value)
  {
    assert WriterOk(content, f.bytes.Some?, f.writers[w]);
    if f.writers[w].stage.Writing? && f.writers[w].stage.offset < |content| {
      WriteKeepsInv(content, f, w, amount);
    } else if f.writers[w].stage.Writing? && f.last == Some(w) {
      assert f.bytes.value == content;
    }
  }

  lemma WriteKeepsInv(content: Bytes, f: File, w: nat, amount: nat)
    requires Inv(content, f) && w in f.writers
    requires f.writers[w].stage.Writing? && f.writers[w].stage.offset < |content|
    ensures Advance(f, w, amount).Some? && Inv(content, Advance(f, w, amount).value)
  {
    var offset := f.writers[w].stage.offset;
    assert WriterOk(content, f.bytes.Some?, f.writers[w]);
    var k := Clamp(amount, |content| - offset);
    var b := f.bytes.value;
    var b' := WriteAt(b, offset, content[offset..offset + k]);
    var f' := MoveTo(f, w, Writing(offset + k)).(bytes := Some(b'));
    assert Advance(f, w, amount) == Some(f');
    var held := if f.writers[f.last.value].stage.Writing? then f.writers[f.last.value].stage.offset else |content|;
    WriteKeepsContent(content, b, offset, k, held);
    assert forall v :: v in f'.writers ==> WriterOk(content, true, f'.writers[v]);
    if held == |content| {
      assert b'[..held] == b' && content[..held] == content;
    }
  }

  /** Last-truncator theorem, one step: any action of any writer of this content keeps the invariant. */
  lemma ActKeepsInv(content: Bytes, f: File, a: Action)
    requires Inv(content, f) && Act(f, a).Some?
    requires a.Begin? ==> a.data == content
    ensures Inv(content, Act(f, a).value)
  {
    if a.Move? {
      AdvanceKeepsInv(content, f, a.writer, a.amount);
    }
  }

  /**
   * Last-truncator theorem over whole runs: whatever the interleaving, every byte
   * present is right or a zero hole, the file is never longer than the content,
   * and what the last truncator has written so far is right.
   */
  lemma {:induction false} RunKeepsInv(content: Bytes, f: File, actions: seq<Action>)
    requires Inv(content, f) && Carry(content, actions) && Run(f, actions).Some?
    ensures Inv(content, Run(f, actions).value)
    decreases |actions|
  {
    if actions == [] {
    } else {
      ActKeepsInv(content, f, actions[0]);
      RunKeepsInv(content, Act(f, actions[0]).value, actions[1..]);
    }
  }

  /** Once the last truncator has finished, the file is the content, whatever everyone else did or does. */
  lemma LastTruncatorFinished(content: Bytes, actions: seq<Action>)
    requires Carry(content, actions) && Run(ABSENT, actions).Some?
    ensures var f := Run(ABSENT, actions).value;
            && (f.bytes.Some? ==> RightOrHole(content, f.bytes.value))
            && (f.last.Some? && f.last.value in f.writers && f.writers[f.last.value].stage.Finished?
                ==> f.bytes == Some(content))
  {
    RunKeepsInv(content, ABSENT, actions);
  }

  // ---- when the file can be relied upon ----

  /** No writer is between its exists-check and its truncation. */
  ghost predicate NoPendingTruncation(f: File) {
    forall w :: w in f.writers ==> !f.writers[w].stage.Creating?
  }

  ghost predicate Durable(content: Bytes, f: File) {
    f.bytes == Some(content) && NoPendingTruncation(f)
  }

  ghost predicate AlwaysFull(content: Bytes, f: File) {
    forall actions :: Carry(content, actions) && Run(f, actions).Some? ==> Run(f, actions).value.bytes == Some(content)
  }

  lemma AdvanceKeepsDurable(content: Bytes, f: File, w: nat, amount: nat)
    requires Inv(content, f) && Durable(content, f) && w in f.writers && Advance(f, w, amount).Some?
    ensures Durable(content, Advance(f, w, amount).value)
  {
    var f' := Advance(f, w, amount).value;
    assert WriterOk(content, true, f.writers[w]);
    if f.writers[w].stage.Writing? && f.writers[w].stage.offset < |content| {
      var offset := f.writers[w].stage.offset;
      var k := Clamp(amount, |content| - offset);
      WriteKeepsContent(content, content, offset, k, |content|);
      assert content[..|content|] == content;
      assert f'.bytes.value[..|content|] == f'.bytes.value;
    }
  }

  lemma {:induction false} DurableStays(content: Bytes, f: File, actions: seq<Action>)
    requires Inv(content, f) && Durable(content, f) && Carry(content, actions) && Run(f, actions).Some?
    ensures Durable(content, Run(f, actions).value)
    decreases |actions|
  {
    if actions == [] {
    } else {
      if actions[0].Move? {
        AdvanceKeepsDurable(content, f, actions[0].writer, actions[0].amount);
      }
      ActKeepsInv(content, f, actions[0]);
      DurableStays(content, Act(f, actions[0]).value, actions[1..]);
    }
  }

  /**
   * Exactly when readers may rely on the file: it holds the content in every
   * continuation if and only if it holds it now and nobody has yet to truncate
   * (an empty content survives truncation).
   */
  lemma AlwaysFullIff(content: Bytes, f: File)
    requires Inv(content, f)
    ensures AlwaysFull(content, f) <==> f.bytes == Some(content) && (content == [] || NoPendingTruncation(f))
  {
    if AlwaysFull(content, f) {
      assert Run(f, []) == Some(f);
      forall w | w in f.writers && f.writers[w].stage.Creating? ensures content == [] {
        var truncate := [Move(w, 0)];
        assert Run(f, truncate) == Run(Act(f, truncate[0]).value, []);
        assert Run(f, truncate).value.bytes == Some([]);
      }
    }
    if f.bytes == Some(content) && (content == [] || NoPendingTruncation(f)) {
      forall actions | Carry(content, actions) && Run(f, actions).Some?
        ensures Run(f, actions).value.bytes == Some(content)
      {
        if content == [] {
          EmptyStays(f, actions);
        } else {
          DurableStays(content, f, actions);
        }
      }
    }
  }

  lemma {:induction false} EmptyStays(f: File, actions: seq<Action>)
    requires Inv([], f) && f.bytes == Some([]) && Carry([], actions) && Run(f, actions).Some?
    ensures Run(f, actions).value.bytes == Some([])
    decreases |actions|
  {
    if actions == [] {
    } else {
      ActKeepsInv([], f, actions[0]);
      EmptyStays(Act(f, actions[0]).value, actions[1..]);
    }
  }

  ghost predicate Settled(f: File) {
    f.bytes.Some? && forall w :: w in f.writers ==> f.writers[w].stage.Finished? || f.writers[w].stage.Skipped?
  }

  /** With no `put` in flight and none abandoned, the file is the content and stays so. */
  lemma SettledIsDurable(content: Bytes, f: File)
    requires Inv(content, f) && Settled(f)
    ensures Durable(content, f) && AlwaysFull(content, f)
  {
    assert f.writers[f.last.value].stage.Finished?;
    AlwaysFullIff(content, f);
  }

  // ---- what abandonment can cost ----

  ghost predicate Quiet(f: File, gone: set<nat>) {
    f.bytes.Some? && forall w :: w in f.writers && w !in gone ==>
      !f.writers[w].stage.Creating? && (f.writers[w].stage.Writing? ==> f.writers[w].stage.offset >= |f.writers[w].data|)
  }

  /**
   * When only abandoned writers still had bytes to write, the file never changes
   * again: every later `put` is skipped by the exists-check, so re-uploading
   * cannot repair a partial blob.
   */
  lemma {:induction false} QuietFileIsFrozen(f: File, gone: set<nat>, actions: seq<Action>)
    requires Quiet(f, gone) && gone <= f.writers.Keys && Run(f, actions).Some?
    requires forall i :: 0 <= i < |actions| && actions[i].Move? ==> actions[i].writer !in gone
    ensures Run(f, actions).value.bytes == f.bytes
    decreases |actions|
  {
    if actions == [] {
    } else {
      QuietFileIsFrozen(Act(f, actions[0]).value, gone, actions[1..]);
    }
  }

  /** `put` by writer 1 reports success while the file is, and stays, empty: writer 0 was abandoned after truncating. */
  lemma DedupCanReportALostBlob(content: Bytes, later: seq<Action>) returns (f: File)
    requires content != []
    requires forall i :: 0 <= i < |later| && later[i].Move? ==> later[i].writer != 0
    ensures Run(ABSENT, [Begin(0, content), Move(0, 0), Move(0, 0), Begin(1, content), Move(1, 0)]) == Some(f)
    ensures 1 in f.writers && f.writers[1].stage.Skipped? && f.bytes == Some([])
    ensures Run(f, later).Some? ==> Run(f, later).value.bytes == Some([])
  {
    var a := [Begin(0, content), Move(0, 0), Move(0, 0), Begin(1, content), Move(1, 0)];
    var f1 := Act(ABSENT, a[0]).value;
    var f2 := Act(f1, a[1]).value;
    var f3 := Act(f2, a[2]).value;
    var f4 := Act(f3, a[3]).value;
    f := Act(f4, a[4]).value;
    RunThrough([ABSENT, f1, f2, f3, f4, f], a);
    if Run(f, later).Some? {
      QuietFileIsFrozen(f, {0}, later);
    }
  }

  /** A finished upload's file is emptied by a second writer that passed the exists-check earlier. */
  lemma FinishedFileCanBeTruncated(content: Bytes) returns (before: File, after: File)
    requires |content| == 1
    ensures Run(ABSENT, [Begin(0, content), Begin(1, content), Move(0, 0), Move(1, 0), Move(0, 0), Move(0, 1), Move(0, 0)]) == Some(before)
    ensures 0 in before.writers && before.writers[0].stage.Finished? && before.bytes == Some(content)
    ensures Act(before, Move(1, 0)) == Some(after) && after.bytes == Some([])
  {
    var a := [Begin(0, content), Begin(1, content), Move(0, 0), Move(1, 0), Move(0, 0), Move(0, 1), Move(0, 0)];
    var f1 := Act(ABSENT, a[0]).value;
    var f2 := Act(f1, a[1]).value;
    var f3 := Act(f2, a[2]).value;
    var f4 := Act(f3, a[3]).value;
    var f5 := Act(f4, a[4]).value;
    assert content[0..1] == content;
    assert WriteAt([], 0, content) == content;
    var f6 := Act(f5, a[5]).value;
    before := Act(f6, a[6]).value;
    RunThrough([ABSENT, f1, f2, f3, f4, f5, f6, before], a);
    after := Act(before, Move(1, 0)).value;
  }

  lemma {:induction false} RunThrough(files: seq<File>, actions: seq<Action>)
    requires |files| == |actions| + 1
    requires forall i :: 0 <= i < |actions| ==> Act(files[i], actions[i]) == Some(files[i + 1])
    ensures Run(files[0], actions) == Some(files[|actions|])
  {
    if actions == [] {
    } else {
      assert Act(files[0], actions[0]) == Some(files[1]);
      RunThrough(files[1..], actions[1..]);
    }
  }
}
