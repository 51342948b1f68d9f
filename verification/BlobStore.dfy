/** The blob store object: one `put` and one `get` at a time. `BlobFile` has the concurrent story. */
module BlobStores {
  import opened Wrappers
  import opened Text
  import opened Storage
  import B = BlobFile

  datatype StoredBlob = StoredBlob(sha256: string, path: Path, size: nat)
  datatype IoError = IoError

  class BlobStore {
    const root: Path
    const sha: Hash
    var files: map<Path, Bytes>

    constructor (root: Path, sha: Hash)
      ensures this.root == root && this.sha == sha && files == map[]
    {
      this.root := root;
      this.sha := sha;
      files := map[];
    }

    function Dest(data: Bytes): Path {
      PathFor(root, Sha256Hex(sha, data))
    }

    /**
     * Hash and persist. A file that is already there is kept unread. On a `faulty`
     * disk an error can strike at any call and leaves at most a right prefix
     * behind. Left alone, the call is one run of the writer protocol in `BlobFile`,
     * given in `run`.
     */
    method Put(data: Bytes, faulty: bool) returns (r: Result<StoredBlob, IoError>, ghost run: seq<B.Action>)
      modifies this`files
      ensures r.Failure? ==> faulty
      ensures r.Success? ==> r.value == StoredBlob(Sha256Hex(sha, data), PathFor([], r.value.sha256), |data|)
      ensures Dest(data) in old(files) ==> r.Success? && files == old(files)
      ensures Dest(data) !in old(files) && r.Success? ==> files == old(files)[Dest(data) := data]
      ensures Dest(data) !in old(files) && r.Failure? ==>
                files == old(files)
                || exists n :: 0 <= n <= |data| && files == old(files)[Dest(data) := data[..n]]
      ensures var start := B.Register(B.ABSENT.(bytes := if Dest(data) in old(files) then Some(old(files)[Dest(data)]) else None), 0, data);
              && B.Run(start, run).Some?
              && B.Run(start, run).value.bytes == (if Dest(data) in files then Some(files[Dest(data)]) else None)
              && (r.Success? ==>
                    && 0 in B.Run(start, run).value.writers
                    && B.Run(start, run).value.writers[0].stage in {B.Finished, B.Skipped})
    {
      hide B.Run, B.Act, PathFor, Sha256Hex;
      var hex := Sha256Hex(sha, data);
      var dest := PathFor(root, hex);
      BlobPathRejoinsRoot(root, hex);
      var rel := StripPrefix(dest, root).value;
      ghost var start := B.Register(B.ABSENT.(bytes := if dest in files then Some(files[dest]) else None), 0, data);
      ghost var f := AfterCheck(start, data);
      run := [B.Move(0, 0)];
      B.RunThrough([start, f], run);
      if dest in files {
        return Success(StoredBlob(hex, rel, |data|)), run;
      }
      var noFile :| noFile ==> faulty;
      if noFile {
        return Failure(IoError), run;
      }
      files := files[dest := []];
      Creates(f, data);
      f := Extend(start, run, f, 0);
      run := run + [B.Move(0, 0)];
      var offset := 0;
      while offset < |data|
        invariant 0 <= offset <= |data|
        invariant files == old(files)[dest := data[..offset]]
        invariant B.Run(start, run) == Some(f)
        invariant f == Alone(Some(data[..offset]), data, B.Writing(offset), f.last)
      {
        var torn :| torn ==> faulty;
        if torn {
          return Failure(IoError), run;
        }
        var amount :| 1 <= amount <= |data| - offset;
        files := files[dest := B.WriteAt(files[dest], offset, data[offset..offset + amount])];
        WriteExtends(data, offset, amount);
        Writes(f, data, offset, amount);
        f := Extend(start, run, f, amount);
        run := run + [B.Move(0, amount)];
        offset := offset + amount;
      }
      assert data[..|data|] == data;
      var unflushed :| unflushed ==> faulty;
      if unflushed {
        return Failure(IoError), run;
      }
      Flushes(f, data);
      f := Extend(start, run, f, 0);
      run := run + [B.Move(0, 0)];
      return Success(StoredBlob(hex, rel, |data|)), run;
    }

    /** The stored bytes, or None when there is no file; any other read error is an error. */
    method Get(sha256: string, faulty: bool) returns (r: Result<Option<Bytes>, IoError>)
      ensures r.Failure? ==> faulty
      ensures r.Success? ==> (r.value.Some? <==> PathFor(root, sha256) in files)
      ensures r.Success? && r.value.Some? ==> r.value.value == files[PathFor(root, sha256)]
    {
      var path := PathFor(root, sha256);
      var unreadable :| unreadable ==> faulty;
      if unreadable {
        return Failure(IoError);
      }
      if path in files {
        return Success(Some(files[path]));
      }
      return Success(None);
    }

    /** What `put` stored is what `get` returns, and a second `put` of the same bytes changes nothing. */
    method PutThenGet(data: Bytes, faulty: bool) returns (r: Option<Bytes>, again: bool)
      requires Dest(data) !in files
      modifies this`files
      ensures !faulty ==> r.Some? && again
      ensures r.Some? ==> again && r.value == data
    {
      var blob, _ := Put(data, faulty);
      if blob.Failure? {
        return None, false;
      }
      label first:
      var second, _ := Put(data, faulty);
      assert files == old@first(files);
      var read := Get(blob.value.sha256, faulty);
      if read.Failure? {
        return None, false;
      }
      r := read.value;
      again := second.Success? && second.value == blob.value;
    }
  }

  // ---- the moves of a file's only writer ----

  function Alone(bytes: Option<Bytes>, data: Bytes, stage: B.Stage, last: Option<nat>): B.File {
    B.File(bytes, map[0 := B.Writer(data, stage)], last)
  }

  lemma AfterCheck(f: B.File, data: Bytes) returns (g: B.File)
    requires f == Alone(f.bytes, data, B.Checking, f.last)
    ensures B.Act(f, B.Move(0, 0)) == Some(g)
    ensures g == Alone(f.bytes, data, if f.bytes.Some? then B.Skipped else B.Creating, f.last)
  {
    g := B.Act(f, B.Move(0, 0)).value;
  }

  lemma Creates(f: B.File, data: Bytes)
    requires f == Alone(f.bytes, data, B.Creating, f.last)
    ensures B.Act(f, B.Move(0, 0)) == Some(Alone(Some([]), data, B.Writing(0), Some(0)))
  {
    assert B.Act(f, B.Move(0, 0)).value.writers == map[0 := B.Writer(data, B.Writing(0))];
  }

  lemma Writes(f: B.File, data: Bytes, offset: nat, amount: nat)
    requires 0 < amount && offset + amount <= |data|
    requires f == Alone(Some(data[..offset]), data, B.Writing(offset), f.last)
    ensures B.Act(f, B.Move(0, amount)) == Some(Alone(Some(data[..offset + amount]), data, B.Writing(offset + amount), f.last))
  {
    WriteExtends(data, offset, amount);
    assert B.Act(f, B.Move(0, amount)).value.writers == map[0 := B.Writer(data, B.Writing(offset + amount))];
  }

  lemma Flushes(f: B.File, data: Bytes)
    requires f == Alone(Some(data), data, B.Writing(|data|), f.last)
    ensures B.Act(f, B.Move(0, 0)) == Some(Alone(Some(data), data, B.Finished, f.last))
  {
    assert B.Act(f, B.Move(0, 0)).value.writers == map[0 := B.Writer(data, B.Finished)];
  }

  lemma WriteExtends(data: Bytes, offset: nat, amount: nat)
    requires offset + amount <= |data|
    ensures B.WriteAt(data[..offset], offset, data[offset..offset + amount]) == data[..offset + amount]
  {}

  /** One more move of the only writer extends a run. */
  lemma {:induction false} Extend(start: B.File, run: seq<B.Action>, f: B.File, amount: nat) returns (g: B.File)
    requires B.Run(start, run) == Some(f)
    requires B.Act(f, B.Move(0, amount)).Some?
    ensures B.Act(f, B.Move(0, amount)) == Some(g)
    ensures B.Run(start, run + [B.Move(0, amount)]) == Some(g)
    decreases |run|
  {
    g := B.Act(f, B.Move(0, amount)).value;
    var longer := run + [B.Move(0, amount)];
    if run == [] {
      assert longer[1..] == [];
    } else {
      var next := B.Act(start, run[0]).value;
      var _ := Extend(next, run[1..], f, amount);
      assert longer[1..] == run[1..] + [B.Move(0, amount)];
    }
  }
}
