/**
 * Content addressing: where a blob lives on disk.
 *
 * A path is its sequence of components, which is how `PathBuf::join` and
 * `strip_prefix` treat it. SHA-256 is a parameter: any function from bytes to
 * 32-byte digests.
 */
module Storage {
  import opened Wrappers
  import opened Text
  import Hex

  type Digest = d: Bytes | |d| == 32 witness seq(32, i => 0)
  type Hash = Bytes -> Digest
  type Path = seq<string>

  function Sha256Hex(sha: Hash, data: Bytes): (s: string)
    ensures |s| == 64
    ensures '/' !in s
  {
    Hex.Encode(sha(data))
  }

  function SplitPrefix(sha: string): (string, string) {
    if |sha| < 4 then ("xx", "xx") else (sha[0..2], sha[2..4])
  }

  function PathFor(root: Path, sha: string): Path {
    var (aa, bb) := SplitPrefix(sha);
    root + ["blobs", aa, bb, sha]
  }

  function StripPrefix(path: Path, root: Path): Option<Path> {
    if root <= path then Some(path[|root|..]) else None
  }

  /** The relative path as `put` reports it and the `blob_path` column stores it. */
  function BlobPath(sha: string): string {
    Join(PathFor([], sha))
  }

  /** Two digests share a file only when they are the same digest. */
  lemma PathForInjective(root: Path, a: Digest, b: Digest)
    requires PathFor(root, Hex.Encode(a)) == PathFor(root, Hex.Encode(b))
    ensures a == b
  {
    var p, q := PathFor(root, Hex.Encode(a)), PathFor(root, Hex.Encode(b));
    assert p[|p| - 1] == Hex.Encode(a) && q[|q| - 1] == Hex.Encode(b);
    Hex.EncodeInjective(a, b);
  }

  /** Files and contents correspond one to one wherever the hash has no collision. */
  lemma SameFileIffSameContent(root: Path, sha: Hash, a: Bytes, b: Bytes)
    requires sha(a) == sha(b) ==> a == b
    ensures PathFor(root, Sha256Hex(sha, a)) == PathFor(root, Sha256Hex(sha, b)) <==> a == b
  {
    if PathFor(root, Sha256Hex(sha, a)) == PathFor(root, Sha256Hex(sha, b)) {
      PathForInjective(root, sha(a), sha(b));
    }
  }

  /** Stripping the root never fails, and reading the stored text back under the root finds the file. */
  lemma BlobPathRejoinsRoot(root: Path, sha: string)
    requires '/' !in sha
    ensures StripPrefix(PathFor(root, sha), root) == Some(PathFor([], sha))
    ensures root + Split(BlobPath(sha)) == PathFor(root, sha)
  {
    var rel := PathFor([], sha);
    assert PathFor(root, sha) == root + rel;
    assert forall i :: 0 <= i < |rel| ==> '/' !in rel[i];
    SplitJoin(rel);
  }

  /**
   * Where a blob lives: under `blobs`, the directories are the two digits of the first
   * and of the second byte of the content's digest, and the file is named by all 64.
   */
  lemma PathOfContent(root: Path, sha: Hash, data: Bytes)
    ensures var p, hex := PathFor(root, Sha256Hex(sha, data)), Sha256Hex(sha, data);
            && Hex.Decode(hex) == Some(sha(data))
            && p == root + ["blobs", hex[0..2], hex[2..4], hex]
            && (forall i :: 0 <= i < 32 ==> Hex.IsDigit(hex[2 * i], sha(data)[i] / 16) && Hex.IsDigit(hex[2 * i + 1], sha(data)[i] % 16))
  {
    Hex.DecodeEncode(sha(data));
    forall i | 0 <= i < 32
      ensures Hex.IsDigit(Sha256Hex(sha, data)[2 * i], sha(data)[i] / 16) && Hex.IsDigit(Sha256Hex(sha, data)[2 * i + 1], sha(data)[i] % 16)
    {
      Hex.EncodeAt(sha(data), i);
    }
  }
}
