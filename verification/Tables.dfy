/**
 * The `packages` and `package_versions` tables, the statements the handlers run
 * on them, and what it means for them to hold a catalog.
 *
 * Rows are kept under their unique keys. That no insert ever lands on a taken
 * key is not assumed here: `Invariants` proves it of the protocol.
 */
module Tables {
  import opened Text
  import opened Storage
  import opened Registry

  datatype PackageRow = PackageRow(id: nat, owner: UserId)
  datatype VersionRow = VersionRow(sha256: string, size: nat, blobPath: string, uploadedBy: UserId, uploadedAt: nat)

  type VersionKey = (nat, string)

  datatype Tables = Tables(packages: map<string, PackageRow>, versions: map<VersionKey, VersionRow>)

  /** `root`, the hash and the upload limit of one deployment. */
  datatype Config = Config(root: Path, sha: Hash, maxUpload: nat)

  function BlobFileOf(cfg: Config, content: Bytes): Path {
    PathFor(cfg.root, Sha256Hex(cfg.sha, content))
  }

  /** The row an upload inserts. */
  function RowFor(cfg: Config, user: UserId, content: Bytes, at: nat): VersionRow {
    var hex := Sha256Hex(cfg.sha, content);
    VersionRow(hex, |content|, BlobPath(hex), user, at)
  }

  function VersionsOf(t: Tables, id: nat): map<string, VersionRow> {
    map k | k in t.versions && k.0 == id :: k.1 := t.versions[k]
  }

  function InsertPackage(t: Tables, name: string, row: PackageRow): Tables {
    t.(packages := t.packages[name := row])
  }

  function InsertVersion(t: Tables, key: VersionKey, row: VersionRow): Tables {
    t.(versions := t.versions[key := row])
  }

  function RemoveRow(t: Tables, key: VersionKey): Tables {
    t.(versions := t.versions - {key})
  }

  // ---- the abstraction relation ----

  ghost predicate RowHolds(cfg: Config, owner: UserId, content: Bytes, row: VersionRow) {
    row == RowFor(cfg, owner, content, row.uploadedAt) && row.size <= cfg.maxUpload
  }

  ghost predicate IdsUnique(t: Tables) {
    forall m, n :: m in t.packages && n in t.packages && t.packages[m].id == t.packages[n].id ==> m == n
  }

  ghost predicate HasPackage(t: Tables, id: nat) {
    exists n :: n in t.packages && t.packages[n].id == id
  }

  /** `package_versions.package_id` references `packages(id)`. */
  ghost predicate References(t: Tables) {
    forall k :: k in t.versions ==> HasPackage(t, k.0)
  }

  /** One cell of the table: version `v` of package `p`, stored under `id`. */
  ghost predicate CellHolds(cfg: Config, p: Package, t: Tables, id: nat, v: string) {
    && (v in p.versions <==> (id, v) in t.versions)
    && (v in p.versions ==> RowHolds(cfg, p.owner, p.versions[v], t.versions[(id, v)]))
  }

  ghost predicate PackageHolds(cfg: Config, p: Package, t: Tables, row: PackageRow) {
    p.owner == row.owner && forall v :: CellHolds(cfg, p, t, row.id, v)
  }

  ghost predicate Holds(cfg: Config, c: Catalog, t: Tables) {
    && IdsUnique(t) && References(t)
    && c.Keys == t.packages.Keys
    && forall n :: n in c ==> PackageHolds(cfg, c[n], t, t.packages[n])
  }

  lemma EmptyHolds(cfg: Config)
    ensures Holds(cfg, map[], Tables(map[], map[]))
  {}

  /** The version statements find a live version under its key exactly when the catalog has it. */
  lemma LookupAgrees(cfg: Config, c: Catalog, t: Tables, name: string, version: string)
    requires Holds(cfg, c, t) && name in t.packages
    ensures name in c && CellHolds(cfg, c[name], t, t.packages[name].id, version)
    ensures c[name].owner == t.packages[name].owner
  {
    assert PackageHolds(cfg, c[name], t, t.packages[name]);
  }

  lemma NamesAgree(cfg: Config, c: Catalog, t: Tables, name: string)
    requires Holds(cfg, c, t)
    ensures name in c <==> name in t.packages
  {}

  lemma FreshIdHasNoVersions(cfg: Config, c: Catalog, t: Tables, id: nat, version: string)
    requires Holds(cfg, c, t) && !HasPackage(t, id)
    ensures (id, version) !in t.versions
  {
    forall k | k in t.versions ensures k.0 != id {
      assert HasPackage(t, k.0);
    }
  }

  /** The rows of one package, as `get_package` selects them. These version rows are this package, byte for byte up to the hash. */
  ghost predicate RowsHold(cfg: Config, p: Package, owner: UserId, rows: map<string, VersionRow>) {
    && p.owner == owner
    && p.versions.Keys == rows.Keys
    && forall v :: v in rows ==> RowHolds(cfg, owner, p.versions[v], rows[v])
  }

  lemma SelectedRowsHold(cfg: Config, c: Catalog, t: Tables, name: string)
    requires Holds(cfg, c, t) && name in t.packages
    ensures name in c && RowsHold(cfg, c[name], t.packages[name].owner, VersionsOf(t, t.packages[name].id))
  {
    var p, id := c[name], t.packages[name].id;
    assert PackageHolds(cfg, p, t, t.packages[name]);
    var rows := VersionsOf(t, id);
    forall v ensures v in p.versions <==> v in rows {
      assert CellHolds(cfg, p, t, id, v);
      if (id, v) in t.versions {
        var k := (id, v);
        assert k in t.versions && k.0 == id && k.1 == v;
      }
    }
    forall v | v in rows ensures RowHolds(cfg, p.owner, p.versions[v], rows[v]) {
      assert CellHolds(cfg, p, t, id, v);
    }
  }

  /** Publishing in both worlds, under a package that exists. */
  lemma PublishExisting(cfg: Config, c: Catalog, t: Tables, op: Op, at: nat)
    requires Holds(cfg, c, t) && op.Publish? && |op.content| <= cfg.maxUpload
    requires op.name in t.packages && t.packages[op.name].owner == op.user
    requires (t.packages[op.name].id, op.version) !in t.versions
    ensures Apply(c, op).1 == Published
    ensures Holds(cfg, Apply(c, op).0, InsertVersion(t, (t.packages[op.name].id, op.version), RowFor(cfg, op.user, op.content, at)))
  {
    LookupAgrees(cfg, c, t, op.name, op.version);
    var id := t.packages[op.name].id;
    var t' := InsertVersion(t, (id, op.version), RowFor(cfg, op.user, op.content, at));
    var c' := Apply(c, op).0;
    assert HasPackage(t, id);
    assert forall i :: HasPackage(t, i) ==> HasPackage(t', i);
    forall n, v | n in c' ensures CellHolds(cfg, c'[n], t', t'.packages[n].id, v) {
      assert PackageHolds(cfg, c[n], t, t.packages[n]);
      assert CellHolds(cfg, c[n], t, t.packages[n].id, v);
    }
    forall n | n in c' ensures PackageHolds(cfg, c'[n], t', t'.packages[n]) {
      assert PackageHolds(cfg, c[n], t, t.packages[n]);
    }
  }

  /** Publishing in both worlds, together with the package that the first version creates. */
  lemma PublishNew(cfg: Config, c: Catalog, t: Tables, op: Op, at: nat, id: nat)
    requires Holds(cfg, c, t) && op.Publish? && |op.content| <= cfg.maxUpload
    requires op.name !in t.packages && !HasPackage(t, id)
    ensures Apply(c, op).1 == Published
    ensures var t1 := InsertPackage(t, op.name, PackageRow(id, op.user));
            Holds(cfg, Apply(c, op).0, InsertVersion(t1, (id, op.version), RowFor(cfg, op.user, op.content, at)))
  {
    var row := RowFor(cfg, op.user, op.content, at);
    var t' := InsertVersion(InsertPackage(t, op.name, PackageRow(id, op.user)), (id, op.version), row);
    var c' := Apply(c, op).0;
    assert t'.packages[op.name].id == id;
    forall k | k in t'.versions ensures HasPackage(t', k.0) {
      if k in t.versions {
        var n :| n in t.packages && t.packages[n].id == k.0;
        assert t'.packages[n].id == k.0;
      }
    }
    forall k | k in t.versions ensures k.0 != id {
      assert HasPackage(t, k.0);
    }
    forall n, v | n in c' ensures CellHolds(cfg, c'[n], t', t'.packages[n].id, v) {
      if n != op.name {
        assert PackageHolds(cfg, c[n], t, t.packages[n]);
        assert CellHolds(cfg, c[n], t, t.packages[n].id, v);
      }
    }
    forall n | n in c' ensures PackageHolds(cfg, c'[n], t', t'.packages[n]) {
      if n != op.name { assert PackageHolds(cfg, c[n], t, t.packages[n]); }
    }
  }

  /** Unpublishing in both worlds: the statement deletes a row exactly when the catalog had the version. */
  lemma UnpublishBoth(cfg: Config, c: Catalog, t: Tables, op: Op)
    requires Holds(cfg, c, t) && op.Unpublish?
    requires op.name in t.packages && t.packages[op.name].owner == op.user
    ensures var key := (t.packages[op.name].id, op.version);
            && Apply(c, op).1 == (if key in t.versions then Unpublished else Missing)
            && Holds(cfg, Apply(c, op).0, RemoveRow(t, key))
  {
    LookupAgrees(cfg, c, t, op.name, op.version);
    var id := t.packages[op.name].id;
    var t' := RemoveRow(t, (id, op.version));
    var c' := Apply(c, op).0;
    assert forall i :: HasPackage(t, i) ==> HasPackage(t', i);
    forall n, v | n in c' ensures CellHolds(cfg, c'[n], t', t'.packages[n].id, v) {
      assert PackageHolds(cfg, c[n], t, t.packages[n]);
      assert CellHolds(cfg, c[n], t, t.packages[n].id, v);
    }
    forall n | n in c' ensures PackageHolds(cfg, c'[n], t', t'.packages[n]) {
      assert PackageHolds(cfg, c[n], t, t.packages[n]);
    }
  }
}
