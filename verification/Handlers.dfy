/**
 * The package handlers as straight-line code over the tables and the blob store,
 * each run with nobody else about. `Protocol` has them interleaved. In a `faulty`
 * run any awaited operation may fail.
 */
module Handlers {
  import opened Wrappers
  import opened Text
  import opened Storage
  import opened Names
  import opened Registry
  import opened Tables
  import opened Protocol
  import opened Checks
  import opened Invariants
  import BlobStores
  import Orders
  import Views
  import B = BlobFile

  /** There is a file for each live version. */
  ghost predicate Backed(cfg: Config, c: Catalog, files: map<Path, Bytes>) {
    forall n, v :: n in c && v in c[n].versions ==> BlobFileOf(cfg, c[n].versions[v]) in files
  }

  lemma BackedAfter(cfg: Config, c: Catalog, op: Op, files: map<Path, Bytes>, files': map<Path, Bytes>)
    requires Backed(cfg, c, files) && files.Keys <= files'.Keys
    requires op.Publish? ==> BlobFileOf(cfg, op.content) in files'
    ensures Backed(cfg, c, files') && Backed(cfg, Apply(c, op).0, files')
  {
    var c' := Apply(c, op).0;
    forall n, v | n in c' && v in c'[n].versions ensures BlobFileOf(cfg, c'[n].versions[v]) in files' {
      if n in c && v in c[n].versions { assert BlobFileOf(cfg, c[n].versions[v]) in files; }
    }
  }

  lemma BackedStays(cfg: Config, c: Catalog, files: map<Path, Bytes>, files': map<Path, Bytes>)
    requires Backed(cfg, c, files) && files.Keys <= files'.Keys
    ensures Backed(cfg, c, files')
  {}

  lemma BackedFile(cfg: Config, c: Catalog, files: map<Path, Bytes>, name: string, version: string)
    requires Backed(cfg, c, files) && name in c && version in c[name].versions
    ensures BlobFileOf(cfg, c[name].versions[version]) in files
  {}

  lemma SameName(cfg: Config, a: Bytes, b: Bytes)
    ensures BlobFileOf(cfg, a) == BlobFileOf(cfg, b) <==> cfg.sha(a) == cfg.sha(b)
  {
    if BlobFileOf(cfg, a) == BlobFileOf(cfg, b) { PathForInjective(cfg.root, cfg.sha(a), cfg.sha(b)); }
  }

  /** What an acknowledged upload has done to the tables: its version, and its package if there was none. */
  ghost predicate Publication(cfg: Config, before: Tables, after: Tables, user: UserId, name: string, version: string, body: Bytes,
                            id: nat, now: nat, a: Answer) {
    var hex := Sha256Hex(cfg.sha, body);
    var row := VersionRow(hex, |body|, Join(PathFor([], hex)), user, now);
    var p := if name in before.packages then before.packages[name] else PackageRow(id, user);
    && a == Uploaded(hex, |body|)
    && p.owner == user && (p.id, version) !in before.versions
    && after == Tables(before.packages[name := p], before.versions[(p.id, version) := row])
  }

  lemma IsPublication(cfg: Config, before: Tables, user: UserId, name: string, version: string, body: Bytes, id: nat, now: nat)
    requires var p := if name in before.packages then before.packages[name] else PackageRow(id, user);
             p.owner == user && (p.id, version) !in before.versions
    ensures var row := RowFor(cfg, user, body, now);
            var a := Uploaded(Sha256Hex(cfg.sha, body), |body|);
            if name in before.packages
            then Publication(cfg, before, InsertVersion(before, (before.packages[name].id, version), row), user, name, version, body, id, now, a)
            else Publication(cfg, before, InsertVersion(InsertPackage(before, name, PackageRow(id, user)), (id, version), row),
                             user, name, version, body, id, now, a)
  {
    if name in before.packages {
      assert before.packages[name := before.packages[name]] == before.packages;
    }
  }

  lemma ListingIsServed(cfg: Config, c: Catalog, db: Tables, out: map<string, (UserId, map<string, VersionRow>)>)
    requires Holds(cfg, c, db) && out.Keys == db.packages.Keys
    requires forall n :: n in out ==> out[n] == (db.packages[n].owner, VersionsOf(db, db.packages[n].id))
    ensures Matches(cfg, List, Listing(out), Listed(c))
  {
    hide Holds, RowsHold, VersionsOf;
    forall n ensures n in c <==> n in db.packages { NamesAgree(cfg, c, db, n); }
    assert c.Keys == db.packages.Keys;
    forall n | n in c ensures RowsHold(cfg, c[n], out[n].0, out[n].1) { SelectedRowsHold(cfg, c, db, n); }
  }

  lemma UploadAnswers(cfg: Config, call: Call)
    requires call.Upload?
    ensures Matches(cfg, call, Rejected(Forbidden), Refused) && Matches(cfg, call, Rejected(Conflict), Duplicate)
    ensures Matches(cfg, call, Uploaded(Sha256Hex(cfg.sha, Content(cfg, call)), |Content(cfg, call)|), Reply.Published)
  {}

  lemma UploadReplies(c: Catalog, op: Op)
    requires op.Publish? && op.name in c
    ensures c[op.name].owner != op.user ==> Apply(c, op) == (c, Refused)
    ensures c[op.name].owner == op.user && op.version in c[op.name].versions ==> Apply(c, op) == (c, Duplicate)
  {}

  lemma CallIsChecked(cfg: Config, call: Call)
    ensures forall e :: Fault(cfg, call) == Some(e) <==> Deserves(call, cfg.maxUpload, e)
    ensures Fault(cfg, call).Some? ==> Undecided(Rejected(Fault(cfg, call).value))
    ensures Fault(cfg, call).None? <==> Passes(call, cfg.maxUpload)
    ensures !call.Upload? ==> (Passes(call, cfg.maxUpload) <==> GoodPath(call))
  {
    hide Fault, Deserves;
    forall e ensures Fault(cfg, call) == Some(e) <==> Deserves(call, cfg.maxUpload, e) { TurnedAwayIff(cfg, call, e); }
    FaultIsUndecided(cfg, call);
    PassesIff(cfg, call);
  }

  lemma NothingToRemove(db: Tables, key: VersionKey)
    ensures key !in db.versions ==> RemoveRow(db, key) == db
  {
    if key !in db.versions { assert RemoveRow(db, key).versions == db.versions; }
  }

  lemma RowOfBlob(cfg: Config, user: UserId, content: Bytes, at: nat)
    ensures var hex := Sha256Hex(cfg.sha, content);
            RowFor(cfg, user, content, at) == VersionRow(hex, |content|, Join(PathFor([], hex)), user, at)
  {}

  /** No file is partial: each holds bytes whose hash is its name. */
  ghost predicate AllWhole(cfg: Config, files: map<Path, Bytes>) {
    forall p :: p in files ==> BlobFileOf(cfg, files[p]) == p
  }

  lemma WholeAfterPut(cfg: Config, files: map<Path, Bytes>, content: Bytes)
    requires AllWhole(cfg, files)
    ensures AllWhole(cfg, files[BlobFileOf(cfg, content) := content])
  {}

  class Service {
    const cfg: Config
    const store: BlobStores.BlobStore
    var db: Tables

    constructor (cfg: Config)
      ensures this.cfg == cfg && Ready() && Stands(map[]) && Whole()
      ensures fresh(store)
    {
      this.cfg := cfg;
      db := Tables(map[], map[]);
      store := new BlobStores.BlobStore(cfg.root, cfg.sha);
      new;
      EmptyHolds(cfg);
    }

    ghost predicate Ready() {
      store.root == cfg.root && store.sha == cfg.sha
    }

    /** The tables hold catalog `c`, and there is a file for each of its live versions. */
    ghost predicate Stands(c: Catalog)
      reads this`db, store`files
    {
      Holds(cfg, c, db) && Backed(cfg, c, store.files)
    }

    ghost predicate Whole()
      reads store`files
    {
      AllWhole(cfg, store.files)
    }

    /**
     * What a handler promises of its answer when it started on catalog `c`: a bad call
     * is turned away with the error it deserves, an undecided one changed no table, and
     * any other is one step of the sequential registry. Only a fault leaves a good call
     * undecided.
     */
    ghost predicate Serves(c: Catalog, before: Tables, call: Call, faulty: bool, a: Answer)
      reads this`db, store`files
    {
      && (forall e :: Deserves(call, cfg.maxUpload, e) ==> a == Rejected(e))
      && (Undecided(a) ==>
            && db == before && Stands(c)
            && ((a.Rejected? && Deserves(call, cfg.maxUpload, a.error)) || (faulty && a == Rejected(Internal))))
      && (!Undecided(a) ==>
            && Matches(cfg, call, a, Apply(c, Asked(cfg, call)).1)
            && Stands(Apply(c, Asked(cfg, call)).0))
    }

    /** The checks before the first statement of an upload, and the bytes to publish. */
    method CheckUpload(user: UserId, name: string, version: string, parts: seq<Part>) returns (r: Result<Bytes, PackageError>)
      ensures r == match Fault(cfg, Upload(user, name, version, parts))
                   case Some(e) => Failure(e)
                   case None => Success(Content(cfg, Upload(user, name, version, parts)))
      ensures r.Failure? <==> !Passes(Upload(user, name, version, parts), cfg.maxUpload)
      ensures r.Failure? ==> Deserves(Upload(user, name, version, parts), cfg.maxUpload, r.error)
      ensures r.Success? ==> FirstFile(parts, r.value) && |r.value| <= cfg.maxUpload
    {
      hide FileOf, NameError, VersionError, IsVersion, Passes, Deserves, FirstFile, Decisive, Skipped, IsPackageName;
      ghost var call := Upload(user, name, version, parts);
      PassesIff(cfg, call);
      if Fault(cfg, call).Some? { TurnedAwayIff(cfg, call, Fault(cfg, call).value); }
      FaultIsUndecided(cfg, call);
      var badName := ValidateName(name);
      if badName.Some? { return Failure(badName.value); }
      if VersionError(version).Some? { return Failure(VersionError(version).value); }
      r := ReadMultipart(parts, cfg.maxUpload);
    }

    method UploadVersion(user: UserId, name: string, version: string, parts: seq<Part>, id: nat, now: nat, faulty: bool, ghost c: Catalog)
      returns (a: Answer)
      requires Ready() && Stands(c) && !HasPackage(db, id)
      modifies this`db, store`files
      ensures Serves(c, old(db), Upload(user, name, version, parts), faulty, a)
      ensures a.Uploaded? ==> exists body :: FirstFile(parts, body) && |body| <= cfg.maxUpload
                                             && Publication(cfg, old(db), db, user, name, version, body, id, now, a)
      ensures !a.Uploaded? ==> db == old(db)
      ensures !faulty && Passes(Upload(user, name, version, parts), cfg.maxUpload) ==>
                if name in old(db).packages && old(db).packages[name].owner != user then a == Rejected(Forbidden)
                else if name in old(db).packages && (old(db).packages[name].id, version) in old(db).versions then a == Rejected(Conflict)
                else a.Uploaded?
      ensures old(Whole()) && !faulty ==> Whole()
    {
      hide Holds, Backed, HasPackage, B.Run, B.Register, FileOf, PathFor, Join, Sha256Hex, NameError, Whitespace, Decisive, Skipped;
      hide InsertVersion, InsertPackage, AllWhole, RowFor, BlobPath, Deserves, Passes, FirstFile, Fault, Content, Apply, Publication, Matches;
      ghost var call := Upload(user, name, version, parts);
      CallIsChecked(cfg, call);
      UploadAnswers(cfg, call);
      var checked := CheckUpload(user, name, version, parts);
      if checked.Failure? { return Rejected(checked.error); }
      var bytes := checked.value;
      var noConnection :| noConnection ==> faulty;
      if noConnection { return Rejected(Internal); }

      var insert: Option<PackageRow> := None;
      var packageId := id;
      if name in db.packages {
        LookupAgrees(cfg, c, db, name, version);
        UploadReplies(c, Asked(cfg, call));
        if db.packages[name].owner != user { return Rejected(Forbidden); }
        packageId := db.packages[name].id;
      } else {
        NamesAgree(cfg, c, db, name);
        var insertFailed :| insertFailed ==> faulty;
        if insertFailed { return Rejected(Internal); }
        insert := Some(PackageRow(id, user));
        FreshIdHasNoVersions(cfg, c, db, id, version);
      }
      if (packageId, version) in db.versions {
        return Rejected(Conflict);
      }
      if Whole() { WholeAfterPut(cfg, store.files, bytes); }
      var blob, _ := store.Put(bytes, faulty);
      BackedStays(cfg, c, old(store.files), store.files);
      if blob.Failure? { return Rejected(Internal); }
      var row := VersionRow(blob.value.sha256, blob.value.size, Join(blob.value.path), user, now);
      RowOfBlob(cfg, user, bytes, now);
      BackedAfter(cfg, c, Asked(cfg, call), old(store.files), store.files);
      var commitFailed :| commitFailed ==> faulty;
      if commitFailed { return Rejected(Internal); }
      if insert.Some? {
        PublishNew(cfg, c, db, Asked(cfg, call), now, id);
        db := InsertVersion(InsertPackage(db, name, insert.value), (packageId, version), row);
      } else {
        PublishExisting(cfg, c, db, Asked(cfg, call), now);
        db := InsertVersion(db, (packageId, version), row);
      }
      a := Uploaded(blob.value.sha256, blob.value.size);
      IsPublication(cfg, old(db), user, name, version, bytes, id, now);
    }

    method DeleteVersion(user: UserId, name: string, version: string, faulty: bool, ghost c: Catalog) returns (a: Answer)
      requires Stands(c)
      modifies this`db
      ensures Serves(c, old(db), Delete(user, name, version), faulty, a)
      ensures if a.Deleted?
              then name in old(db).packages && db == RemoveRow(old(db), (old(db).packages[name].id, version))
              else db == old(db)
      ensures !faulty && GoodPath(Delete(user, name, version)) ==>
                a == if name !in old(db).packages then Rejected(NotFound)
                     else if old(db).packages[name].owner != user then Rejected(Forbidden)
                     else if (old(db).packages[name].id, version) in old(db).versions then Deleted
                     else Rejected(NotFound)
    {
      hide Holds, Backed, NameError, FileOf, PathFor, Sha256Hex, Join, HasPackage, BadCharacter, Deserves, GoodPath, RemoveRow;
      ghost var call := Delete(user, name, version);
      BackedAfter(cfg, c, Unpublish(user, name, version), store.files, store.files);
      CallIsChecked(cfg, call);
      var badName := ValidateName(name);
      if badName.Some? { return Rejected(badName.value); }
      if VersionError(version).Some? { return Rejected(VersionError(version).value); }
      var noConnection :| noConnection ==> faulty;
      if noConnection { return Rejected(Internal); }
      NamesAgree(cfg, c, db, name);
      if name !in db.packages { return Rejected(NotFound); }
      LookupAgrees(cfg, c, db, name, version);
      if db.packages[name].owner != user { return Rejected(Forbidden); }
      var deleteFailed :| deleteFailed ==> faulty;
      if deleteFailed { return Rejected(Internal); }
      var key := (db.packages[name].id, version);
      UnpublishBoth(cfg, c, db, Unpublish(user, name, version));
      NothingToRemove(db, key);
      var deleted := key in db.versions;
      db := RemoveRow(db, key);
      return if deleted then Deleted else Rejected(NotFound);
    }

    /**
     * The bytes served are those of the file that the published content's hash names.
     * If no call so far was faulty they are the published ones, unless the two are a
     * collision of the hash.
     */
    method DownloadVersion(name: string, version: string, faulty: bool, ghost c: Catalog) returns (a: Answer)
      requires Ready() && Stands(c)
      ensures Serves(c, db, Download(name, version), faulty, a)
      ensures !faulty && GoodPath(Download(name, version)) ==>
                if name in db.packages && (db.packages[name].id, version) in db.versions then a.Body? else a == Rejected(NotFound)
      ensures a.Body? ==> a.bytes == store.files[BlobFileOf(cfg, c[name].versions[version])]
      ensures a.Body? && Whole() ==>
                var published := c[name].versions[version];
                (cfg.sha(a.bytes) == cfg.sha(published) ==> a.bytes == published) ==> a.bytes == published
    {
      hide Holds, Backed, NameError, FileOf, PathFor, Sha256Hex, Join, Whitespace, Deserves, GoodPath;
      CallIsChecked(cfg, Download(name, version));
      NamesAgree(cfg, c, db, name);
      var badName := ValidateName(name);
      if badName.Some? { return Rejected(badName.value); }
      if VersionError(version).Some? { return Rejected(VersionError(version).value); }
      var noConnection :| noConnection ==> faulty;
      if noConnection { return Rejected(Internal); }
      if name !in db.packages { return Rejected(NotFound); }
      LookupAgrees(cfg, c, db, name, version);
      if (db.packages[name].id, version) !in db.versions { return Rejected(NotFound); }
      BackedFile(cfg, c, store.files, name, version);
      var sha256 := db.versions[(db.packages[name].id, version)].sha256;
      var bytes := store.Get(sha256, faulty);
      if bytes.Failure? { return Rejected(Internal); }
      if bytes.value.None? { return Rejected(NotFound); }
      if Whole() { SameName(cfg, bytes.value.value, c[name].versions[version]); }
      return Body(bytes.value.value);
    }

    /** Two queries; the second orders the rows, whose versions are `listed`. */
    method GetPackage(name: string, faulty: bool, ghost c: Catalog) returns (a: Answer, listed: seq<string>)
      requires Stands(c)
      ensures Serves(c, db, Get(name), faulty, a)
      ensures !faulty && IsPackageName(name) ==>
                a == if name in db.packages then Details(db.packages[name].owner, VersionsOf(db, db.packages[name].id)) else Rejected(NotFound)
      ensures a.Details? ==> Views.NewestFirst(a.rows, listed)
    {
      hide Holds, Backed, RowsHold, VersionsOf, Orders.Descending, Deserves;
      CallIsChecked(cfg, Get(name));
      NamesAgree(cfg, c, db, name);
      listed := [];
      var badName := ValidateName(name);
      if badName.Some? { return Rejected(badName.value), listed; }
      var noConnection :| noConnection ==> faulty;
      if noConnection { return Rejected(Internal), listed; }
      if name !in db.packages { return Rejected(NotFound), listed; }
      var selectFailed :| selectFailed ==> faulty;
      if selectFailed { return Rejected(Internal), listed; }
      var row := db.packages[name];
      SelectedRowsHold(cfg, c, db, name);
      var rows := VersionsOf(db, row.id);
      listed := Orders.Sort(Views.Stamps(rows));
      return Details(row.owner, rows), listed;
    }

    /** One query, whose result is read off row by row; `latest` is the column its subquery fills. */
    method ListPackages(faulty: bool, ghost c: Catalog) returns (a: Answer, latest: map<string, Option<string>>)
      requires Stands(c)
      ensures Serves(c, db, List, faulty, a)
      ensures !faulty ==> a.Listing?
      ensures a.Listing? ==>
                a.packages.Keys == db.packages.Keys
                && forall n :: n in db.packages ==> a.packages[n] == (db.packages[n].owner, VersionsOf(db, db.packages[n].id))
      ensures a.Listing? ==>
                latest.Keys == a.packages.Keys
                && forall n :: n in latest ==> Views.IsLatest(a.packages[n].1, latest[n])
    {
      hide Holds, Backed, RowsHold, VersionsOf, Orders.Descending, Views.IsLatest, Views.NewestFirst, Views.Stamps, Views.Head, Deserves, Matches;
      CallIsChecked(cfg, List);
      latest := map[];
      var failed :| failed ==> faulty;
      if failed { return Rejected(Internal), latest; }
      var left := db.packages.Keys;
      var out: map<string, (UserId, map<string, VersionRow>)> := map[];
      while left != {}
        invariant left <= db.packages.Keys && out.Keys == db.packages.Keys - left && latest.Keys == out.Keys
        invariant forall n :: n in out ==> out[n] == (db.packages[n].owner, VersionsOf(db, db.packages[n].id))
        invariant forall n :: n in out ==> Views.IsLatest(out[n].1, latest[n])
      {
        var name :| name in left;
        var rows := VersionsOf(db, db.packages[name].id);
        var sorted := Orders.Sort(Views.Stamps(rows));
        Views.HeadIsLatest(rows, sorted);
        out := out[name := (db.packages[name].owner, rows)];
        latest := latest[name := Views.Head(sorted)];
        left := left - {name};
      }
      ListingIsServed(cfg, c, db, out);
      return Listing(out), latest;
    }
  }

  /** The multipart loop: the first `file` field decides, fields before it are skipped, and later parts are not looked at. */
  method ReadMultipart(parts: seq<Part>, max: nat) returns (r: Result<Bytes, PackageError>)
    ensures r == FileOf(parts, max)
    ensures r == Failure(MissingFile) <==> forall i :: 0 <= i < |parts| ==> Skipped(parts[i])
    ensures forall i: nat :: Decisive(parts, i) ==>
              r == if parts[i].Broken? || parts[i].body.None? then Failure(Internal)
                   else if |parts[i].body.value| > max then Failure(PayloadTooLarge(max))
                   else Success(parts[i].body.value)
  {
    var bytes: Option<Bytes> := None;
    for i := 0 to |parts|
      invariant bytes.None?
      invariant FileOf(parts, max) == FileOf(parts[i..], max)
      invariant forall j :: 0 <= j < i ==> Skipped(parts[j])
    {
      assert parts[i..][1..] == parts[i + 1..];
      assert !Skipped(parts[i]) ==> forall k: nat :: Decisive(parts, k) ==> k == i;
      if parts[i].Broken? { return Failure(Internal); }
      if parts[i].name == Some("file") {
        if parts[i].body.None? { return Failure(Internal); }
        var body := parts[i].body.value;
        if |body| > max { return Failure(PayloadTooLarge(max)); }
        bytes := Some(body);
        break;
      }
    }
    if bytes.None? { return Failure(MissingFile); }
    return Success(bytes.value);
  }
}
