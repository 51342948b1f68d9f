/**
 * The package endpoints as one transition system.
 *
 * A state is the committed tables, the blob files and every request received so
 * far, each stopped between two of its awaits. A step is one statement or one
 * call of one request, so a run is any interleaving of any number of requests.
 * Postgres runs at READ COMMITTED: an upload's inserts stay private until its
 * COMMIT, a pending insert reserves its unique key, and a second inserter of that
 * key waits for the first to end. Any early return drops the transaction.
 *
 * `log` and each request's `lin` are history variables: the sequential history
 * this run is claimed to be equivalent to, and a request's own place in it.
 * No step reads them.
 */
module Protocol {
  import opened Wrappers
  import opened Text
  import opened Storage
  import opened Names
  import opened Registry
  import opened Tables
  import B = BlobFile

  const POOL_SIZE: nat := 16

  // ---- requests ----

  /** What the multipart stream yields: a field, whose body may fail to arrive, or a framing error. */
  datatype Part = Field(name: Option<string>, body: Option<Bytes>) | Broken

  datatype Call =
    | Upload(user: UserId, name: string, version: string, parts: seq<Part>)
    | Delete(user: UserId, name: string, version: string)
    | Download(name: string, version: string)
    | Get(name: string)
    | List

  datatype Answer =
    | Rejected(error: PackageError)
    | Unauthorized
    | Uploaded(sha256: string, size: nat)
    | Deleted
    | Body(bytes: Bytes)
    | Details(owner: UserId, rows: map<string, VersionRow>)
    | Listing(packages: map<string, (UserId, map<string, VersionRow>)>)

  datatype Pc =
    | Authenticate                      // wants a connection to resolve its API key
    | Resolving                         // holds it
    | Validate                          // the handler starts
    | Connect                           // wants a connection
    | FindPackage | AddPackage | CheckVersion(id: nat) | Store(id: nat) | AddVersion(id: nat) | Commit(id: nat)
    | FindOwned | RemoveVersion(id: nat)
    | FindBlob | ReadBlob(sha256: string, got: Bytes)
    | FindShown | FindVersions(id: nat, owner: UserId)
    | Summarize
    | Done(answer: Answer)

  /** The uncommitted inserts of one upload. */
  datatype Tx = Tx(package: Option<(string, PackageRow)>, version: Option<(VersionKey, VersionRow)>)

  const NO_TX := Tx(None, None)

  datatype Request = Request(call: Call, pc: Pc, tx: Tx, begun: nat, lin: Option<nat>)

  datatype State = State(db: Tables, files: map<Path, B.File>, reqs: seq<Request>, log: History)

  const INITIAL := State(Tables(map[], map[]), map[], [], [])

  /** How the awaited operation turns out. `n` is a timestamp, a verdict or a transfer size. */
  datatype Outcome = Proceed(n: nat) | Fail | LoseReply

  datatype Label =
    | Arrive(call: Call, viaKey: bool)
    | Step(request: nat, outcome: Outcome)
    | Write(writer: nat, amount: nat)

  // ---- before any statement ----

  /** The first field called `file`, within the size limit. */
  function FileOf(parts: seq<Part>, max: nat): Result<Bytes, PackageError> {
    if parts == [] then Failure(MissingFile)
    else
      match parts[0]
      case Broken => Failure(Internal)
      case Field(name, body) =>
        if name != Some("file") then FileOf(parts[1..], max)
        else if body.None? then Failure(Internal)
        else if |body.value| > max then Failure(PayloadTooLarge(max))
        else Success(body.value)
  }

  function Fault(cfg: Config, call: Call): Option<PackageError> {
    if call.List? then None
    else if NameError(call.name).Some? then NameError(call.name)
    else if call.Get? then None
    else if VersionError(call.version).Some? then VersionError(call.version)
    else if call.Upload? && FileOf(call.parts, cfg.maxUpload).Failure? then Some(FileOf(call.parts, cfg.maxUpload).error)
    else None
  }

  function Content(cfg: Config, call: Call): Bytes {
    if call.Upload? && FileOf(call.parts, cfg.maxUpload).Success? then FileOf(call.parts, cfg.maxUpload).value else []
  }

  function UploadFile(cfg: Config, call: Call): Path {
    BlobFileOf(cfg, Content(cfg, call))
  }

  /** The registry operation a call asks for. */
  function Asked(cfg: Config, call: Call): Op {
    match call
    case Upload(user, name, version, _) => Publish(user, name, version, Content(cfg, call))
    case Delete(user, name, version) => Unpublish(user, name, version)
    case Download(name, version) => Fetch(name, version)
    case Get(name) => Show(name)
    case List => ListAll
  }

  function FirstStatement(call: Call): Pc {
    match call
    case Upload(_, _, _, _) => FindPackage
    case Delete(_, _, _) => FindOwned
    case Download(_, _) => FindBlob
    case Get(_) => FindShown
    case List => Summarize
  }

  // ---- the connection pool ----

  predicate Holding(pc: Pc) {
    !(pc.Authenticate? || pc.Validate? || pc.Connect? || pc.Done?)
  }

  function Held(reqs: seq<Request>): nat {
    if reqs == [] then 0 else (if Holding(reqs[0].pc) then 1 else 0) + Held(reqs[1..])
  }

  predicate PoolFull(s: State) {
    Held(s.reqs) >= POOL_SIZE
  }

  // ---- effects ----

  function Set(s: State, r: nat, q: Request): State
    requires r < |s.reqs|
  {
    s.(reqs := s.reqs[r := q])
  }

  function Goto(s: State, r: nat, pc: Pc): State
    requires r < |s.reqs|
  {
    Set(s, r, s.reqs[r].(pc := pc))
  }

  /** Return an answer; whatever the transaction had not committed is gone. */
  function Finish(s: State, r: nat, a: Answer): State
    requires r < |s.reqs|
  {
    Set(s, r, s.reqs[r].(pc := Done(a), tx := NO_TX))
  }

  /** This statement decides the request: it takes its place in the sequential history, and its transaction ends. */
  function Decide(cfg: Config, s: State, r: nat, pc: Pc): State
    requires r < |s.reqs|
  {
    Set(s, r, s.reqs[r].(pc := pc, tx := NO_TX, lin := Some(|s.log|))).(log := s.log + [Entry(r, Asked(cfg, s.reqs[r].call))])
  }

  predicate PackageReserved(s: State, r: nat, name: string) {
    exists i :: 0 <= i < |s.reqs| && i != r && s.reqs[i].tx.package.Some? && s.reqs[i].tx.package.value.0 == name
  }

  predicate VersionReserved(s: State, r: nat, key: VersionKey) {
    exists i :: 0 <= i < |s.reqs| && i != r && s.reqs[i].tx.version.Some? && s.reqs[i].tx.version.value.0 == key
  }

  function Committed(t: Tables, tx: Tx): Tables {
    var t1 := if tx.package.Some? then InsertPackage(t, tx.package.value.0, tx.package.value.1) else t;
    if tx.version.Some? then InsertVersion(t1, tx.version.value.0, tx.version.value.1) else t1
  }

  function UploadStep(cfg: Config, s: State, r: nat, lost: bool): Option<State>
    requires r < |s.reqs| && s.reqs[r].call.Upload?
  {
    var q := s.reqs[r];
    var name, version, user, content := q.call.name, q.call.version, q.call.user, Content(cfg, q.call);
    match q.pc
    case FindPackage =>
      if name !in s.db.packages then Some(Goto(s, r, AddPackage))
      else if s.db.packages[name].owner != user then Some(Decide(cfg, s, r, Done(Rejected(Forbidden))))
      else Some(Goto(s, r, CheckVersion(s.db.packages[name].id)))
    case AddPackage =>
      if name in s.db.packages then Some(Finish(s, r, Rejected(Internal)))
      else if PackageReserved(s, r, name) then None
      else Some(Set(s, r, q.(pc := CheckVersion(r), tx := Tx(Some((name, PackageRow(r, user))), None))))
    case CheckVersion(id) =>
      if (id, version) in s.db.versions then Some(Decide(cfg, s, r, Done(Rejected(Conflict))))
      else
        var file := UploadFile(cfg, q.call);
        var f := if file in s.files then s.files[file] else B.ABSENT;
        Some(Goto(s, r, Store(id)).(files := s.files[file := B.Register(f, r, content)]))
    case Store(id) =>
      var file := UploadFile(cfg, q.call);
      if file in s.files && r in s.files[file].writers && s.files[file].writers[r].stage in {B.Finished, B.Skipped}
      then Some(Goto(s, r, AddVersion(id)))
      else None
    case AddVersion(id) =>
      if (id, version) in s.db.versions then Some(Finish(s, r, Rejected(Internal)))
      else if VersionReserved(s, r, (id, version)) then None
      else
        var row := RowFor(cfg, user, content, q.begun);
        Some(Set(s, r, q.(pc := Commit(id), tx := q.tx.(version := Some(((id, version), row))))))
    case Commit(id) =>
      var a := if lost then Rejected(Internal) else Uploaded(Sha256Hex(cfg.sha, content), |content|);
      Some(Decide(cfg, s, r, Done(a)).(db := Committed(s.db, q.tx)))
    case _ => None
  }

  function DeleteStep(cfg: Config, s: State, r: nat, lost: bool): Option<State>
    requires r < |s.reqs| && s.reqs[r].call.Delete?
  {
    var q := s.reqs[r];
    match q.pc
    case FindOwned =>
      if q.call.name !in s.db.packages then Some(Decide(cfg, s, r, Done(Rejected(NotFound))))
      else if s.db.packages[q.call.name].owner != q.call.user then Some(Decide(cfg, s, r, Done(Rejected(Forbidden))))
      else Some(Goto(s, r, RemoveVersion(s.db.packages[q.call.name].id)))
    case RemoveVersion(id) =>
      var key := (id, q.call.version);
      var a := if lost then Rejected(Internal) else if key in s.db.versions then Deleted else Rejected(NotFound);
      Some(Decide(cfg, s, r, Done(a)).(db := RemoveRow(s.db, key)))
    case _ => None
  }

  function DownloadStep(cfg: Config, s: State, r: nat, n: nat): Option<State>
    requires r < |s.reqs| && s.reqs[r].call.Download?
  {
    var q := s.reqs[r];
    match q.pc
    case FindBlob =>
      if q.call.name in s.db.packages && (s.db.packages[q.call.name].id, q.call.version) in s.db.versions then
        var row := s.db.versions[(s.db.packages[q.call.name].id, q.call.version)];
        Some(Decide(cfg, s, r, ReadBlob(row.sha256, [])))
      else
        Some(Decide(cfg, s, r, Done(Rejected(NotFound))))
    case ReadBlob(sha256, got) =>
      var file := PathFor(cfg.root, sha256);
      if file !in s.files || s.files[file].bytes.None? then Some(Finish(s, r, Rejected(NotFound)))
      else
        var bytes := s.files[file].bytes.value;
        if |got| >= |bytes| then Some(Finish(s, r, Body(got)))
        else Some(Goto(s, r, ReadBlob(sha256, got + bytes[|got|..|got| + B.Clamp(n, |bytes| - |got|)])))
    case _ => None
  }

  function ReadStep(cfg: Config, s: State, r: nat): Option<State>
    requires r < |s.reqs| && (s.reqs[r].call.Get? || s.reqs[r].call.List?)
  {
    var q := s.reqs[r];
    match q.pc
    case FindShown =>
      if q.call.Get? && q.call.name in s.db.packages
      then Some(Goto(s, r, FindVersions(s.db.packages[q.call.name].id, s.db.packages[q.call.name].owner)))
      else Some(Decide(cfg, s, r, Done(Rejected(NotFound))))
    case FindVersions(id, owner) => Some(Decide(cfg, s, r, Done(Details(owner, VersionsOf(s.db, id)))))
    case Summarize =>
      Some(Decide(cfg, s, r,
                  Done(Listing(map n | n in s.db.packages :: (s.db.packages[n].owner, VersionsOf(s.db, s.db.packages[n].id))))))
    case _ => None
  }

  /**
   * One step of request `r`, or None when it has to wait. `Fail` is any error of
   * the awaited operation, or the request being dropped there. `LoseReply` is a
   * COMMIT or DELETE that took effect although its answer never came back.
   */
  function StepOf(cfg: Config, s: State, r: nat, o: Outcome): Option<State>
    requires r < |s.reqs|
  {
    var q := s.reqs[r];
    if q.pc.Done? then None
    else if o.Fail? then Some(Finish(s, r, Rejected(Internal)))
    else if o.LoseReply? && !q.pc.Commit? && !q.pc.RemoveVersion? then None
    else
      var n := if o.Proceed? then o.n else 0;
      if q.pc.Authenticate? then
        if PoolFull(s) then None else Some(Goto(s, r, Resolving))
      else if q.pc.Resolving? then
        Some(if n == 0 then Finish(s, r, Unauthorized) else Goto(s, r, Validate))
      else if q.pc.Validate? then
        Some(if Fault(cfg, q.call).Some? then Finish(s, r, Rejected(Fault(cfg, q.call).value)) else Goto(s, r, Connect))
      else if q.pc.Connect? then
        if PoolFull(s) then None else Some(Set(s, r, q.(pc := FirstStatement(q.call), begun := n)))
      else if q.call.Upload? then UploadStep(cfg, s, r, o.LoseReply?)
      else if q.call.Delete? then DeleteStep(cfg, s, r, o.LoseReply?)
      else if q.call.Download? then DownloadStep(cfg, s, r, n)
      else ReadStep(cfg, s, r)
  }

  /** Only handlers that take an `AuthUser` resolve a credential; a session token needs no connection. */
  function Arrival(call: Call, viaKey: bool): Request {
    Request(call, if viaKey && (call.Upload? || call.Delete?) then Authenticate else Validate, NO_TX, 0, None)
  }

  function Next(cfg: Config, s: State, l: Label): Option<State> {
    match l
    case Arrive(call, viaKey) => Some(s.(reqs := s.reqs + [Arrival(call, viaKey)]))
    case Step(r, o) => if r < |s.reqs| then StepOf(cfg, s, r, o) else None
    case Write(w, n) =>
      if w < |s.reqs| && UploadFile(cfg, s.reqs[w].call) in s.files then
        var file := UploadFile(cfg, s.reqs[w].call);
        match B.Act(s.files[file], B.Move(w, n))
        case Some(f) => Some(s.(files := s.files[file := f]))
        case None => None
      else None
  }

  /** The state after a whole interleaving, or None when some step was not possible. */
  function Run(cfg: Config, s: State, labels: seq<Label>): Option<State>
    decreases |labels|
  {
    if labels == [] then Some(s)
    else
      match Next(cfg, s, labels[0])
      case None => None
      case Some(s') => Run(cfg, s', labels[1..])
  }
}
