# Package registry: protocol model and proofs

A small package registry keeps its metadata in Postgres and its tarballs in
content-addressed files, and no transaction spans the two. This project models
what the two stores go through under any number of concurrent, failing and
abandoned requests, and proves what clients can rely on.

| file | what it models |
|---|---|
| `Text`, `Hex`, `Storage` | UTF-8, hexadecimal, blob paths |
| `BlobFile` | one blob file under any number of concurrent `put` calls, each a program counter and an offset |
| `BlobStore` | the blob store object, one call at a time, tied to `BlobFile` |
| `Names` | package-name and version validation |
| `Registry` | the sequential registry a client believes in: a map, one operation at a time |
| `Tables` | `packages` and `package_versions`, and what it means for them to hold a catalog |
| `Protocol` | upload, delete, download, get and list as interleaved statements at READ COMMITTED, with private pending inserts, unique-key reservations, the 16-connection pool, and failures and lost replies at any await |
| `Checks` | which calls are turned away before any statement, and what each call asks for, said over the call alone |
| `Invariants`, `Preservation` | what every reachable state keeps |
| `Refinement` | the protocol against the sequential registry |
| `Answers` | what every answer means in terms of what was published and unpublished before |
| `Races` | what answers mean when nothing failed; requests that come with a key |
| `Progress` | no deadlock on keys or on the pool; a bound on every run |
| `EndToEnd`, `Reliance` | from uploaded bytes to downloaded bytes, and exactly when clients can rely on them |
| `Runs`, `Witness` | putting runs together; a run that serves a live version wrong, and one that ties two timestamps |
| `Handlers` | the handlers as straight-line code over tables and files |
| `Orders`, `Views`, `Timeline` | the orderings of the list and detail views, on any rows and on the rows that protocol runs reach |
| `Migrations` | concurrent, crashing boots of binaries of different ages |
| `ApiKeys`, `Auth` | the life of an API key; Bearer dispatch; user identity |

How to read the model:

- `Protocol.Run` takes a sequence of labels: a request arrives, one request takes
  one step (with an outcome: proceed, fail, or take effect and lose the reply), or
  one writer makes one file-system call. The lemmas hold of every label sequence.
- A request's statements follow the source await by await. The upload's steps are
  lookup (src/packages.rs:224), owner check or insert (232-248), duplicate check
  (251-262), `put` (264), version insert (272), commit (287).
- A request that fails or is dropped is finished there and its transaction is gone.
  The writer of its `put` stays, and may take further steps or none, so an
  abandoned `put` needs no step of its own.
- `log` and `lin` in `Protocol`, `last` in `BlobFile`, `commits` in `Migrations` are
  history variables: no step reads them.
- SHA-256 is any function from bytes to 32 bytes. Where it matters, the absence of a
  collision is a hypothesis, about the contents that the run gave to `put` (or the
  keys it created), not about all bytes.
- The package id is the index of the request that inserted the package: fresh and
  never reused, as the generated UUID is.

What turned out not to hold without a condition:

- An Internal answer does not always mean that nothing changed: a COMMIT or DELETE can
  take effect and lose its reply. `Refinement.TablesChangeIff` gives exactly when.
- The same goes for API keys: a key can be revoked without its owner being told, or
  created without anybody knowing it (`ApiKeys.RevokedWithoutBeingTold`,
  `ApiKeys.LostCreation`). Resolution follows what took effect (`ApiKeys.ResolveIff`);
  the replies tell the same exactly when none was lost (`ApiKeys.RepliesTellIff`).
- A live version is not always served in full. `put` checks for the file, then
  truncates it, without a lock or a rename; another upload of the same bytes can empty
  a finished file for a while (`Witness.AcknowledgedVersionServedEmpty`) and an
  abandoned one can leave it partial for ever (`BlobFile.DedupCanReportALostBlob`,
  `BlobFile.QuietFileIsFrozen`). `Reliance.AlwaysServedIff` is the exact condition
  for clients, `BlobFile.AlwaysFullIff` for the file.
- Rows are stamped when their transaction begins and published when it commits. So
  `latest_version` is the version published last exactly when its transaction also
  began last (`Timeline.LatestIsLastPublished`), and with a shared newest timestamp the
  list and the detail view can name different versions (`Views.ViewsAgreeIff`,
  `Witness.ViewsCanDisagree`).

Where comments and code disagree the model follows the code: no advisory lock is
taken (src/db.rs:100); a key has 56 hexadecimal digits, not 48 (src/api_keys.rs:5); its
displayed prefix has 12 characters, not 8 (src/db.rs:86); `put` keeps an existing file
without looking whether it is complete (src/storage.rs:39); a delete removes the row
(src/packages.rs:342 calls it soft); revoking twice is answered NotFound
(src/api_keys.rs:146 calls it idempotent).

## Model

| member | source | states |
|---|---|---|
| `Refinement.RunsAreSequential` | src/packages.rs:97-381 | After any interleaving of any number of requests the committed tables hold exactly the catalog that a sequential history leads to; every entry of it is the operation one request asked for under a good name and version (an upload, for the body of its first `file` part within the limit), each once; every decided request's answer is the one the history gives at its entry |
| `Answers.AnswersMean` | src/packages.rs:97-381 | In every run each decided request is told what the publishes and unpublishes before its place in the history call for: owner, conflict, missing, the live versions with hash, size, uploader and path, the list of exactly the published names; an undecided one lacks a credential, is turned away as its call deserves, or failed |
| `Answers.EntriesSayWhatWasAsked` | src/packages.rs:187-208 | In every run each publish in the history publishes the body of the first `file` part of its request's stream, no framing error before it, within the limit, under a good name and version |
| `Refinement.TablesChangeIff` | src/packages.rs:287-289 | Tables change exactly at a COMMIT or at a DELETE that finds its row, unless it fails; the client is then told Internal exactly when the reply was lost, so every other Internal leaves the tables alone |
| `Refinement.StepShape` | src/packages.rs:181-381 | A step of one request changes no other request, appends at most that request's own operation to the history, and writes tables only together with that |
| `Refinement.ContinuationsKeep` | src/packages.rs:342-381 | In every continuation package rows, the history and given answers stay; whatever takes effect later comes from a request not yet answered (real-time order) |
| `Refinement.PackageRowIffPublished` | src/packages.rs:210-289 | A package row exists exactly when an upload of that name succeeded, and its owner is the user of the first that did; no package without a first version is ever visible |
| `Refinement.VersionRowIffLive` | src/packages.rs:250-289 | A version row exists exactly while its latest successful upload stands, and describes those very bytes |
| `Refinement.RowsHaveFiles` | src/packages.rs:264-285 | Every committed version row, in every reachable state: its package is committed and owned by its uploader, hash and size are those of some content within the limit, its stored path joined to the root is the hash's path, and that file exists |
| `Refinement.ReservationsAreUnique` | src/db.rs:55-73 | Pending and committed package names are distinct across transactions, and so are (package, version) keys |
| `Preservation.EveryRunKeepsInv` | src/packages.rs:181-381 | The whole invariant over every run: reservations, history, tables against catalog, files of live versions, and at most 16 connections held |
| `Registry.OwnerIsFirstPublisher` | src/packages.rs:232-248 | In a sequential history a package exists iff somebody published it, and the first to do so owns it |
| `Registry.OwnerIsForever` | src/packages.rs:342-344 | No continuation changes who owns a package, deletes included |
| `Registry.RepliesMean` | src/packages.rs:97-381 | What each operation replies, over earlier publishes and unpublishes alone: published iff the name is free or one's own and the version not live, refused iff it is another's, unpublished iff own and live, shown and listed exactly the published names with first publisher and live versions |
| `Registry.CatalogHoldsLiveContent` | src/packages.rs:250-289 | The catalog holds exactly the versions whose latest publish no unpublish followed, with that publish's bytes |
| `Registry.FetchIsImmutable` | src/packages.rs:250-262 | Only an unpublish of this very version changes what fetching it yields |
| `Tables.PublishNew` | src/packages.rs:240-289 | Committing a package row and its first version is one publish in the sequential registry and keeps tables and catalog in agreement |
| `Tables.PublishExisting` | src/packages.rs:272-289 | The same for one more version of an owned package |
| `Tables.UnpublishBoth` | src/packages.rs:370-380 | The DELETE finds its row exactly when the catalog has the version, and keeps the agreement |
| `Races.FaultlessAnswers` | src/packages.rs:181-381 | If none of a request's awaits fails, it is turned away for its credential or input, or it is decided; only an upload may still answer Internal, and only if since it started a rival published this version or first published this package |
| `Races.UploadVerdicts` | src/packages.rs:224-285 | In every reachable state: an upload's step answers Forbidden, Conflict, or Internal for a lost race exactly when the sequential history at that moment says the name is another's, the version live, or the race lost |
| `Races.UnauthorizedIff` | src/api.rs:116-124 | A request is told Unauthorized exactly when its key lookup names nobody |
| `Races.KeyedRequestsNeedTheirKey` | src/api.rs:116-124 | An upload or delete that came with a key stays undecided in every run until the lookup of that key names somebody |
| `Progress.WaitingIsAcyclic` | src/packages.rs:219-289 | Waiting on unique keys and on the pool together decreases a rank in every reachable state: no cycle |
| `Progress.KeyHolderIsFree` | src/packages.rs:240-285 | A transaction that has inserted a key others wait for waits for no key and no connection |
| `Progress.NoDeadlock` | src/db.rs:26 | While any request is unanswered, some request or its `put` can take a step that is not a failure, with 16 connections in all |
| `Progress.PoolIsRespected` | src/db.rs:26 | At most 16 connections are out in every reachable state, and a request that wants one gets it exactly while fewer are |
| `Progress.EveryRunEnds` | src/packages.rs:181-381 | Without new arrivals every run is at most `Measure` steps long, whatever fails |
| `Progress.RequestsCanBeAnswered` | src/packages.rs:181-381 | From every reachable state all requests can be answered without a failure or an arrival |
| `BlobFile.RunKeepsInv` | src/storage.rs:41-73 | Last-truncator theorem over every interleaving of writers of one content: each byte is right or a zero hole, the file is never longer than the content, what the last truncator has written is right |
| `BlobFile.LastTruncatorFinished` | src/storage.rs:62-66 | Once the last truncator has finished, the file is the content, whatever the others did |
| `BlobFile.WriteKeepsContent` | src/storage.rs:65 | A write of the right bytes at a writer's own offset keeps bytes right or holes, keeps a right prefix, and extends one that reached the offset |
| `BlobFile.AlwaysFullIff` | src/storage.rs:49-66 | The file holds the content in every continuation if and only if it holds it now and no writer has yet to truncate (or the content is empty) |
| `BlobFile.SettledIsDurable` | src/storage.rs:49-66 | With no `put` in flight and none abandoned the file is the content and stays so |
| `BlobFile.QuietFileIsFrozen` | src/storage.rs:49-55 | When only abandoned writers had bytes left to write, no later `put` ever changes the file |
| `BlobFile.DedupCanReportALostBlob` | src/storage.rs:49-55 | A run in which `put` reports success over a file that is, and stays, empty |
| `BlobFile.FinishedFileCanBeTruncated` | src/storage.rs:49-66 | A run in which a finished file is emptied by a writer that passed the exists-check earlier |
| `BlobStores.BlobStore.Put` | src/storage.rs:41-73 | Hash, path and size returned; an existing file is kept, a new one holds the data, a fault leaves a prefix; the call is a run of the writer protocol |
| `BlobStores.BlobStore.Get` | src/storage.rs:77-85 | The stored bytes, or None exactly when there is no file, or an error only on a faulty disk |
| `BlobStores.BlobStore.PutThenGet` | src/storage.rs:113-134 | What `put` stored `get` returns; putting again changes nothing |
| `Storage.PathForInjective` | src/storage.rs:33-36 | Different digests have different files |
| `Storage.SameFileIffSameContent` | src/storage.rs:94-107 | Without a collision two contents share a file iff they are equal |
| `Storage.BlobPathRejoinsRoot` | src/storage.rs:43-47 | Stripping the root never fails; the stored text split and rejoined to the root is the path |
| `Storage.PathOfContent` | src/storage.rs:33-36 | The directories of a blob are the two digits of the first and of the second byte of its content's digest, and all 64 digits, each as given, name the file |
| `Hex.DecodeEncode` | src/storage.rs:97 | Hexadecimal loses nothing |
| `Hex.EncodeAt` | src/storage.rs:97 | Which digit stands at each place |
| `Text.Utf8CharTells` | src/packages.rs:386 | The UTF-8 form says its character, in as many bytes as the code point needs |
| `Text.SplitJoin` | src/packages.rs:269 | Joining slash-free components and cutting again is the identity |
| `EndToEnd.DownloadsAreImmutable` | src/packages.rs:300-340 | From a moment when a version is live and its file durable, every later download of it is answered with exactly the published bytes or left undecided, until that version is unpublished, whatever else runs |
| `Reliance.AlwaysServedIff` | src/packages.rs:300-340 | From any reachable state every later download of a live version is right in every continuation without a collision or its unpublish, if and only if the version is empty or its file is full and no writer has yet to truncate it |
| `Reliance.ServedWrong` | src/storage.rs:49-66 | Otherwise, from that very state, a run that ends with a fresh download answered with other bytes |
| `Reliance.EmptyIsServed` | src/packages.rs:321-327 | An empty version is never served wrong |
| `EndToEnd.SettledLiveFileIsDurable` | src/storage.rs:41-85 | A live version's file exists, and is durable as soon as no `put` of its bytes is in flight and none was abandoned |
| `EndToEnd.DownloadsAreRightOrHole` | src/packages.rs:321-327 | In every run without a condition on other requests, a served body has only right bytes or zero holes of the version it was decided for, and never more bytes |
| `EndToEnd.FilesMatchContents` | src/storage.rs:33-47 | In every run the files and the contents given to `put` correspond one to one, and each file obeys the last-truncator invariant for its content |
| `Witness.AcknowledgedVersionServedEmpty` | src/storage.rs:49-66 | A complete run of three requests: published, acknowledged, never unpublished, and downloaded as no bytes while another `put` of the same bytes runs |
| `Witness.ViewsCanDisagree` | src/packages.rs:107-117 | A complete run of two uploads that do not overlap, after which `latest_version` may be version 1 while the detail view lists version 2 first |
| `Witness.FileMoves` | src/packages.rs:264-268 | Every run of writer moves on one file is a run of the protocol |
| `Runs.FreshDownload` | src/packages.rs:301-340 | From any state with a free connection a download of a live version, left alone, is answered with whatever its file holds |
| `Checks.TurnedAwayIff` | src/packages.rs:187-208 | Exactly when a call is turned away and with which error, over its name, version and multipart stream |
| `Checks.PassesIff` | src/packages.rs:187-208 | Exactly when a call passes; what an upload then publishes is its first file's body |
| `Handlers.Service.CheckUpload` | src/packages.rs:187-208 | The checks give the error the call deserves, or the first file's body within the limit |
| `Handlers.Service.UploadVersion` | src/packages.rs:181-297 | Alone, an upload is turned away exactly as its call deserves (no `file` part: MissingFile; too long: PayloadTooLarge), or is told Forbidden or Conflict, or adds exactly its version (and package) row for the first file's body, or (only with a fault) answers Internal with the tables unchanged; stored files keep covering the live versions, and stay whole if nothing fails |
| `Handlers.Service.DeleteVersion` | src/packages.rs:345-381 | The same for unpublish; without a fault the answer is fixed by the rows, and only a Deleted answer removes its row |
| `Handlers.Service.DownloadVersion` | src/packages.rs:300-340 | The same for fetch; the body is the file named by the published content's hash, and the published bytes themselves (short of a collision) when no call so far was faulty |
| `Handlers.Service.GetPackage` | src/packages.rs:132-177 | The same for show: the rows returned are this package's version rows, its live versions, listed newest first |
| `Handlers.Service.ListPackages` | src/packages.rs:98-129 | The same for list: every package with its owner, its own version rows and a newest live version, or None exactly when it has none |
| `Handlers.ReadMultipart` | src/packages.rs:190-208 | MissingFile exactly when every part is another field; else the first part that is not decides: its body if it arrived and is within the limit, an error if it is broken, unread or too large |
| `Names.ValidateName` | src/packages.rs:385-406 | Accepts exactly `^[a-z][a-z0-9_-]{0,63}$`, and otherwise reports the first fault |
| `Names.AcceptedNames` | src/packages.rs:386 | The byte-length test agrees with the character count on every accepted name |
| `Names.NameErrorIff` | src/packages.rs:385-406 | Which fault a refused name is told: its length, its first character, or the first bad character after it |
| `Names.NameCharacters` | src/packages.rs:393-399 | The characters a name may start with and contain, written out |
| `Names.WhiteSpaceCharacters` | src/packages.rs:414 | The characters a version may not contain, written out |
| `Names.AcceptedPairSplits` | src/packages.rs:385-420 | Under an accepted name, the accepted versions are exactly the non-empty words for which `name/version` splits back into that pair |
| `Views.ViewsAgreeIff` | src/packages.rs:107-117 | `latest_version` is the head of the detail view, however ties are broken, iff the newest timestamp belongs to one version; and it is None with an empty list |
| `Views.LatestIsMostRecentlyPublished` | src/packages.rs:154-176 | For any list of inserts and removals with increasing stamps, the detail view is the live versions, last inserted first, and `latest_version` the first of them |
| `Views.LatestIsLastPublishedIff` | src/packages.rs:107-117 | Without that condition on stamps: `latest_version` is the last inserted live version iff it is stamped later than each other live one |
| `Timeline.RowsAreEvents` | src/packages.rs:272-285 | In every reachable state a package's rows are what its successful publishes and unpublishes made of them in history order, each stamped with the beginning of its own transaction |
| `Timeline.LatestIsLastPublished` | src/packages.rs:107-117 | In every reachable state `latest_version` is the version published last among the live ones iff its transaction began after those of all the others |
| `Timeline.UploadsInTurn` | src/packages.rs:154-176 | In every run whose uploads of a package do not overlap, under an increasing clock, the detail view is the live versions, last published first, and `latest_version` its head |
| `Orders.Sort` | src/packages.rs:154-158 | ORDER BY a timestamp DESC: every key once, later stamps first |
| `Views.InsertIsEvent` | src/packages.rs:272-285 | A version insert is one event of its own package's rows and leaves other packages' rows alone |
| `Views.RemoveIsEvent` | src/packages.rs:370-376 | The same for a version delete |
| `Migrations.RecordedIsFoldedPrefix` | src/db.rs:102-138 | For any boots, ages and crashes: the recorded set is a prefix of the master list, the schema is its in-order fold, each entry committed once and in order |
| `Migrations.OneEntryCanCommit` | src/db.rs:123-133 | Of transactions in flight on different entries, the earlier entry is already recorded, so at most one distinct entry can still commit |
| `Migrations.CommitsOnlyAdvance` | src/db.rs:113-137 | Recorded entries stay recorded and never commit again |
| `Migrations.FinishedBootIsRecorded` | src/db.rs:119-137 | A boot that returned Ok leaves its whole list recorded |
| `Migrations.FurtherBootChangesNothing` | src/db.rs:119-122 | Once a list is recorded, a boot with it or a shorter one changes nothing at any of its steps, whatever else runs |
| `Migrations.StepFailsIff` | src/db.rs:128-132 | A boot's own statement fails exactly at the bookkeeping insert of an entry already recorded |
| `Migrations.OnlyRivalsStopABoot` | src/db.rs:113-135 | A boot that does not crash fails only at an entry of its list that another boot committed after it started |
| `Migrations.RecordedBootFinishes` | src/db.rs:119-122 | A boot whose list is recorded before it reads the snapshot never fails and never waits, whatever else runs, and returns Ok after exactly one statement for the snapshot, one for each entry and one more |
| `Migrations.UnhinderedBootFinishes` | src/db.rs:102-138 | From any reachable state where it has just started and nobody else is about to commit, a boot finishes by its own statements with its whole list recorded |
| `Migrations.BootsDoNotDeadlock` | src/db.rs:123-133 | While a boot is unfinished, some boot can step |
| `Migrations.ShippedListIsDuplicateFree` | src/db.rs:38-97 | The shipped list meets the hypothesis of the theorems |
| `Migrations.Database.RunMigrations` | src/db.rs:102-138 | The runner alone: success extends the recorded prefix to its list and never shrinks it; an error needs a fault and leaves a longer or equal prefix with its fold |
| `ApiKeys.GeneratePlaintext` | src/api_keys.rs:200-217 | A generated key has the prefix and 60 characters |
| `ApiKeys.ResolveIff` | src/api_keys.rs:174-194 | Whatever failed or lost its reply: a plaintext resolves to a user iff an INSERT that took effect stored it for that user and no revoking UPDATE of that key took effect since |
| `ApiKeys.RepliesTellIff` | src/api_keys.rs:76-169 | The history of replies tells at every moment what a key resolves to iff neither its creation nor its revocation lost its reply |
| `ApiKeys.RevokedWithoutBeingTold` | src/api_keys.rs:157-164 | A history of two requests in which the replies say a key works and it does not |
| `ApiKeys.LostCreation` | src/api_keys.rs:94-102 | A creation that lost its reply made a key that resolves and that no reply mentions |
| `ApiKeys.RevokedOnce` | src/api_keys.rs:157-168 | No key is revoked twice |
| `ApiKeys.RevokeIff` | src/api_keys.rs:157-168 | A revocation that does not fail takes effect iff the history created a key with this id for this user and has not revoked it since |
| `ApiKeys.CreateIff` | src/api_keys.rs:81-102 | A creation that does not fail takes effect iff its name is good and its hash and id are new |
| `ApiKeys.BadKeyNameIff` | src/api_keys.rs:81-84 | A key name is refused iff it is all white space or longer than 64 bytes without the white space around it |
| `ApiKeys.TrimIs` | src/api_keys.rs:81 | The trimmed name is the name without the white space at both ends |
| `ApiKeys.PlaintextTellsDigest` | src/api_keys.rs:212-216 | A key is `jwc_` and the hexadecimal of the first 28 bytes of the digest of what was mixed |
| `ApiKeys.KeyHashIsDigest` | src/api_keys.rs:87 | A key is stored under the hexadecimal digest of its UTF-8 form |
| `ApiKeys.RevokedForEver` | src/api_keys.rs:147-169 | A revoked key never resolves again, whatever follows |
| `ApiKeys.OnlyTheOwnerRevokes` | src/api_keys.rs:159-163 | A successful revocation came from the key's owner |
| `ApiKeys.CreationsAreDistinct` | src/api_keys.rs:94-102 | No plaintext and no id is handed out twice |
| `ApiKeys.ListIsResolvableKeys` | src/api_keys.rs:114-144 | A created key is in a user's list iff it resolves to that user |
| `ApiKeys.ListedKeysWereCreated` | src/api_keys.rs:124-132 | Everything listed was created by an INSERT of that user that took effect and is not revoked; its owner was told so iff that reply was not lost |
| `ApiKeys.KeyStore.CreateKey` | src/api_keys.rs:76-111 | For each outcome of its awaits: refused iff the name is bad; created iff all went well and hash and id are new to the history; a created key adds exactly its row, with trimmed name and 12-character prefix |
| `ApiKeys.KeyStore.List` | src/api_keys.rs:114-144 | The same for list; the user's live keys, each once, newest first |
| `ApiKeys.KeyStore.RevokeKey` | src/api_keys.rs:147-169 | For each outcome: the reply is Revoked iff the history says this user has a live key with this id, and exactly that user's live row with the id is stamped unless the UPDATE failed |
| `ApiKeys.KeyStore.ResolveKey` | src/api_keys.rs:174-194 | For each outcome: a user iff the history says that user holds the key, an error iff an await failed, and only the use of a live key is stamped |
| `Auth.DecodeEncodeBase64Url` | src/auth.rs:209-213 | Base64url without padding (section 5 of RFC 4648) loses nothing |
| `Auth.JwsLooksLikeKeyIff` | src/api_keys.rs:196-198 | A compact JWS (section 7.1 of RFC 7515) starts with `jwc_` iff its header bytes start with 8F 07 3F |
| `Auth.NoSessionTokenLooksLikeKey` | src/api_keys.rs:196-198 | So none with a UTF-8 header does |
| `Auth.ExtractorIff` | src/api.rs:93-137 | Every outcome for every header: MissingHeader iff none, NotBearer iff it is not `Bearer ` and a token, and for each token exactly who gets in and which rejection is given, by whether it starts with `jwc_` |
| `Auth.DispatchIsExact` | src/api.rs:104-137 | A generated key is decided by the key table alone, a session token by its verification alone |
| `Auth.KeyAuthenticatesWhileHeld` | src/api.rs:116-131 | A Bearer key authenticates a user iff that user holds it by the effects so far and the lookup went through; it is called invalid iff nobody holds it, and a failed lookup is told apart |
| `Auth.IdentityIsStable` | src/auth.rs:180-200 | Over any logins no user's id changes, the last login's profile is stored, and two subjects never share an id |
| `Auth.OthersKeepTheirRows` | src/auth.rs:187-189 | Whoever does not log in keeps their row, or stays unknown |
| `Auth.UserTable.UpsertUser` | src/auth.rs:180-200 | The row has the known user's id or the new one, and the profile; nobody else's row changes |

## Left out

- The handler methods of `Handlers` run one at a time; the interleaving is in `Protocol`, whose steps are functions on states.
- In `Protocol` the verdict of the key lookup is an outcome of the step; `ApiKeys` and `Auth` say what it is.
- A migration is any function on schemas, and a failed DDL statement or CREATE TABLE race is a crash of that boot; lock conflicts between DDL statements of two transactions are not modelled.
- Master lists with a repeated name, which the bookkeeping key could not record.
- Row and key-share locks of reads and foreign keys never conflict in these statements, so they are not modelled.
- Power loss: `put` flushes but does not sync; only abandoned calls and stopped processes are covered.
- `blob.size as i64` (src/packages.rs:270) cannot wrap for bodies below 2^63 bytes, and lengths here are unbounded.
- The order of packages by name in the list; owner e-mail addresses, JSON, status codes and headers.
- Google's OAuth exchange, JWT signing and claim checks: verification is a parameter of the dispatch.
- The e-mail address that key resolution looks up; only that the lookup can fail.
- The mixing of the clock into key generation: the mixed bytes are a parameter.
- Router, CORS, compression, static files, configuration, server boot, browser pages.
