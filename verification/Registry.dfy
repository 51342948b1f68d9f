/**
 * The registry a client believes in: one operation at a time on a map from
 * package names to an owner and the bytes of each live version. It knows
 * nothing of rows, transactions or files.
 */
module Registry {
  import opened Wrappers
  import opened Text

  type UserId = nat

  datatype Package = Package(owner: UserId, versions: map<string, Bytes>)
  type Catalog = map<string, Package>

  datatype Op =
    | Publish(user: UserId, name: string, version: string, content: Bytes)
    | Unpublish(user: UserId, name: string, version: string)
    | Fetch(name: string, version: string)
    | Show(name: string)
    | ListAll

  datatype Reply =
    | Published
    | Unpublished
    | Fetched(content: Bytes)
    | Shown(package: Package)
    | Listed(catalog: Catalog)
    | Refused
    | Duplicate
    | Missing

  function Apply(c: Catalog, op: Op): (Catalog, Reply) {
    match op
    case Publish(user, name, version, content) =>
      if name !in c then
        (c[name := Package(user, map[version := content])], Published)
      else if c[name].owner != user then (c, Refused)
      else if version in c[name].versions then (c, Duplicate)
      else (c[name := c[name].(versions := c[name].versions[version := content])], Published)
    case Unpublish(user, name, version) =>
      if name !in c then (c, Missing)
      else if c[name].owner != user then (c, Refused)
      else if version !in c[name].versions then (c, Missing)
      else (c[name := c[name].(versions := c[name].versions - {version})], Unpublished)
    case Fetch(name, version) =>
      if name in c && version in c[name].versions then (c, Fetched(c[name].versions[version])) else (c, Missing)
    case Show(name) => if name in c then (c, Shown(c[name])) else (c, Missing)
    case ListAll => (c, Listed(c))
  }

  /** A sequential history: who issued each operation, in the order they took effect. */
  datatype Entry = Entry(request: nat, op: Op)
  type History = seq<Entry>

  function Replay(h: History): Catalog {
    if h == [] then map[] else Apply(Replay(h[..|h| - 1]), h[|h| - 1].op).0
  }

  function ReplyAt(h: History, k: nat): Reply
    requires k < |h|
  {
    Apply(Replay(h[..k]), h[k].op).1
  }

  lemma ReplayExtend(h: History, e: Entry)
    ensures Replay(h + [e]) == Apply(Replay(h), e.op).0
    ensures ReplyAt(h + [e], |h|) == Apply(Replay(h), e.op).1
  {
    assert (h + [e])[..|h|] == h;
  }

  lemma ReplyInLongerHistory(h: History, h': History, k: nat)
    requires h <= h' && k < |h|
    ensures ReplyAt(h', k) == ReplyAt(h, k)
  {
    assert h'[..k] == h[..k];
  }

  // ---- what a sequential history means, read off the history alone ----

  ghost predicate PublishedAt(h: History, k: nat, name: string)
    requires k < |h|
  {
    h[k].op.Publish? && h[k].op.name == name && ReplyAt(h, k).Published?
  }

  ghost predicate FirstPublishedAt(h: History, k: nat, name: string)
    requires k < |h|
  {
    PublishedAt(h, k, name) && forall j: nat :: j < k ==> !PublishedAt(h, j, name)
  }

  lemma FirstPublishedInLongerHistory(h: History, h': History, k: nat, name: string)
    requires h <= h' && k < |h|
    ensures FirstPublishedAt(h', k, name) <==> FirstPublishedAt(h, k, name)
  {
    forall j: nat | j <= k ensures PublishedAt(h', j, name) <==> PublishedAt(h, j, name) {
      ReplyInLongerHistory(h, h', j);
    }
  }

  /**
   * First publisher wins: a package exists exactly when somebody has published
   * it, and its owner is whoever did so first.
   */
  lemma {:induction false} OwnerIsFirstPublisher(h: History, name: string) returns (first: Option<nat>)
    ensures name in Replay(h) <==> first.Some?
    ensures first.Some? ==> first.value < |h| && FirstPublishedAt(h, first.value, name)
                            && Replay(h)[name].owner == h[first.value].op.user
    ensures first.None? ==> forall k: nat :: k < |h| ==> !PublishedAt(h, k, name)
    decreases |h|
  {
    if h == [] {
      return None;
    }
    var n := |h| - 1;
    var g := h[..n];
    first := OwnerIsFirstPublisher(g, name);
    if first.Some? {
      FirstPublishedInLongerHistory(g, h, first.value, name);
    } else {
      forall k: nat | k < n ensures !PublishedAt(h, k, name) {
        ReplyInLongerHistory(g, h, k);
        assert !PublishedAt(g, k, name);
      }
      if PublishedAt(h, n, name) {
        first := Some(n);
      }
    }
  }

  /** Ownership and existence survive every continuation. */
  lemma {:induction false} OwnerIsForever(h: History, h': History, name: string)
    requires h <= h' && name in Replay(h)
    ensures name in Replay(h') && Replay(h')[name].owner == Replay(h)[name].owner
    decreases |h'|
  {
    if |h| < |h'| {
      OwnerIsForever(h, h'[..|h'| - 1], name);
    } else {
      assert h == h';
    }
  }

  /** The bytes of the latest successful publish of this version that no successful unpublish follows. */
  function LiveContent(h: History, name: string, version: string): Option<Bytes> {
    if h == [] then None
    else
      var n := |h| - 1;
      var e := h[n].op;
      if e.Publish? && e.name == name && e.version == version && ReplyAt(h, n).Published? then Some(e.content)
      else if e.Unpublish? && e.name == name && e.version == version && ReplyAt(h, n).Unpublished? then None
      else LiveContent(h[..n], name, version)
  }

  /** The catalog holds exactly the live versions, each with its most recently published bytes. */
  lemma {:induction false} CatalogHoldsLiveContent(h: History, name: string, version: string)
    ensures name in Replay(h) && version in Replay(h)[name].versions <==> LiveContent(h, name, version).Some?
    ensures LiveContent(h, name, version).Some? ==> Replay(h)[name].versions[version] == LiveContent(h, name, version).value
    decreases |h|
  {
    if h == [] {
    } else {
      var n := |h| - 1;
      CatalogHoldsLiveContent(h[..n], name, version);
    }
  }

  /** A live version was published: its latest successful publish is in the history. */
  lemma {:induction false} LiveWasPublished(h: History, name: string, version: string) returns (k: nat)
    requires LiveContent(h, name, version).Some?
    ensures k < |h| && PublishedAt(h, k, name) && h[k].op.version == version
    ensures LiveContent(h, name, version) == Some(h[k].op.content)
    decreases |h|
  {
    var n := |h| - 1;
    if PublishedAt(h, n, name) && h[n].op.version == version {
      k := n;
    } else {
      k := LiveWasPublished(h[..n], name, version);
      ReplyInLongerHistory(h[..n], h, k);
    }
  }

  ghost predicate Touches(e: Entry, name: string, version: string) {
    (e.op.Publish? || e.op.Unpublish?) && e.op.name == name && e.op.version == version
  }

  /** Only a publish or an unpublish of this very version changes what fetching it yields. */
  lemma {:induction false} FetchIsImmutable(h: History, h': History, name: string, version: string, content: Bytes)
    requires h <= h'
    requires Apply(Replay(h), Fetch(name, version)).1 == Fetched(content)
    requires forall k :: |h| <= k < |h'| && h'[k].op.Unpublish? && Touches(h'[k], name, version) ==>
               !ReplyAt(h', k).Unpublished?
    ensures Apply(Replay(h'), Fetch(name, version)).1 == Fetched(content)
    decreases |h'|
  {
    if |h| < |h'| {
      var n := |h'| - 1;
      var g := h'[..n];
      forall k | |h| <= k < n && g[k].op.Unpublish? && Touches(g[k], name, version) ensures !ReplyAt(g, k).Unpublished? {
        ReplyInLongerHistory(g, h', k);
        assert !ReplyAt(h', k).Unpublished?;
      }
      FetchIsImmutable(h, g, name, version, content);
      assert Touches(h'[n], name, version) && h'[n].op.Unpublish? ==> !ReplyAt(h', n).Unpublished?;
    } else {
      assert h == h';
    }
  }

  // ---- what each reply means, in terms of what was published and unpublished before ----

  ghost predicate Known(h: History, name: string) {
    exists k: nat :: k < |h| && PublishedAt(h, k, name)
  }

  /** `user` was the first to publish this name. */
  ghost predicate OwnedBy(h: History, name: string, user: UserId) {
    exists k: nat :: k < |h| && FirstPublishedAt(h, k, name) && h[k].op.user == user
  }

  predicate IsLive(h: History, name: string, version: string) {
    LiveContent(h, name, version).Some?
  }

  /** `p` is the first publisher with exactly the live versions and their bytes. */
  ghost predicate IsPackage(h: History, name: string, p: Package) {
    && OwnedBy(h, name, p.owner)
    && (forall v :: v in p.versions <==> IsLive(h, name, v))
    && (forall v :: v in p.versions ==> LiveContent(h, name, v) == Some(p.versions[v]))
  }

  ghost predicate IsCatalog(h: History, c: Catalog) {
    && (forall n :: n in c <==> Known(h, n))
    && (forall n :: n in c ==> IsPackage(h, n, c[n]))
  }

  ghost predicate Means(h: History, op: Op, reply: Reply) {
    match op
    case Publish(user, name, version, _) =>
      && (reply == Refused <==> Known(h, name) && !OwnedBy(h, name, user))
      && (reply == Duplicate <==> OwnedBy(h, name, user) && IsLive(h, name, version))
      && (reply == Published <==> (Known(h, name) ==> OwnedBy(h, name, user)) && !IsLive(h, name, version))
    case Unpublish(user, name, version) =>
      && (reply == Refused <==> Known(h, name) && !OwnedBy(h, name, user))
      && (reply == Unpublished <==> OwnedBy(h, name, user) && IsLive(h, name, version))
      && (reply == Missing <==> !Known(h, name) || (OwnedBy(h, name, user) && !IsLive(h, name, version)))
    case Fetch(name, version) =>
      reply == (match LiveContent(h, name, version) case Some(content) => Fetched(content) case None => Missing)
    case Show(name) =>
      if Known(h, name) then reply.Shown? && IsPackage(h, name, reply.package) else reply == Missing
    case ListAll => reply.Listed? && IsCatalog(h, reply.catalog)
  }

  lemma OneFirstPublisher(h: History, name: string, j: nat, k: nat)
    requires j < |h| && k < |h| && FirstPublishedAt(h, j, name) && FirstPublishedAt(h, k, name)
    ensures j == k
  {}

  /** The catalog holds exactly the packages that were published, each with its first publisher. */
  lemma CatalogKnows(h: History, name: string)
    ensures name in Replay(h) <==> Known(h, name)
    ensures forall u :: OwnedBy(h, name, u) <==> name in Replay(h) && Replay(h)[name].owner == u
  {
    hide ReplyAt;
    var first := OwnerIsFirstPublisher(h, name);
    if first.Some? {
      FirstIsPublished(h, first.value, name);
      forall u | OwnedBy(h, name, u) ensures Replay(h)[name].owner == u {
        var k: nat :| k < |h| && FirstPublishedAt(h, k, name) && h[k].op.user == u;
        OneFirstPublisher(h, name, first.value, k);
      }
    } else {
      forall k: nat | k < |h| ensures !FirstPublishedAt(h, k, name) {
        assert !PublishedAt(h, k, name);
      }
    }
  }

  lemma FirstIsPublished(h: History, k: nat, name: string)
    requires k < |h| && FirstPublishedAt(h, k, name)
    ensures PublishedAt(h, k, name)
  {}

  lemma CatalogIsCatalog(h: History)
    ensures IsCatalog(h, Replay(h))
  {
    hide Replay, Known, OwnedBy, LiveContent;
    forall n ensures n in Replay(h) <==> Known(h, n) { CatalogKnows(h, n); }
    forall n | n in Replay(h) ensures IsPackage(h, n, Replay(h)[n]) {
      CatalogKnows(h, n);
      forall v ensures v in Replay(h)[n].versions <==> IsLive(h, n, v) { CatalogHoldsLiveContent(h, n, v); }
      forall v | v in Replay(h)[n].versions ensures LiveContent(h, n, v) == Some(Replay(h)[n].versions[v]) {
        CatalogHoldsLiveContent(h, n, v);
      }
    }
  }

  /**
   * What each operation replies, by what was published and unpublished before: who
   * published the name first, and which versions are live with which bytes. With
   * `PublishedAt` and `LiveContent` reading these very replies, this fixes them all.
   */
  lemma RepliesMean(h: History, k: nat)
    requires k < |h|
    ensures Means(h[..k], h[k].op, ReplyAt(h, k))
  {
    hide Known, OwnedBy, IsPackage, IsCatalog;
    var g, op := h[..k], h[k].op;
    CatalogIsCatalog(g);
    if !op.ListAll? {
      CatalogKnows(g, op.name);
      KnownIsPackage(g, op.name);
    }
    if op.Publish? || op.Unpublish? || op.Fetch? { CatalogHoldsLiveContent(g, op.name, op.version); }
  }

  lemma KnownIsPackage(h: History, name: string)
    ensures name in Replay(h) ==> IsPackage(h, name, Replay(h)[name])
  {
    CatalogIsCatalog(h);
  }
}
