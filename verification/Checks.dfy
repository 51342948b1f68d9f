/**
 * Which calls the handlers turn away before any statement, and with which error,
 * said over the call alone: its name, its version and its multipart stream.
 */
module Checks {
  import opened Wrappers
  import opened Text
  import opened Names
  import opened Registry
  import opened Tables
  import opened Protocol

  // ---- the multipart stream ----

  predicate Skipped(p: Part) {
    p.Field? && p.name != Some("file")
  }

  /** Part `i` is the first `file` field, or where the framing breaks before one. */
  predicate Decisive(parts: seq<Part>, i: nat) {
    i < |parts| && !Skipped(parts[i]) && forall j :: 0 <= j < i ==> Skipped(parts[j])
  }

  /** `body` is the body of the first `file` field, and no framing error comes before it. */
  ghost predicate FirstFile(parts: seq<Part>, body: Bytes) {
    exists i: nat :: Decisive(parts, i) && parts[i].Field? && parts[i].body == Some(body)
  }

  ghost predicate NoFile(parts: seq<Part>) {
    forall i :: 0 <= i < |parts| ==> Skipped(parts[i])
  }

  /** The first part that is not another field is a framing error, or a file whose body did not arrive. */
  ghost predicate BrokenFile(parts: seq<Part>) {
    exists i: nat :: Decisive(parts, i) && (parts[i].Broken? || parts[i].body.None?)
  }

  // ---- calls ----

  ghost predicate GoodName(call: Call) {
    call.List? || IsPackageName(call.name)
  }

  ghost predicate GoodPath(call: Call) {
    && GoodName(call)
    && (call.Upload? || call.Delete? || call.Download? ==> IsVersion(call.version))
  }

  /** The call is turned away with error `e`. */
  ghost predicate Deserves(call: Call, max: nat, e: PackageError) {
    match e
    case BadName(fault) => !call.List? && NameFaultIs(call.name, fault)
    case BadVersion => GoodName(call) && !GoodPath(call)
    case MissingFile => call.Upload? && GoodPath(call) && NoFile(call.parts)
    case PayloadTooLarge(limit) =>
      call.Upload? && GoodPath(call) && limit == max && exists body :: FirstFile(call.parts, body) && |body| > max
    case Internal => call.Upload? && GoodPath(call) && BrokenFile(call.parts)
    case _ => false
  }

  /** The call gets past the checks. */
  ghost predicate Passes(call: Call, max: nat) {
    GoodPath(call) && (call.Upload? ==> exists body :: FirstFile(call.parts, body) && |body| <= max)
  }

  lemma OneFirstFile(parts: seq<Part>, i: nat, j: nat)
    requires Decisive(parts, i) && Decisive(parts, j)
    ensures i == j
  {}

  lemma {:induction false} FirstFileDecides(parts: seq<Part>, max: nat)
    ensures FileOf(parts, max) == Failure(MissingFile) <==> NoFile(parts)
    ensures forall i: nat :: Decisive(parts, i) ==>
              FileOf(parts, max) == if parts[i].Broken? || parts[i].body.None? then Failure(Internal)
                                    else if |parts[i].body.value| > max then Failure(PayloadTooLarge(max))
                                    else Success(parts[i].body.value)
    ensures NoFile(parts) || exists i: nat :: Decisive(parts, i)
  {
    if parts == [] {
    } else if Skipped(parts[0]) {
      var rest := parts[1..];
      FirstFileDecides(rest, max);
      assert forall i :: 0 < i < |parts| ==> parts[i] == rest[i - 1];
      forall i: nat | Decisive(parts, i) ensures i > 0 && Decisive(rest, i - 1) {
        forall j | 0 <= j < i - 1 ensures Skipped(rest[j]) { assert Skipped(parts[j + 1]); }
      }
      if !NoFile(rest) {
        var i: nat :| Decisive(rest, i);
        assert Decisive(parts, i + 1) by {
          forall j | 0 <= j < i + 1 ensures Skipped(parts[j]) { if j > 0 { assert Skipped(rest[j - 1]); } }
        }
      }
    } else {
      assert Decisive(parts, 0);
    }
  }

  /** What the stream yields, over the stream alone. */
  lemma FileOfIff(parts: seq<Part>, max: nat)
    ensures FileOf(parts, max) == Failure(MissingFile) <==> NoFile(parts)
    ensures FileOf(parts, max) == Failure(Internal) <==> BrokenFile(parts)
    ensures forall limit :: FileOf(parts, max) == Failure(PayloadTooLarge(limit)) <==>
              limit == max && exists body :: FirstFile(parts, body) && |body| > max
    ensures forall body :: FileOf(parts, max) == Success(body) <==> FirstFile(parts, body) && |body| <= max
    ensures FileOf(parts, max).Failure? ==> FileOf(parts, max).error in {MissingFile, Internal, PayloadTooLarge(max)}
  {
    FirstFileDecides(parts, max);
    if !NoFile(parts) {
      var i: nat :| Decisive(parts, i);
      forall j: nat | Decisive(parts, j) ensures j == i { OneFirstFile(parts, i, j); }
      if parts[i].Field? && parts[i].body.Some? { assert FirstFile(parts, parts[i].body.value); }
    }
  }

  /** Exactly when each call is turned away, and with which error. */
  lemma TurnedAwayIff(cfg: Config, call: Call, e: PackageError)
    ensures Fault(cfg, call) == Some(e) <==> Deserves(call, cfg.maxUpload, e)
  {
    hide FileOf, NameError, IsPackageName, NameFaultIs, NoFile, BrokenFile, FirstFile;
    if !call.List? {
      AcceptedNames(call.name);
      NameErrorIff(call.name);
    }
    if call.Upload? { FileOfIff(call.parts, cfg.maxUpload); }
  }

  /** Exactly when a call gets past the checks; an upload then publishes its first file's body. */
  lemma PassesIff(cfg: Config, call: Call)
    ensures Fault(cfg, call).None? <==> Passes(call, cfg.maxUpload)
    ensures Passes(call, cfg.maxUpload) && call.Upload? ==>
              forall body :: FirstFile(call.parts, body) <==> body == Content(cfg, call)
  {
    hide FileOf, NameError, IsPackageName, FirstFile;
    if !call.List? { AcceptedNames(call.name); }
    if call.Upload? {
      FileOfIff(call.parts, cfg.maxUpload);
      forall a, b | FirstFile(call.parts, a) && FirstFile(call.parts, b) ensures a == b {
        SameFirstFile(call.parts, a, b);
      }
    }
  }

  lemma SameFirstFile(parts: seq<Part>, a: Bytes, b: Bytes)
    requires FirstFile(parts, a) && FirstFile(parts, b)
    ensures a == b
  {
    var i: nat :| Decisive(parts, i) && parts[i].Field? && parts[i].body == Some(a);
    var j: nat :| Decisive(parts, j) && parts[j].Field? && parts[j].body == Some(b);
    OneFirstFile(parts, i, j);
  }

  /** The call asks for this operation: an upload, for the body of the first `file` part of its stream. */
  ghost predicate AsksFor(call: Call, max: nat, op: Op) {
    match call
    case Upload(user, name, version, parts) =>
      exists body :: FirstFile(parts, body) && |body| <= max && op == Publish(user, name, version, body)
    case Delete(user, name, version) => op == Unpublish(user, name, version)
    case Download(name, version) => op == Fetch(name, version)
    case Get(name) => op == Show(name)
    case List => op == ListAll
  }

  lemma AskedIsAskedFor(cfg: Config, call: Call)
    requires Fault(cfg, call).None?
    ensures GoodPath(call) && AsksFor(call, cfg.maxUpload, Asked(cfg, call))
  {
    hide Fault, Content, FirstFile;
    PassesIff(cfg, call);
    if call.Upload? { assert FirstFile(call.parts, Content(cfg, call)); }
  }
}
