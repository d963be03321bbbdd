/** Versions, version requirements and version buckets (package/src/version.rs, package/src/resolve.rs). */
module Versions {
  import opened Types
  import opened Ordering

  datatype SemVer = SemVer(major: nat, minor: nat, patch: nat, pre: string)

  /** The derived order, which compares prerelease tags as plain strings. */
  predicate SemVerLe(a: SemVer, b: SemVer) {
    if a.major != b.major then a.major < b.major
    else if a.minor != b.minor then a.minor < b.minor
    else if a.patch != b.patch then a.patch < b.patch
    else StringLe(a.pre, b.pre)
  }

  lemma VersionsAreOrdered()
    ensures TotalOrder(SemVerLe)
  {
    StringsAreOrdered();
  }

  datatype SemVerPrefix = SemVerPrefix(major: nat, minor: Option<nat>, patch: Option<nat>) {
    predicate Matches(v: SemVer) {
      match (minor, patch)
      case (None, _) => v.major == major
      case (Some(minor), None) => v.major == major && v.minor >= minor
      case (Some(minor), Some(patch)) => v.major == major && v.minor == minor && v.patch >= patch
    }
  }

  datatype VersionReq = Compatible(prefix: SemVerPrefix) | Exact(version: SemVer) {
    predicate Matches(v: SemVer) {
      match this
      case Compatible(prefix) => prefix.Matches(v)
      case Exact(w) => v == w
    }
  }

  function OrZero(n: Option<nat>): nat {
    if n.Some? then n.value else 0
  }

  /** A collection of compatible versions. */
  datatype BucketVersion = Major(major: nat) | Minor(minor: nat) | Prerelease(version: SemVer) {
    predicate Contains(v: SemVer) {
      match this
      case Major(major) => v.major == major && v.pre == ""
      case Minor(minor) => v.major == 0 && v.minor == minor && v.pre == ""
      case Prerelease(w) => v == w
    }
  }

  function MajorMinor(major: nat, minor: nat): BucketVersion {
    if major == 0 then Minor(minor) else Major(major)
  }

  function BucketOf(v: SemVer): BucketVersion {
    if v.pre == "" then MajorMinor(v.major, v.minor) else Prerelease(v)
  }

  function BucketFor(req: VersionReq): BucketVersion {
    match req
    case Compatible(prefix) => MajorMinor(prefix.major, OrZero(prefix.minor))
    case Exact(v) => BucketOf(v)
  }

  /** The range a requirement hands to the version solver, besides its bucket. */
  predicate InRange(req: VersionReq, v: SemVer) {
    match req
    case Compatible(prefix) => SemVerLe(SemVer(prefix.major, OrZero(prefix.minor), OrZero(prefix.patch), ""), v)
    case Exact(w) => v == w
  }

  /** The least version that a requirement with a prefix speaks of. */
  function LowerBound(prefix: SemVerPrefix): SemVer {
    SemVer(prefix.major, OrZero(prefix.minor), if prefix.minor.Some? then OrZero(prefix.patch) else 0, "")
  }

  /** A version matches if it has the same major number and is no earlier; with a patch number, also the minor one. */
  lemma MatchesExactly(prefix: SemVerPrefix, v: SemVer)
    ensures prefix.Matches(v) <==>
            && v.major == prefix.major && SemVerLe(LowerBound(prefix), v)
            && (prefix.minor.Some? && prefix.patch.Some? ==> v.minor == prefix.minor.value)
  {
  }

  /** In its bucket, a requirement matches what is in its range, but for the later minor versions if it has a patch. */
  lemma MatchesInBucket(prefix: SemVerPrefix, v: SemVer)
    requires prefix.minor.None? ==> prefix.patch.None?
    requires BucketFor(Compatible(prefix)).Contains(v)
    ensures prefix.Matches(v) <==>
            InRange(Compatible(prefix), v) && (prefix.patch.Some? ==> v.minor == prefix.minor.value)
  {
  }

  /** The lower bound itself is matched, and in the bucket and the range that the solver is given. */
  lemma LowerBoundIsAdmitted(prefix: SemVerPrefix)
    requires prefix.minor.None? ==> prefix.patch.None?
    ensures
      var v := LowerBound(prefix);
      && prefix.Matches(v) && InRange(Compatible(prefix), v)
      && BucketFor(Compatible(prefix)).Contains(v) && BucketFor(Compatible(prefix)) == BucketOf(v)
  {
  }

  /** Every version lies in its own bucket and in no other, so buckets keep versions apart. */
  lemma BucketsAreDisjoint(b: BucketVersion, v: SemVer)
    requires b.Major? ==> b.major != 0
    requires b.Prerelease? ==> b.version.pre != ""
    ensures b.Contains(v) <==> b == BucketOf(v)
  {
  }

  /** The first version of a list that a requirement accepts. */
  function FirstMatch(versions: seq<SemVer>, req: VersionReq): Option<SemVer> {
    if versions == [] then None
    else if req.Matches(versions[0]) then Some(versions[0])
    else FirstMatch(versions[1..], req)
  }

  /** No version of the list that `req` accepts is below `v`. */
  ghost predicate LeastMatch(versions: seq<SemVer>, req: VersionReq, v: SemVer) {
    v in versions && req.Matches(v) && forall w <- versions | req.Matches(w) :: SemVerLe(v, w)
  }

  lemma {:induction false} FirstMatchIsLeastMatch(versions: seq<SemVer>, req: VersionReq)
    requires Ascending(versions, SemVerLe)
    ensures FirstMatch(versions, req).None? ==> forall v <- versions :: !req.Matches(v)
    ensures FirstMatch(versions, req).Some? ==> LeastMatch(versions, req, FirstMatch(versions, req).value)
  {
    hide SemVerLe;
    if versions != [] {
      var rest := versions[1..];
      assert versions == [versions[0]] + rest;
      assert forall w <- rest :: SemVerLe(versions[0], w);
      VersionsAreOrdered();
      FirstMatchIsLeastMatch(rest, req);
    }
  }

  lemma LeastIsUnique(versions: seq<SemVer>, req: VersionReq, v: SemVer, w: SemVer)
    requires LeastMatch(versions, req, v) && LeastMatch(versions, req, w)
    ensures v == w
  {
    hide SemVerLe;
    VersionsAreOrdered();
  }

  /** On an ascending list the first match is the least one. */
  lemma FirstMatchIsLeast(versions: seq<SemVer>, req: VersionReq)
    requires Ascending(versions, SemVerLe)
    ensures FirstMatch(versions, req).None? <==> forall v <- versions :: !req.Matches(v)
    ensures forall v :: FirstMatch(versions, req) == Some(v) <==> LeastMatch(versions, req, v)
  {
    hide SemVerLe, Ascending, FirstMatch;
    FirstMatchIsLeastMatch(versions, req);
    forall v | LeastMatch(versions, req, v) ensures FirstMatch(versions, req) == Some(v) {
      LeastIsUnique(versions, req, v, FirstMatch(versions, req).value);
    }
  }

  /** What the solver promises about the versions it picked for one package: one for each bucket, out of that bucket. */
  ghost predicate Picked(picks: map<BucketVersion, SemVer>, versions: seq<SemVer>) {
    && (forall b <- picks :: b == BucketOf(picks[b]))
    && versions == SortedVersions(picks.Values)
  }

  function SortedVersions(versions: set<SemVer>): (r: seq<SemVer>)
    ensures (forall v :: v in r <==> v in versions) && Ascending(r, SemVerLe)
  {
    VersionsAreOrdered();
    Sorted(versions, SemVerLe)
  }

  /** A prerelease that `req` accepts and that sorts before `v`. */
  ghost predicate Shadowed(picks: map<BucketVersion, SemVer>, req: VersionReq, v: SemVer) {
    exists b <- picks :: b.Prerelease? && req.Matches(b.version) && b.version != v && SemVerLe(b.version, v)
  }

  /** A release of another bucket that `req` accepts comes after the version picked for its own. */
  lemma OtherReleaseIsLater(req: VersionReq, v: SemVer, w: SemVer)
    requires BucketFor(req) == BucketOf(v) && req.Matches(v) && req.Matches(w) && w.pre == ""
    requires BucketOf(w) != BucketOf(v)
    ensures SemVerLe(v, w)
  {
  }

  /**
   * The lookup by first match finds the version that was picked for the requirement's own bucket
   * exactly when the requirement accepts that version and no accepted prerelease sorts before it.
   */
  lemma FirstMatchFindsOwnBucket(picks: map<BucketVersion, SemVer>, versions: seq<SemVer>, req: VersionReq)
    requires Picked(picks, versions) && BucketFor(req) in picks
    ensures var v := picks[BucketFor(req)];
      FirstMatch(versions, req) == Some(v) <==> req.Matches(v) && !Shadowed(picks, req, v)
  {
    hide SemVerLe, BucketFor;
    var v := picks[BucketFor(req)];
    FirstMatchIsLeast(versions, req);
    VersionsAreOrdered();
    assert v in versions;
    if req.Matches(v) && !Shadowed(picks, req, v) {
      forall w <- versions | req.Matches(w) ensures SemVerLe(v, w) {
        var b :| b in picks && picks[b] == w;
        if w != v && w.pre == "" {
          OtherReleaseIsLater(req, v, w);
        }
      }
    }
    if FirstMatch(versions, req) == Some(v) {
      forall b <- picks | b.Prerelease? && req.Matches(b.version) ensures b.version == v || !SemVerLe(b.version, v) {
        assert b.version == picks[b] && b.version in versions;
      }
    }
  }

  /** Without prereleases the lookup is right for every requirement that has no patch number or is exact. */
  lemma ReleasesWithoutPatch(picks: map<BucketVersion, SemVer>, versions: seq<SemVer>, req: VersionReq)
    requires Picked(picks, versions) && BucketFor(req) in picks && InRange(req, picks[BucketFor(req)])
    requires forall v <- versions :: v.pre == ""
    requires req.Exact? || req.prefix.patch.None?
    ensures FirstMatch(versions, req) == Some(picks[BucketFor(req)])
  {
    FirstMatchFindsOwnBucket(picks, versions, req);
    forall b <- picks ensures !b.Prerelease? {
      assert picks[b] in versions;
    }
  }

  /**
   * A requirement with a patch number: the solver may pick a later minor version, which the lookup
   * rejects. Then it finds nothing at all, and the code that expects a version stops.
   */
  lemma ReleasesWithPatch(picks: map<BucketVersion, SemVer>, versions: seq<SemVer>, req: VersionReq)
    requires Picked(picks, versions) && BucketFor(req) in picks && InRange(req, picks[BucketFor(req)])
    requires forall v <- versions :: v.pre == ""
    requires req.Compatible? && req.prefix.minor.Some? && req.prefix.patch.Some?
    ensures var v := picks[BucketFor(req)];
      FirstMatch(versions, req) == if v.minor == req.prefix.minor.value then Some(v) else None
  {
    var v := picks[BucketFor(req)];
    FirstMatchFindsOwnBucket(picks, versions, req);
    forall b <- picks ensures !b.Prerelease? {
      assert picks[b] in versions;
    }
    if v.minor != req.prefix.minor.value {
      FirstMatchIsLeast(versions, req);
      forall w <- versions ensures !req.Matches(w) {
        var b :| b in picks && picks[b] == w;
      }
    }
  }

  /** The requirement 1.2.3 with the picked version 1.5.0: in its bucket and range, and not found. */
  lemma PatchWitness()
    ensures var req := Compatible(SemVerPrefix(1, Some(2), Some(3)));
      var v := SemVer(1, 5, 0, "");
      && BucketFor(req).Contains(v) && InRange(req, v)
      && FirstMatch([v], req) == None
  {
    var req := Compatible(SemVerPrefix(1, Some(2), Some(3)));
    assert !req.Matches(SemVer(1, 5, 0, ""));
  }
}
