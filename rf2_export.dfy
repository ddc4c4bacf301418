// Planning of an RF2 export: the request's defaulting setters, the guards on
// special branch paths, the list of version branches (as revision ranges)
// to export, the last version not after a date, the merge of the two
// module-dependency dates, the cut-off timestamp of visible versions and the
// name of the release directory.

module Rf2Export {
  import opened Wrappers

  datatype ReleaseType = Full | Delta | Snapshot

  /** The terminology component types an export can be restricted to. */
  datatype ComponentKind = ConceptKind | DescriptionKind | RelationshipKind | MemberKind | OtherKind(id: string)

  const AllComponentKinds: set<ComponentKind> := {ConceptKind, DescriptionKind, RelationshipKind, MemberKind}

  /** Dates compare as their day numbers. */
  type Date = int

  const MaxLong: int := 0x7FFF_FFFF_FFFF_FFFF

  /** The point-in-time marker and the revision-range separator of branch
      paths. */
  const AtChar: string := "@"
  const RevRange: string := "..."

  datatype ExportError = BadRequest(path: string) | InvalidDate(value: string) | BranchNotFound(segments: seq<string>)

  predicate OccursAt(s: string, sub: string, i: nat) {
    i + |sub| <= |s| && s[i..i + |sub|] == sub
  }

  predicate Contains(s: string, sub: string) {
    exists i: nat | i <= |s| - |sub| :: OccursAt(s, sub, i)
  }

  function RevisionRange(from: string, to: string): string {
    from + RevRange + to
  }

  // ---------------------------------------------------------------------
  // Branch path guards
  // ---------------------------------------------------------------------

  predicate NeedsVersionBranches(start: Option<Date>, end: Option<Date>, includePreRelease: bool) {
    start.Some? || end.Some? || !includePreRelease
  }

  /** A point-in-time path allows only a snapshot; a revision range only an
      unpublished delta. */
  function PathGuard(branch: string, releaseType: ReleaseType, needsVersions: bool): (r: Result<(), ExportError>)
    ensures r.Success? <==> ((Contains(branch, AtChar) ==> releaseType == Snapshot) &&
                             (Contains(branch, RevRange) ==> releaseType == Delta && !needsVersions))
  {
    if Contains(branch, AtChar) && releaseType != Snapshot then Failure(BadRequest(branch))
    else if Contains(branch, RevRange) && (releaseType != Delta || needsVersions) then Failure(BadRequest(branch))
    else Success(())
  }

  /** No release type exports a path that is both a point in time and a
      revision range. */
  lemma PointInTimeRangeRefused(branch: string, releaseType: ReleaseType, needsVersions: bool)
    requires Contains(branch, AtChar) && Contains(branch, RevRange)
    ensures PathGuard(branch, releaseType, needsVersions).Failure?
  {
  }

  // ---------------------------------------------------------------------
  // Branches to export
  // ---------------------------------------------------------------------

  /** A code system version as the export sees it. */
  datatype Version = Version(path: string, effectiveTime: Date)

  /** Strictly ascending effective times: the iteration order of a set of
      versions ordered (and made unique) by effective time. */
  predicate Ascending(vs: seq<Version>) {
    forall i, j :: 0 <= i < j < |vs| ==> vs[i].effectiveTime < vs[j].effectiveTime
  }

  predicate NoDuplicates(s: seq<string>) {
    forall i, j :: 0 <= i < j < |s| ==> s[i] != s[j]
  }

  function Paths(vs: seq<Version>): (r: seq<string>)
    ensures |r| == |vs| && forall i :: 0 <= i < |vs| ==> r[i] == vs[i].path
  {
    if |vs| == 0 then [] else Paths(vs[..|vs| - 1]) + [vs[|vs| - 1].path]
  }

  /** The paths in order of first occurrence, each once. */
  function Distinct(s: seq<string>): (r: seq<string>)
    ensures NoDuplicates(r)
    ensures forall x :: x in r <==> x in s
  {
    if |s| == 0 then []
    else
      var d := Distinct(s[..|s| - 1]);
      if s[|s| - 1] in d then d else d + [s[|s| - 1]]
  }

  /** Distinct keeps a list that has no duplicates as it is. */
  lemma {:induction false} DistinctKeepsDistinct(s: seq<string>)
    requires NoDuplicates(s)
    ensures Distinct(s) == s
  {
    if |s| > 0 {
      var n := |s| - 1;
      assert NoDuplicates(s[..n]);
      DistinctKeepsDistinct(s[..n]);
      assert s[n] !in s[..n];
      assert s == s[..n] + [s[n]];
    }
  }

  /** The branches an export reads, before they become revision ranges. */
  function BranchesToExport(releaseType: ReleaseType, needsVersions: bool, reference: string, versions: seq<Version>): seq<string> {
    if releaseType == Full || (releaseType == Delta && needsVersions) then
      var d := Distinct(Paths(versions));
      if reference in d then d else d + [reference]
    else if releaseType == Delta then []
    else [reference]
  }

  /** Full exports, and deltas that need versions, read every version
      branch once and the reference branch, the reference branch last
      unless it is itself a version branch; other deltas read nothing from
      versions, snapshots only the reference branch. */
  lemma BranchesToExportMeans(releaseType: ReleaseType, needsVersions: bool, reference: string, versions: seq<Version>)
    ensures var bs := BranchesToExport(releaseType, needsVersions, reference, versions);
      && NoDuplicates(bs)
      && (releaseType == Full || (releaseType == Delta && needsVersions) ==>
            (forall x :: x in bs <==> x in Paths(versions) || x == reference) &&
            (reference !in Paths(versions) ==> bs[|bs| - 1] == reference))
      && (releaseType == Delta && !needsVersions ==> bs == [])
      && (releaseType == Snapshot ==> bs == [reference])
  {
    var d := Distinct(Paths(versions));
    if reference !in d {
      assert NoDuplicates(d + [reference]);
    }
  }

  /** Each branch after the first becomes the range from its predecessor. */
  function Ranges(bs: seq<string>): (r: seq<string>)
    ensures |r| == |bs|
    ensures |bs| > 0 ==> r[0] == bs[0]
    ensures forall i :: 0 < i < |bs| ==> r[i] == RevisionRange(bs[i - 1], bs[i])
  {
    seq(|bs|, i requires 0 <= i < |bs| => if i == 0 then bs[0] else RevisionRange(bs[i - 1], bs[i]))
  }

  /** The version paths in order, each once. */
  method DistinctPaths(versions: seq<Version>) returns (branches: seq<string>)
    ensures branches == Distinct(Paths(versions))
  {
    branches := [];
    ghost var paths := Paths(versions);
    for i := 0 to |versions|
      invariant branches == Distinct(paths[..i])
    {
      assert paths[..i + 1][..i] == paths[..i];
      if versions[i].path !in branches {
        branches := branches + [versions[i].path];
      }
    }
    assert paths[..|versions|] == paths;
  }

  /** Turns every branch after the first into a range from its predecessor. */
  method RangesOf(branches: seq<string>) returns (ranges: seq<string>)
    ensures ranges == Ranges(branches)
  {
    ranges := [];
    for i := 0 to |branches|
      invariant |ranges| == i
      invariant i > 0 ==> ranges[0] == branches[0]
      invariant forall j :: 0 < j < i ==> ranges[j] == RevisionRange(branches[j - 1], branches[j])
    {
      var previous := if i == 0 then None else Some(branches[i - 1]);
      var range := if previous.None? then branches[i] else RevisionRange(previous.value, branches[i]);
      ranges := ranges + [range];
    }
    ghost var spec := Ranges(branches);
    assert forall j :: 0 <= j < |ranges| ==> ranges[j] == spec[j];
  }

  method ComputeBranchesToExport(releaseType: ReleaseType, needsVersions: bool, reference: string, versions: seq<Version>)
    returns (ranges: seq<string>)
    ensures ranges == Ranges(BranchesToExport(releaseType, needsVersions, reference, versions))
  {
    var branches: seq<string> := [];
    if releaseType == Full || (releaseType == Delta && needsVersions) {
      branches := DistinctPaths(versions);
      if reference !in branches {
        branches := branches + [reference];
      }
    } else if releaseType == Snapshot {
      branches := [reference];
    }
    ranges := RangesOf(branches);
  }

  // ---------------------------------------------------------------------
  // Versions and dates
  // ---------------------------------------------------------------------

  /** The last version before the first one after the timestamp; on
      versions in ascending order, the latest version not after it. */
  method VersionBefore(versions: seq<Version>, timestamp: Date) returns (r: Option<Version>)
    ensures r.None? <==> (|versions| == 0 || versions[0].effectiveTime > timestamp)
    ensures r.Some? ==> r.value in versions && r.value.effectiveTime <= timestamp
    ensures Ascending(versions) && r.Some? ==>
      forall v :: v in versions && v.effectiveTime <= timestamp ==> v.effectiveTime <= r.value.effectiveTime
    ensures Ascending(versions) && r.None? ==> forall v :: v in versions ==> v.effectiveTime > timestamp
  {
    r := None;
    var i := 0;
    while i < |versions|
      invariant 0 <= i <= |versions|
      invariant forall j :: 0 <= j < i ==> versions[j].effectiveTime <= timestamp
      invariant r.None? <==> i == 0
      invariant r.Some? ==> r.value == versions[i - 1]
    {
      if versions[i].effectiveTime > timestamp {
        break;
      }
      r := Some(versions[i]);
      i := i + 1;
    }
  }

  /** The later of the two module-dependency dates; the source date on a
      tie. */
  function LatestModuleDate(source: Option<Date>, target: Option<Date>): (r: Option<Date>)
    ensures r.None? <==> source.None? && target.None?
    ensures r.Some? ==> r == source || r == target
    ensures source.Some? ==> r.Some? && source.value <= r.value
    ensures target.Some? ==> r.Some? && target.value <= r.value
    ensures source.Some? && target.Some? && source.value == target.value ==> r == source
  {
    if source.None? && target.None? then None
    else if source.None? then target
    else if target.None? then source
    else if source.value > target.value then source
    else if target.value > source.value then target
    else source
  }

  // ---------------------------------------------------------------------
  // Cut-off timestamp
  // ---------------------------------------------------------------------

  const MainPath: seq<string> := ["MAIN"]

  predicate IsPrefix(a: seq<string>, b: seq<string>) {
    |a| <= |b| && b[..|a|] == a
  }

  /** Every branch path lives under MAIN. */
  predicate UnderMain(path: seq<string>) {
    |path| >= 1 && path[0] == "MAIN"
  }

  /** The base timestamp that limits the versions visible from a branch:
      unlimited on the versions' parent branch and on MAIN, the branch's own
      base on a direct child of the versions' parent, otherwise the
      parent's cut-off. A missing parent branch is an error. */
  function CutoffBaseTimestamp(path: seq<string>, baseTimestamp: int, versionParent: seq<string>,
                               branches: map<seq<string>, int>): Result<int, ExportError>
    requires UnderMain(path)
    decreases |path|
  {
    if path == versionParent || path == MainPath then Success(MaxLong)
    else
      var parent := path[..|path| - 1];
      if parent == versionParent then Success(baseTimestamp)
      else if parent !in branches then Failure(BranchNotFound(parent))
      else CutoffBaseTimestamp(parent, branches[parent], versionParent, branches)
  }

  /** Every ancestor of the path (MAIN excluded) is a known branch. */
  predicate AncestorsKnown(path: seq<string>, branches: map<seq<string>, int>) {
    forall k :: 1 <= k < |path| ==> path[..k] in branches
  }

  /** Below the versions' parent, the cut-off is the base of the ancestor
      that is the parent's direct child (the branch itself included). */
  lemma {:induction false} CutoffBelowVersionParent(path: seq<string>, baseTimestamp: int, versionParent: seq<string>,
                                                     branches: map<seq<string>, int>)
    requires UnderMain(path) && UnderMain(versionParent)
    requires IsPrefix(versionParent, path) && |versionParent| < |path|
    requires AncestorsKnown(path, branches)
    ensures var child := path[..|versionParent| + 1];
      CutoffBaseTimestamp(path, baseTimestamp, versionParent, branches) ==
        Success(if child == path then baseTimestamp else branches[child])
    decreases |path|
  {
    var parent := path[..|path| - 1];
    assert path != MainPath;
    if parent != versionParent {
      assert |versionParent| < |parent|;
      assert IsPrefix(versionParent, parent) by {
        assert parent[..|versionParent|] == path[..|versionParent|];
      }
      assert AncestorsKnown(parent, branches) by {
        forall k | 1 <= k < |parent| ensures parent[..k] in branches {
          assert parent[..k] == path[..k];
        }
      }
      CutoffBelowVersionParent(parent, branches[parent], versionParent, branches);
      assert parent[..|versionParent| + 1] == path[..|versionParent| + 1];
    }
  }

  /** A branch that is not below the versions' parent sees every version. */
  lemma {:induction false} CutoffOutsideVersionParent(path: seq<string>, baseTimestamp: int, versionParent: seq<string>,
                                                      branches: map<seq<string>, int>)
    requires UnderMain(path)
    requires !(IsPrefix(versionParent, path) && |versionParent| < |path|)
    requires AncestorsKnown(path, branches)
    ensures CutoffBaseTimestamp(path, baseTimestamp, versionParent, branches) == Success(MaxLong)
    decreases |path|
  {
    if path != versionParent && path != MainPath {
      var parent := path[..|path| - 1];
      assert |path| > 1;
      assert parent != versionParent;
      assert !(IsPrefix(versionParent, parent) && |versionParent| < |parent|);
      assert AncestorsKnown(parent, branches) by {
        forall k | 1 <= k < |parent| ensures parent[..k] in branches {
          assert parent[..k] == path[..k];
        }
      }
      assert parent in branches by {
        assert parent == path[..|path| - 1];
      }
      CutoffOutsideVersionParent(parent, branches[parent], versionParent, branches);
    }
  }

  // ---------------------------------------------------------------------
  // Release directory
  // ---------------------------------------------------------------------

  function ReleaseStatus(includePreRelease: bool): string {
    if includePreRelease then "BETA" else "PRODUCTION"
  }

  function ReleaseDirectoryName(includePreRelease: bool, effectiveDate: string): string {
    "SNOMEDCT_RF2_" + ReleaseStatus(includePreRelease) + "_" + effectiveDate
  }

  /** The directory name tells the release status and the date apart. */
  lemma ReleaseDirectoryNameInjective(p1: bool, d1: string, p2: bool, d2: string)
    requires ReleaseDirectoryName(p1, d1) == ReleaseDirectoryName(p2, d2)
    ensures p1 == p2 && d1 == d2
  {
    var n1 := ReleaseDirectoryName(p1, d1);
    var n2 := ReleaseDirectoryName(p2, d2);
    assert n1[13] == ReleaseStatus(p1)[0];
    assert n2[13] == ReleaseStatus(p2)[0];
    var k := 13 + |ReleaseStatus(p1)| + 1;
    assert d1 == n1[k..];
    assert d2 == n2[k..];
  }

  // ---------------------------------------------------------------------
  // The request
  // ---------------------------------------------------------------------

  class ExportRequest {
    var releaseType: ReleaseType
    var includePreReleaseContent: bool
    var startEffectiveTime: Option<Date>
    var endEffectiveTime: Option<Date>
    /** None until the setter ran; the setter never leaves it absent. */
    var componentTypes: Option<set<ComponentKind>>
    /** None means every module. */
    var modules: Option<set<string>>
    /** None means every reference set. */
    var refSets: Option<set<string>>
    /** "" leaves effective time columns blank. */
    var transientEffectiveTime: Option<string>

    constructor(releaseType0: ReleaseType)
      ensures releaseType == releaseType0 && !includePreReleaseContent
      ensures startEffectiveTime == None && endEffectiveTime == None
      ensures componentTypes == None && modules == None && refSets == None && transientEffectiveTime == None
    {
      releaseType := releaseType0;
      includePreReleaseContent := false;
      startEffectiveTime := None;
      endEffectiveTime := None;
      componentTypes := None;
      modules := None;
      refSets := None;
      transientEffectiveTime := None;
    }

    /** An absent collection selects all four component types; a present
        one, even empty, is taken as given. */
    method SetComponentTypes(ts: Option<seq<ComponentKind>>)
      modifies this
      ensures componentTypes == Some(if ts.Some? then set t | t in ts.value else AllComponentKinds)
      ensures modules == old(modules) && refSets == old(refSets) && transientEffectiveTime == old(transientEffectiveTime)
      ensures releaseType == old(releaseType) && includePreReleaseContent == old(includePreReleaseContent)
      ensures startEffectiveTime == old(startEffectiveTime) && endEffectiveTime == old(endEffectiveTime)
    {
      componentTypes := Some(if ts.Some? then set t | t in ts.value else AllComponentKinds);
    }

    method SetModules(ms: Option<seq<string>>)
      modifies this
      ensures modules == (if ms.Some? then Some(set m | m in ms.value) else None)
      ensures componentTypes == old(componentTypes) && refSets == old(refSets) && transientEffectiveTime == old(transientEffectiveTime)
      ensures releaseType == old(releaseType) && includePreReleaseContent == old(includePreReleaseContent)
      ensures startEffectiveTime == old(startEffectiveTime) && endEffectiveTime == old(endEffectiveTime)
    {
      modules := if ms.Some? then Some(set m | m in ms.value) else None;
    }

    method SetRefSets(rs: Option<seq<string>>)
      modifies this
      ensures refSets == (if rs.Some? then Some(set r | r in rs.value) else None)
      ensures componentTypes == old(componentTypes) && modules == old(modules) && transientEffectiveTime == old(transientEffectiveTime)
      ensures releaseType == old(releaseType) && includePreReleaseContent == old(includePreReleaseContent)
      ensures startEffectiveTime == old(startEffectiveTime) && endEffectiveTime == old(endEffectiveTime)
    {
      refSets := if rs.Some? then Some(set r | r in rs.value) else None;
    }

    /** Absent or empty means blank; "NOW" means today's short date; any
        other value must itself be a short date, else nothing changes. */
    method SetTransientEffectiveTime(t: Option<string>, today: string, isShortDate: string -> bool)
      returns (r: Result<(), ExportError>)
      modifies this
      ensures r.Failure? <==> t.Some? && t.value != "" && t.value != "NOW" && !isShortDate(t.value)
      ensures r.Failure? ==> transientEffectiveTime == old(transientEffectiveTime)
      ensures r.Success? ==>
        (transientEffectiveTime == Some(if t.None? || t.value == "" then "" else if t.value == "NOW" then today else t.value))
      ensures componentTypes == old(componentTypes) && modules == old(modules) && refSets == old(refSets)
      ensures releaseType == old(releaseType) && includePreReleaseContent == old(includePreReleaseContent)
      ensures startEffectiveTime == old(startEffectiveTime) && endEffectiveTime == old(endEffectiveTime)
    {
      if t.None? || t.value == "" {
        transientEffectiveTime := Some("");
      } else if t.value == "NOW" {
        transientEffectiveTime := Some(today);
      } else {
        if !isShortDate(t.value) {
          return Failure(InvalidDate(t.value));
        }
        transientEffectiveTime := Some(t.value);
      }
      r := Success(());
    }

    method SetEffectiveTimes(start: Option<Date>, end: Option<Date>, includePreRelease: bool)
      modifies this
      ensures startEffectiveTime == start && endEffectiveTime == end && includePreReleaseContent == includePreRelease
      ensures releaseType == old(releaseType)
      ensures componentTypes == old(componentTypes) && modules == old(modules)
      ensures refSets == old(refSets) && transientEffectiveTime == old(transientEffectiveTime)
    {
      startEffectiveTime := start;
      endEffectiveTime := end;
      includePreReleaseContent := includePreRelease;
    }

    /** The path guards and the branch plan of an export from a branch. */
    method Plan(reference: string, versions: seq<Version>) returns (r: Result<seq<string>, ExportError>)
      ensures var needs := NeedsVersionBranches(startEffectiveTime, endEffectiveTime, includePreReleaseContent);
        r == (if PathGuard(reference, releaseType, needs).Failure? then Failure(PathGuard(reference, releaseType, needs).error)
              else Success(Ranges(BranchesToExport(releaseType, needs, reference, versions))))
    {
      var needs := startEffectiveTime.Some? || endEffectiveTime.Some? || !includePreReleaseContent;
      var guard := PathGuard(reference, releaseType, needs);
      if guard.Failure? {
        return Failure(guard.error);
      }
      var ranges := ComputeBranchesToExport(releaseType, needs, reference, versions);
      r := Success(ranges);
    }
  }
}
