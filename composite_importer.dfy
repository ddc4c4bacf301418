// Decisions of the composite RF2 importer: snapshot effective-time key
// normalisation, one release/version update per run of equal keys, the
// release-presence decision table and release matching by OID or short name.

module CompositeImporter {
  import opened Wrappers
  import IndexAdmin

  /** A component import unit: whether its component type is a reference
      set type, and the effective-time key of its rows. */
  datatype Unit = Unit(refSetType: bool, key: string)

  datatype ImportError =
    | NoUnits
    | ImportInProgress
    | ExtensionWithoutInternational
    | DifferentExtensionPresent(shortName: string)

  // ---------------------------------------------------------------------
  // Gathering units
  // ---------------------------------------------------------------------

  /** The index of the greatest key under the effective-time ordering; the
      first of several greatest. */
  function LatestIndex(units: seq<Unit>, rank: string -> int): (r: nat)
    requires |units| > 0
    ensures r < |units|
    ensures forall i :: 0 <= i < |units| ==> rank(units[i].key) <= rank(units[r].key)
    ensures forall i :: 0 <= i < r ==> rank(units[i].key) < rank(units[r].key)
  {
    if |units| == 1 then 0
    else
      var best := LatestIndex(units[..|units| - 1], rank);
      if rank(units[|units| - 1].key) > rank(units[best].key) then |units| - 1 else best
  }

  function WithKey(units: seq<Unit>, key: string): (r: seq<Unit>)
    ensures |r| == |units|
    ensures forall i :: 0 <= i < |units| ==> r[i] == units[i].(key := key)
  {
    seq(|units|, i requires 0 <= i < |units| => units[i].(key := key))
  }

  /** The units of a composite import: for snapshot content every key
      becomes the latest unit's key. Gathering from an empty set of units
      fails on snapshot content. */
  method CompositeUnits(gathered: seq<Unit>, snapshot: bool, rank: string -> int) returns (r: Result<seq<Unit>, ImportError>)
    ensures r.Failure? <==> snapshot && |gathered| == 0
    ensures r.Success? && !snapshot ==> r.value == gathered
    ensures r.Success? && snapshot ==> r.value == WithKey(gathered, gathered[LatestIndex(gathered, rank)].key)
  {
    if !snapshot {
      return Success(gathered);
    }
    if |gathered| == 0 {
      return Failure(NoUnits);
    }
    var latestKey := gathered[LatestIndex(gathered, rank)].key;
    var units := gathered;
    for i := 0 to |units|
      invariant |units| == |gathered|
      invariant forall j :: 0 <= j < i ==> units[j] == gathered[j].(key := latestKey)
      invariant forall j :: i <= j < |units| ==> units[j] == gathered[j]
    {
      units := units[i := units[i].(key := latestKey)];
    }
    r := Success(units);
  }

  // ---------------------------------------------------------------------
  // The import trace
  // ---------------------------------------------------------------------

  datatype Event =
    | InitIndex
    | ImportUnit(unit: Unit)
    | UpdateInfrastructure(infrastructureKey: string)
    | UpdateReleases(releaseKey: string)

  /** What closes a run of equal keys; reference set imports keep no
      taxonomy or index infrastructure. */
  function Flush(key: string, refSet: bool): seq<Event> {
    (if refSet then [] else [UpdateInfrastructure(key)]) + [UpdateReleases(key)]
  }

  /** What the loop does before importing a unit with key next after one
      with key last: it closes the run only when the key changes. */
  function Boundary(last: string, next: string, refSet: bool): seq<Event> {
    if last != next then Flush(last, refSet) else []
  }

  /** The key of the unit before position n, or the first unit's key. */
  function KeyBefore(units: seq<Unit>, first: string, n: nat): string
    requires n <= |units|
  {
    if n == 0 then first else units[n - 1].key
  }

  /** The trace of the loop over the units: a run is flushed when the next
      run's first unit is reached. */
  function LoopTrace(units: seq<Unit>, first: string, refSet: bool): seq<Event>
    decreases |units|
  {
    if |units| == 0 then []
    else
      var n := |units| - 1;
      var last := KeyBefore(units, first, n);
      LoopTrace(units[..n], first, refSet) + Boundary(last, units[n].key, refSet) + [ImportUnit(units[n])]
  }

  /** The loop trace over one more unit of the same list. */
  lemma LoopTracePrefix(units: seq<Unit>, first: string, refSet: bool, i: nat)
    requires i < |units|
    ensures LoopTrace(units[..i + 1], first, refSet) ==
      LoopTrace(units[..i], first, refSet) + Boundary(KeyBefore(units, first, i), units[i].key, refSet) + [ImportUnit(units[i])]
  {
    var p := units[..i + 1];
    assert p[..i] == units[..i];
    assert p[i] == units[i];
    assert KeyBefore(p, first, i) == KeyBefore(units, first, i);
  }

  function ImportTrace(units: seq<Unit>, refSet: bool): seq<Event>
    requires |units| > 0
  {
    (if refSet then [] else [InitIndex]) +
      LoopTrace(units, units[0].key, refSet) + Flush(units[|units| - 1].key, refSet)
  }

  predicate AllRefSet(units: seq<Unit>) {
    forall i :: 0 <= i < |units| ==> units[i].refSetType
  }

  /** Whether every unit is of a reference set type (so true for none). */
  method IsRefSetImport(units: seq<Unit>) returns (b: bool)
    ensures b <==> AllRefSet(units)
  {
    for i := 0 to |units|
      invariant forall j :: 0 <= j < i ==> units[j].refSetType
    {
      if !units[i].refSetType {
        return false;
      }
    }
    return true;
  }

  /** Whose import index service the cleanup of an import finds registered. */
  datatype IndexOwner = ThisImport | OtherImport

  /** Imports the units in order, updating releases and versions once per
      run of equal keys; a non-reference-set import refuses to start while
      another import holds the import index. On every path the cleanup then
      disposes and unregisters whichever import index service is registered,
      even another import's, so no import is in progress afterwards. */
  method DoImport(units: seq<Unit>, importInProgress: bool)
    returns (r: Result<seq<Event>, ImportError>, disposed: Option<IndexOwner>, indexRegistered: bool)
    ensures |units| == 0 ==> r.Failure?
    ensures |units| > 0 ==>
      (r.Failure? <==> !AllRefSet(units) && importInProgress) &&
      (r.Success? ==> r.value == ImportTrace(units, AllRefSet(units)))
    ensures importInProgress ==> disposed == Some(OtherImport)
    ensures !importInProgress ==>
      (disposed == Some(ThisImport) <==> |units| > 0 && !AllRefSet(units)) &&
      (disposed != Some(OtherImport))
    ensures !indexRegistered
  {
    disposed := if importInProgress then Some(OtherImport) else None;
    indexRegistered := false;
    var refSet := IsRefSetImport(units);
    if |units| == 0 {
      return Failure(NoUnits), disposed, indexRegistered;
    }
    var events: seq<Event> := [];
    if !refSet {
      if importInProgress {
        return Failure(ImportInProgress), disposed, indexRegistered;
      }
      events := [InitIndex];
      disposed := Some(ThisImport);
    }
    ghost var prefix := events;
    var lastKey := units[0].key;
    for i := 0 to |units|
      invariant lastKey == KeyBefore(units, units[0].key, i)
      invariant events == prefix + LoopTrace(units[..i], units[0].key, refSet)
    {
      var flush: seq<Event> := [];
      if lastKey != units[i].key {
        flush := Flush(lastKey, refSet);
        lastKey := units[i].key;
      }
      LoopStepEvents(prefix, units, refSet, i, flush);
      events := events + flush + [ImportUnit(units[i])];
    }
    events := events + Flush(lastKey, refSet);
    LoopEndEvents(prefix, units, refSet);
    r := Success(events);
  }

  /** One pass of the import loop extends the trace by one step of LoopTrace. */
  lemma LoopStepEvents(prefix: seq<Event>, units: seq<Unit>, refSet: bool, i: nat, flush: seq<Event>)
    requires i < |units|
    requires flush == Boundary(KeyBefore(units, units[0].key, i), units[i].key, refSet)
    ensures prefix + LoopTrace(units[..i], units[0].key, refSet) + flush + [ImportUnit(units[i])]
            == prefix + LoopTrace(units[..i + 1], units[0].key, refSet)
  {
    var loop := LoopTrace(units[..i], units[0].key, refSet);
    var step := [ImportUnit(units[i])];
    calc {
      prefix + loop + flush + step;
      prefix + (loop + flush + step);
      { LoopTracePrefix(units, units[0].key, refSet, i); }
      prefix + LoopTrace(units[..i + 1], units[0].key, refSet);
    }
  }

  /** After the loop, the final flush completes the import trace. */
  lemma LoopEndEvents(prefix: seq<Event>, units: seq<Unit>, refSet: bool)
    requires |units| > 0
    requires prefix == if refSet then [] else [InitIndex]
    ensures prefix + LoopTrace(units[..|units|], units[0].key, refSet) + Flush(KeyBefore(units, units[0].key, |units|), refSet)
            == ImportTrace(units, refSet)
  {
    assert units[..|units|] == units;
  }

  function Keys(units: seq<Unit>): (r: seq<string>)
    ensures |r| == |units| && forall i :: 0 <= i < |units| ==> r[i] == units[i].key
  {
    if |units| == 0 then [] else Keys(units[..|units| - 1]) + [units[|units| - 1].key]
  }

  /** One key per maximal run of equal consecutive keys. */
  function RunKeys(keys: seq<string>): seq<string> {
    if |keys| == 0 then []
    else
      var n := |keys| - 1;
      if n > 0 && keys[n - 1] == keys[n] then RunKeys(keys[..n]) else RunKeys(keys[..n]) + [keys[n]]
  }

  /** The release update an event makes, if any. */
  function UpdateOf(e: Event): seq<string> {
    if e.UpdateReleases? then [e.releaseKey] else []
  }

  /** The unit an event imports, if any. */
  function ImportOf(e: Event): seq<Unit> {
    if e.ImportUnit? then [e.unit] else []
  }

  /** The keys of the release updates of a trace, in order. */
  function Updates(events: seq<Event>): seq<string> {
    if |events| == 0 then [] else UpdateOf(events[0]) + Updates(events[1..])
  }

  /** The units a trace imports, in order. */
  function Imported(events: seq<Event>): seq<Unit> {
    if |events| == 0 then [] else ImportOf(events[0]) + Imported(events[1..])
  }

  lemma {:induction false} UpdatesAppend(a: seq<Event>, b: seq<Event>)
    ensures Updates(a + b) == Updates(a) + Updates(b)
    decreases |a|
  {
    if |a| == 0 {
      assert a + b == b;
    } else {
      assert (a + b)[0] == a[0];
      assert (a + b)[1..] == a[1..] + b;
      UpdatesAppend(a[1..], b);
      calc {
        Updates(a + b);
        UpdateOf(a[0]) + Updates(a[1..] + b);
        UpdateOf(a[0]) + (Updates(a[1..]) + Updates(b));
        (UpdateOf(a[0]) + Updates(a[1..])) + Updates(b);
      }
    }
  }

  lemma {:induction false} ImportedAppend(a: seq<Event>, b: seq<Event>)
    ensures Imported(a + b) == Imported(a) + Imported(b)
    decreases |a|
  {
    if |a| == 0 {
      assert a + b == b;
    } else {
      assert (a + b)[0] == a[0];
      assert (a + b)[1..] == a[1..] + b;
      ImportedAppend(a[1..], b);
      calc {
        Imported(a + b);
        ImportOf(a[0]) + Imported(a[1..] + b);
        ImportOf(a[0]) + (Imported(a[1..]) + Imported(b));
        (ImportOf(a[0]) + Imported(a[1..])) + Imported(b);
      }
    }
  }

  lemma FlushUpdates(key: string, refSet: bool)
    ensures Updates(Flush(key, refSet)) == [key]
    ensures Imported(Flush(key, refSet)) == []
  {
    var f := Flush(key, refSet);
    var last := [UpdateReleases(key)];
    assert Updates(last) == [key] by {
      assert last[1..] == [];
    }
    assert Imported(last) == [] by {
      assert last[1..] == [];
    }
    if !refSet {
      assert f[1..] == last;
    } else {
      assert f == last;
    }
  }

  lemma ImportUnitEvent(u: Unit)
    ensures Updates([ImportUnit(u)]) == [] && Imported([ImportUnit(u)]) == [u]
  {
    assert [ImportUnit(u)][1..] == [];
  }

  /** How a run boundary shows in the keys: one more run key exactly when
      the last key differs from the one before it. */
  lemma RunKeysStep(units: seq<Unit>)
    requires |units| > 1
    ensures var n := |units| - 1;
      RunKeys(Keys(units)) ==
        RunKeys(Keys(units[..n])) + (if units[n - 1].key != units[n].key then [units[n].key] else [])
  {
    var n := |units| - 1;
    assert Keys(units)[..n] == Keys(units[..n]);
  }

  lemma BoundaryEvents(last: string, next: string, refSet: bool)
    ensures Updates(Boundary(last, next, refSet)) == (if last != next then [last] else [])
    ensures Imported(Boundary(last, next, refSet)) == []
  {
    if last != next {
      FlushUpdates(last, refSet);
    }
  }

  /** A boundary and an import appended to a trace add the boundary's
      release update, if any. */
  lemma StepUpdates(prev: seq<Event>, last: string, next: string, refSet: bool, u: Unit)
    ensures Updates(prev + Boundary(last, next, refSet) + [ImportUnit(u)]) ==
      Updates(prev) + (if last != next then [last] else [])
  {
    var mid := Boundary(last, next, refSet);
    UpdatesAppend(prev + mid, [ImportUnit(u)]);
    UpdatesAppend(prev, mid);
    ImportUnitEvent(u);
    BoundaryEvents(last, next, refSet);
  }

  /** A boundary and an import appended to a trace add the one import. */
  lemma StepImported(prev: seq<Event>, last: string, next: string, refSet: bool, u: Unit)
    ensures Imported(prev + Boundary(last, next, refSet) + [ImportUnit(u)]) == Imported(prev) + [u]
  {
    var mid := Boundary(last, next, refSet);
    ImportedAppend(prev + mid, [ImportUnit(u)]);
    ImportedAppend(prev, mid);
    ImportUnitEvent(u);
    BoundaryEvents(last, next, refSet);
  }

  /** One step of the loop trace, as seen by Updates. */
  lemma LoopTraceStepUpdates(units: seq<Unit>, first: string, refSet: bool)
    requires |units| > 0
    ensures var n := |units| - 1;
      var last := KeyBefore(units, first, n);
      Updates(LoopTrace(units, first, refSet)) ==
        Updates(LoopTrace(units[..n], first, refSet)) + (if last != units[n].key then [last] else [])
  {
    var n := |units| - 1;
    StepUpdates(LoopTrace(units[..n], first, refSet), KeyBefore(units, first, n), units[n].key, refSet, units[n]);
  }

  /** One step of the loop trace, as seen by Imported. */
  lemma LoopTraceStepImported(units: seq<Unit>, first: string, refSet: bool)
    requires |units| > 0
    ensures var n := |units| - 1;
      Imported(LoopTrace(units, first, refSet)) == Imported(LoopTrace(units[..n], first, refSet)) + [units[n]]
  {
    var n := |units| - 1;
    StepImported(LoopTrace(units[..n], first, refSet), KeyBefore(units, first, n), units[n].key, refSet, units[n]);
  }

  /** Within the loop, releases are updated once for every run of equal
      keys but the last. */
  lemma {:induction false} LoopTraceUpdates(units: seq<Unit>, refSet: bool)
    requires |units| > 0
    ensures Updates(LoopTrace(units, units[0].key, refSet)) + [units[|units| - 1].key] == RunKeys(Keys(units))
    decreases |units|
  {
    var first := units[0].key;
    var n := |units| - 1;
    LoopTraceStepUpdates(units, first, refSet);
    if n == 0 {
      assert LoopTrace(units[..0], first, refSet) == [];
    } else {
      assert units[..n][0].key == first;
      LoopTraceUpdates(units[..n], refSet);
      RunKeysStep(units);
    }
  }

  /** A non-empty list is its prefix followed by its last element. */
  lemma LastSplit(units: seq<Unit>)
    requires |units| > 0
    ensures units[..|units| - 1] + [units[|units| - 1]] == units
  {
  }

  /** The loop imports every unit once, in order. */
  lemma {:induction false} LoopTraceImported(units: seq<Unit>, first: string, refSet: bool)
    ensures Imported(LoopTrace(units, first, refSet)) == units
    decreases |units|
  {
    if |units| > 0 {
      var n := |units| - 1;
      calc {
        Imported(LoopTrace(units, first, refSet));
        { LoopTraceStepImported(units, first, refSet); }
        Imported(LoopTrace(units[..n], first, refSet)) + [units[n]];
        { LoopTraceImported(units[..n], first, refSet); }
        units[..n] + [units[n]];
        { LastSplit(units); }
        units;
      }
    }
  }

  /** The events before the loop neither update releases nor import. */
  lemma HeadEvents(refSet: bool)
    ensures var head: seq<Event> := if refSet then [] else [InitIndex];
      Updates(head) == [] && Imported(head) == []
  {
    if !refSet {
      assert [InitIndex][1..] == [];
    }
  }

  /** The import trace updates releases as its loop does, then once more
      for the last run. */
  lemma ImportTraceSplitUpdates(units: seq<Unit>, refSet: bool)
    requires |units| > 0
    ensures Updates(ImportTrace(units, refSet)) ==
      Updates(LoopTrace(units, units[0].key, refSet)) + [units[|units| - 1].key]
  {
    var head: seq<Event> := if refSet then [] else [InitIndex];
    var loop := LoopTrace(units, units[0].key, refSet);
    var tail := Flush(units[|units| - 1].key, refSet);
    calc {
      Updates(ImportTrace(units, refSet));
      Updates(head + loop + tail);
      { UpdatesAppend(head + loop, tail); }
      Updates(head + loop) + Updates(tail);
      { UpdatesAppend(head, loop); HeadEvents(refSet); }
      Updates(loop) + Updates(tail);
      { FlushUpdates(units[|units| - 1].key, refSet); }
      Updates(loop) + [units[|units| - 1].key];
    }
  }

  /** Release and version updates happen once per maximal run of equal
      keys, in run order. */
  lemma ImportTraceUpdates(units: seq<Unit>, refSet: bool)
    requires |units| > 0
    ensures Updates(ImportTrace(units, refSet)) == RunKeys(Keys(units))
  {
    ImportTraceSplitUpdates(units, refSet);
    LoopTraceUpdates(units, refSet);
  }

  /** Every unit is imported once, in order. */
  lemma ImportTraceImported(units: seq<Unit>, refSet: bool)
    requires |units| > 0
    ensures Imported(ImportTrace(units, refSet)) == units
  {
    var head: seq<Event> := if refSet then [] else [InitIndex];
    var loop := LoopTrace(units, units[0].key, refSet);
    var tail := Flush(units[|units| - 1].key, refSet);
    calc {
      Imported(ImportTrace(units, refSet));
      Imported(head + loop + tail);
      { ImportedAppend(head + loop, tail); }
      Imported(head + loop) + Imported(tail);
      { ImportedAppend(head, loop); HeadEvents(refSet); }
      Imported(loop) + Imported(tail);
      { FlushUpdates(units[|units| - 1].key, refSet); LoopTraceImported(units, units[0].key, refSet); }
      units;
    }
  }

  /** Release and version updates happen once per maximal run of equal
      keys, in run order, and every unit is imported once, in order. */
  lemma ImportTraceFollowsRuns(units: seq<Unit>, refSet: bool)
    requires |units| > 0
    ensures Updates(ImportTrace(units, refSet)) == RunKeys(Keys(units))
    ensures Imported(ImportTrace(units, refSet)) == units
  {
    ImportTraceUpdates(units, refSet);
    ImportTraceImported(units, refSet);
  }

  /** Keys that are all the same form a single run. */
  lemma {:induction false} SameKeysOneRun(keys: seq<string>, k: string)
    requires |keys| > 0
    requires forall i :: 0 <= i < |keys| ==> keys[i] == k
    ensures RunKeys(keys) == [k]
    decreases |keys|
  {
    if |keys| > 1 {
      SameKeysOneRun(keys[..|keys| - 1], k);
    }
  }

  /** After snapshot normalisation a non-empty import updates releases and
      versions exactly once, with the latest key. */
  lemma SnapshotImportUpdatesOnce(gathered: seq<Unit>, rank: string -> int, refSet: bool)
    requires |gathered| > 0
    ensures var key := gathered[LatestIndex(gathered, rank)].key;
      Updates(ImportTrace(WithKey(gathered, key), refSet)) == [key]
  {
    var key := gathered[LatestIndex(gathered, rank)].key;
    var units := WithKey(gathered, key);
    var keys := Keys(units);
    assert forall i :: 0 <= i < |keys| ==> keys[i] == key by {
      forall i | 0 <= i < |keys| ensures keys[i] == key {
        assert keys[i] == units[i].key == gathered[i].(key := key).key;
      }
    }
    SameKeysOneRun(keys, key);
    ImportTraceFollowsRuns(units, refSet);
  }

  // ---------------------------------------------------------------------
  // Releases
  // ---------------------------------------------------------------------

  datatype ReleaseType = International | Extension | Mixed

  /** A SNOMED CT release (a code system) with the effective-time keys of
      its versions. */
  datatype Release = Release(releaseType: ReleaseType, shortName: string, oid: Option<string>, versionKeys: seq<string>)

  /** Case-insensitive equality, on ASCII letters. */
  predicate EqualsIgnoreCase(a: string, b: string) {
    |a| == |b| && forall i :: 0 <= i < |a| ==> IndexAdmin.LowerChar(a[i]) == IndexAdmin.LowerChar(b[i])
  }

  predicate HasOid(r: Release) {
    r.oid.Some? && r.oid.value != ""
  }

  /** Releases are matched by OID when every one involved has an OID,
      otherwise by short name. */
  predicate ReleaseExists(release: Release, releases: seq<Release>) {
    if (forall i :: 0 <= i < |releases| ==> HasOid(releases[i])) && HasOid(release) then
      exists i :: 0 <= i < |releases| && EqualsIgnoreCase(releases[i].oid.value, release.oid.value)
    else
      exists i :: 0 <= i < |releases| && EqualsIgnoreCase(releases[i].shortName, release.shortName)
  }

  /** A release is found among releases that contain it. */
  lemma ReleaseFindsItself(release: Release, releases: seq<Release>, i: nat)
    requires i < |releases| && releases[i] == release
    ensures ReleaseExists(release, releases)
  {
    if (forall j :: 0 <= j < |releases| ==> HasOid(releases[j])) && HasOid(release) {
      assert EqualsIgnoreCase(releases[i].oid.value, release.oid.value);
    } else {
      assert EqualsIgnoreCase(releases[i].shortName, release.shortName);
    }
  }

  function CountInternational(releases: seq<Release>): nat {
    if |releases| == 0 then 0
    else CountInternational(releases[..|releases| - 1]) + (if releases[|releases| - 1].releaseType == International then 1 else 0)
  }

  function IsOnlyInternationalPresent(releases: seq<Release>): (b: bool)
    ensures b <==> |releases| == 1 && releases[0].releaseType == International
  {
    if |releases| == 1 then
      assert releases[..0] == [];
      assert CountInternational(releases) == if releases[0].releaseType == International then 1 else 0;
      CountInternational(releases) == 1
    else false
  }

  /** The releases after the presence check, or the reason it fails. */
  function CheckedReleases(releases: seq<Release>, requested: Release, international: Release): Result<seq<Release>, ImportError> {
    if |releases| == 0 then
      match requested.releaseType
      case International => Success([international])
      case Extension => Failure(ExtensionWithoutInternational)
      case Mixed => Success([international, requested])
    else if requested.releaseType == International then Success(releases)
    else if IsOnlyInternationalPresent(releases) then Success(releases + [requested])
    else if !ReleaseExists(requested, releases) then Failure(DifferentExtensionPresent(requested.shortName))
    else Success(releases)
  }

  /** A successful check leaves an extension or mixed release present, and
      never drops a release. */
  lemma CheckedReleasesPresent(releases: seq<Release>, requested: Release, international: Release)
    requires CheckedReleases(releases, requested, international).Success?
    ensures var after := CheckedReleases(releases, requested, international).value;
      && |after| > 0
      && after[..|releases|] == releases
      && (requested.releaseType != International ==> ReleaseExists(requested, after))
  {
    var after := CheckedReleases(releases, requested, international).value;
    if requested.releaseType != International && after != releases {
      ReleaseFindsItself(requested, after, |after| - 1);
    }
  }

  /** Running the check again on its own result changes nothing. */
  lemma CheckedReleasesIdempotent(releases: seq<Release>, requested: Release, international: Release)
    requires international.releaseType == International
    requires CheckedReleases(releases, requested, international).Success?
    ensures var after := CheckedReleases(releases, requested, international).value;
      CheckedReleases(after, requested, international) == Success(after)
  {
    CheckedReleasesPresent(releases, requested, international);
    var after := CheckedReleases(releases, requested, international).value;
    if requested.releaseType != International {
      assert |after| >= 2 || after == releases;
    }
  }

  predicate NoDuplicateKeys(keys: seq<string>) {
    forall i, j :: 0 <= i < j < |keys| ==> keys[i] != keys[j]
  }

  /** No release has two versions under the same key. */
  predicate VersionKeysUnique(releases: seq<Release>) {
    forall k :: 0 <= k < |releases| ==> NoDuplicateKeys(releases[k].versionKeys)
  }

  lemma AppendMissingKeyKeepsUnique(keys: seq<string>, key: string)
    requires NoDuplicateKeys(keys) && key !in keys
    ensures NoDuplicateKeys(keys + [key])
  {
  }

  /** The presence check only adds the international and the requested
      release, so it keeps version keys unique when those two have them so. */
  lemma CheckedKeepsVersionKeysUnique(releases: seq<Release>, requested: Release, international: Release)
    requires VersionKeysUnique(releases)
    requires NoDuplicateKeys(requested.versionKeys) && NoDuplicateKeys(international.versionKeys)
    requires CheckedReleases(releases, requested, international).Success?
    ensures VersionKeysUnique(CheckedReleases(releases, requested, international).value)
  {
    var after := CheckedReleases(releases, requested, international).value;
    CheckedReleasesPresent(releases, requested, international);
    forall k | 0 <= k < |after| ensures NoDuplicateKeys(after[k].versionKeys) {
      if k < |releases| {
        assert after[k] == after[..|releases|][k] == releases[k];
      } else {
        assert after[k] == requested || after[k] == international;
      }
    }
  }

  /** The editing context's releases and the import's settings. */
  class ReleaseContext {
    const requested: Release
    const international: Release
    const versionCreationEnabled: bool
    const unpublishedKey: string
    var releases: seq<Release>
    /** Version tags created, oldest first. */
    var tags: seq<string>

    constructor(requested0: Release, international0: Release, versionCreation: bool, unpublished: string,
                releases0: seq<Release>)
      ensures requested == requested0 && international == international0
      ensures versionCreationEnabled == versionCreation && unpublishedKey == unpublished
      ensures releases == releases0 && tags == []
    {
      requested := requested0;
      international := international0;
      versionCreationEnabled := versionCreation;
      unpublishedKey := unpublished;
      releases := releases0;
      tags := [];
    }

    /** Adds the international release and the requested release as the
        persisted releases demand, or refuses the import. */
    method CheckAndCreateReleases() returns (r: Result<(), ImportError>)
      modifies this
      ensures r.Success? <==> CheckedReleases(old(releases), requested, international).Success?
      ensures r.Success? ==> releases == CheckedReleases(old(releases), requested, international).value
      ensures r.Failure? ==>
        releases == old(releases) && r.error == CheckedReleases(old(releases), requested, international).error
      ensures tags == old(tags)
    {
      if |releases| == 0 {
        match requested.releaseType {
          case International =>
            releases := releases + [international];
          case Extension =>
            return Failure(ExtensionWithoutInternational);
          case Mixed =>
            releases := releases + [international];
            releases := releases + [requested];
        }
      } else if requested.releaseType != International {
        if IsOnlyInternationalPresent(releases) {
          releases := releases + [requested];
        } else if !ReleaseExists(requested, releases) {
          return Failure(DifferentExtensionPresent(requested.shortName));
        }
      }
      r := Success(());
    }

    /** Whether a version of the release already formats to the key. */
    method HasVersion(release: Release, key: string) returns (found: bool)
      ensures found <==> key in release.versionKeys
    {
      found := false;
      for i := 0 to |release.versionKeys|
        invariant !found <==> key !in release.versionKeys[..i]
      {
        if release.versionKeys[i] == key {
          found := true;
          break;
        }
      }
    }

    /** After a run of units: nothing for unpublished content; otherwise the
        release check, then, when version creation is on, a new version and
        tag on the first release unless a version with the key exists. */
    method UpdateReleasesAndVersions(key: string) returns (r: Result<bool, ImportError>)
      modifies this
      ensures key == unpublishedKey ==> r == Success(false) && releases == old(releases) && tags == old(tags)
      ensures key != unpublishedKey ==>
        var checked := CheckedReleases(old(releases), requested, international);
        && (r.Failure? <==> checked.Failure?)
        && (r.Failure? ==> releases == old(releases) && tags == old(tags))
        && (r.Success? ==>
              var first := checked.value[0];
              && (r.value <==> versionCreationEnabled && key !in first.versionKeys)
              && (r.value ==> releases == checked.value[0 := first.(versionKeys := first.versionKeys + [key])] &&
                              tags == old(tags) + [key])
              && (!r.value ==> releases == checked.value && tags == old(tags)))
      ensures VersionKeysUnique(old(releases)) &&
              NoDuplicateKeys(requested.versionKeys) && NoDuplicateKeys(international.versionKeys) ==>
        VersionKeysUnique(releases)
    {
      if key == unpublishedKey {
        return Success(false);
      }
      var checked := CheckAndCreateReleases();
      if checked.Failure? {
        return Failure(checked.error);
      }
      CheckedReleasesPresent(old(releases), requested, international);
      if VersionKeysUnique(old(releases)) && NoDuplicateKeys(requested.versionKeys) && NoDuplicateKeys(international.versionKeys) {
        CheckedKeepsVersionKeysUnique(old(releases), requested, international);
      }
      if !versionCreationEnabled {
        return Success(false);
      }
      var first := releases[0];
      var present := HasVersion(first, key);
      if present {
        return Success(false);
      }
      if VersionKeysUnique(old(releases)) && NoDuplicateKeys(requested.versionKeys) && NoDuplicateKeys(international.versionKeys) {
        AppendMissingKeyKeepsUnique(first.versionKeys, key);
      }
      releases := releases[0 := first.(versionKeys := first.versionKeys + [key])];
      tags := tags + [key];
      r := Success(true);
    }
  }
}
