// Index administration: settings defaulting and dynamic updates, physical
// index names, deduplicated refreshes, the per-type mapping migration
// decision, the cluster-health wait and the bounded version-conflict retry
// loop of bulk update/delete-by-query.

module IndexAdmin {
  import opened Wrappers
  import IndexMapping

  // ---------------------------------------------------------------------
  // Settings
  // ---------------------------------------------------------------------

  datatype SettingKey =
    | CommitConcurrencyLevel
    | ResultWindow
    | MaxTermsCount
    | TranslogSyncInterval
    | BulkActionsSize
    | BulkActionsSizeInMb
    | CommitWatermarkLow
    | CommitWatermarkHigh
    | IndexPrefix
    | NumberOfShards
    | ClusterHealthTimeout
    | SocketTimeout
    | OtherSetting(key: string)

  /** A setting value as the settings map holds it: boxed integers and
      strings are different values even when they read alike. */
  datatype SettingValue = IntSetting(i: int) | StrSetting(s: string)

  type Settings = map<SettingKey, SettingValue>

  /** The keys the constructor fills in, in the order it fills them. */
  const DefaultedKeys: seq<SettingKey> := [
    CommitConcurrencyLevel, ResultWindow, MaxTermsCount, TranslogSyncInterval,
    BulkActionsSize, BulkActionsSizeInMb, CommitWatermarkLow, CommitWatermarkHigh
  ]

  /** Settings Elasticsearch accepts on a live index. */
  const DynamicSettings: set<SettingKey> := {ResultWindow}

  /** Settings only the index client reads; never sent to Elasticsearch. */
  const LocalSettings: set<SettingKey> := {CommitWatermarkLow, CommitWatermarkHigh}

  const MaxVersionConflictRetries: nat := 5
  const ConflictStatus: int := 409

  datatype AdminError =
    | NotDynamic(keys: set<SettingKey>)
    | NotAcknowledged(index: string)
    | MappingUnavailable(index: string)
    | HealthUnavailable
    | NotYellow
    | ScrollIoError
    | IndexingFailures
    | RetriesExhausted

  function PutIfAbsent(s: Settings, k: SettingKey, v: SettingValue): Settings {
    if k in s then s else s[k := v]
  }

  predicate CoversKeys(defaults: Settings, keys: seq<SettingKey>) {
    forall i :: 0 <= i < |keys| ==> keys[i] in defaults
  }

  /** The defaults table applied key after key with put-if-absent. */
  function FillDefaults(s: Settings, keys: seq<SettingKey>, defaults: Settings): Settings
    requires CoversKeys(defaults, keys)
    decreases |keys|
  {
    if |keys| == 0 then s
    else
      var n := |keys| - 1;
      PutIfAbsent(FillDefaults(s, keys[..n], defaults), keys[n], defaults[keys[n]])
  }

  /** A caller-supplied value survives defaulting; a missing defaulted key
      gets the table's value; no other key appears. */
  lemma {:induction false} FillDefaultsNeverOverwrites(s: Settings, keys: seq<SettingKey>, defaults: Settings, k: SettingKey)
    requires CoversKeys(defaults, keys)
    ensures k in s ==> k in FillDefaults(s, keys, defaults) && FillDefaults(s, keys, defaults)[k] == s[k]
    ensures k !in s && k in keys ==> k in FillDefaults(s, keys, defaults) && FillDefaults(s, keys, defaults)[k] == defaults[k]
    ensures k !in s && k !in keys ==> k !in FillDefaults(s, keys, defaults)
    decreases |keys|
  {
    if |keys| > 0 {
      var n := |keys| - 1;
      assert CoversKeys(defaults, keys[..n]) by {
        forall i | 0 <= i < n ensures keys[..n][i] in defaults { assert keys[..n][i] == keys[i]; }
      }
      FillDefaultsNeverOverwrites(s, keys[..n], defaults, k);
      assert keys == keys[..n] + [keys[n]];
      if k !in s && k in keys && k !in keys[..n] {
        assert k == keys[n];
      }
    }
  }

  /** The separator-terminated prefix of every index name. */
  function PrefixFor(p: string): string {
    if |p| == 0 then "" else p + "."
  }

  function LowerChar(c: char): char {
    if 'A' <= c <= 'Z' then (c as int + 32) as char else c
  }

  /** ASCII lower-casing of the index name. */
  function LowerAscii(s: string): (r: string)
    ensures |r| == |s|
    ensures forall i :: 0 <= i < |r| ==> !('A' <= r[i] <= 'Z')
    ensures forall i :: 0 <= i < |s| && !('A' <= s[i] <= 'Z') ==> r[i] == s[i]
  {
    seq(|s|, i requires 0 <= i < |s| => LowerChar(s[i]))
  }

  lemma LowerAsciiIdempotent(s: string)
    ensures LowerAscii(LowerAscii(s)) == LowerAscii(s)
  {
    var t := LowerAscii(s);
    forall i | 0 <= i < |t| ensures LowerAscii(t)[i] == t[i] { }
  }

  predicate Changed(current: Settings, incoming: Settings, k: SettingKey)
    requires k in incoming
  {
    k !in current || current[k] != incoming[k]
  }

  predicate Differs(current: Settings, incoming: Settings) {
    exists k :: k in incoming && Changed(current, incoming, k)
  }

  function Unsupported(incoming: Settings): set<SettingKey> {
    incoming.Keys - DynamicSettings - LocalSettings
  }

  /** The part of an update that is sent to Elasticsearch. */
  function EsSettings(incoming: Settings): (r: Settings)
    ensures r.Keys !! LocalSettings
    ensures forall k :: k in incoming && k !in LocalSettings ==> k in r && r[k] == incoming[k]
    ensures r.Keys <= incoming.Keys
  {
    map k | k in incoming && k !in LocalSettings :: incoming[k]
  }

  /** The no-op check: any key whose new value differs from the current one. */
  method ShouldUpdate(current: Settings, incoming: Settings) returns (b: bool)
    ensures b == Differs(current, incoming)
  {
    b := false;
    var rest := incoming.Keys;
    while rest != {}
      invariant rest <= incoming.Keys
      invariant b <==> exists k :: k in incoming.Keys - rest && Changed(current, incoming, k)
      decreases rest
    {
      var k :| k in rest;
      if Changed(current, incoming, k) {
        b := true;
      }
      rest := rest - {k};
    }
  }

  /** Settings pushes over the type indices in order: only existing indices
      get a request, and the first unacknowledged one stops the update. */
  datatype PushRun = PushRun(sent: seq<string>, rejected: Option<string>)

  function Pushes(indices: seq<string>, existing: set<string>, acknowledged: set<string>): PushRun
    decreases |indices|
  {
    if |indices| == 0 then PushRun([], None)
    else if indices[0] !in existing then Pushes(indices[1..], existing, acknowledged)
    else if indices[0] !in acknowledged then PushRun([indices[0]], Some(indices[0]))
    else
      var rest := Pushes(indices[1..], existing, acknowledged);
      PushRun([indices[0]] + rest.sent, rest.rejected)
  }

  lemma {:induction false} PushesMeans(indices: seq<string>, existing: set<string>, acknowledged: set<string>)
    ensures forall j :: 0 <= j < |Pushes(indices, existing, acknowledged).sent| ==>
      Pushes(indices, existing, acknowledged).sent[j] in existing
    ensures Pushes(indices, existing, acknowledged).rejected == None <==>
      (forall i :: 0 <= i < |indices| && indices[i] in existing ==> indices[i] in acknowledged)
    ensures Pushes(indices, existing, acknowledged).rejected.Some? ==>
      Pushes(indices, existing, acknowledged).rejected.value in existing - acknowledged
    decreases |indices|
  {
    if |indices| > 0 {
      PushesMeans(indices[1..], existing, acknowledged);
      if Pushes(indices, existing, acknowledged).rejected == None {
        forall i | 0 <= i < |indices| && indices[i] in existing ensures indices[i] in acknowledged {
          if i > 0 { assert indices[i] == indices[1..][i - 1]; }
        }
      } else if indices[0] !in existing || indices[0] in acknowledged {
        var w :| 0 <= w < |indices[1..]| && indices[1..][w] in existing && indices[1..][w] !in acknowledged;
        assert indices[w + 1] == indices[1..][w];
      }
    }
  }

  datatype UpdateResult = UpdateResult(requests: seq<string>, outcome: Result<Settings, AdminError>)

  /** What updateSettings does to the settings map and which indices it
      sends a request to: empty input and a no-op change do nothing, an
      unsupported key fails before anything is sent, otherwise the
      non-local subset is pushed and on success all entries are merged. */
  function SettingsUpdate(current: Settings, incoming: Settings, indices: seq<string>,
                          existing: set<string>, acknowledged: set<string>): UpdateResult
  {
    if |incoming| == 0 then UpdateResult([], Success(current))
    else if Unsupported(incoming) != {} then UpdateResult([], Failure(NotDynamic(Unsupported(incoming))))
    else if !Differs(current, incoming) then UpdateResult([], Success(current))
    else
      var p := Pushes(indices, existing, acknowledged);
      UpdateResult(p.sent,
        if p.rejected.Some? then Failure(NotAcknowledged(p.rejected.value))
        else Success(current + incoming))
  }

  /** All-or-nothing key check: one unsupported key rejects the whole update
      and no index is contacted. */
  lemma UnsupportedKeyRejectsAll(current: Settings, incoming: Settings, indices: seq<string>,
                                 existing: set<string>, acknowledged: set<string>, k: SettingKey)
    requires k in incoming && k !in DynamicSettings && k !in LocalSettings
    ensures SettingsUpdate(current, incoming, indices, existing, acknowledged).requests == []
    ensures SettingsUpdate(current, incoming, indices, existing, acknowledged).outcome.Failure?
    ensures k in SettingsUpdate(current, incoming, indices, existing, acknowledged).outcome.error.keys
  {
    assert k in Unsupported(incoming);
  }

  /** A successful update makes the same update a no-op. */
  lemma UpdateIsIdempotent(current: Settings, incoming: Settings, indices: seq<string>,
                           existing: set<string>, acknowledged: set<string>)
    requires SettingsUpdate(current, incoming, indices, existing, acknowledged).outcome.Success?
    ensures var next := SettingsUpdate(current, incoming, indices, existing, acknowledged).outcome.value;
      SettingsUpdate(next, incoming, indices, existing, acknowledged) == UpdateResult([], Success(next))
  {
    var next := SettingsUpdate(current, incoming, indices, existing, acknowledged).outcome.value;
    if |incoming| != 0 {
      assert next == current || next == current + incoming;
      forall k | k in incoming ensures !Changed(next, incoming, k) {
        if next != current + incoming {
          assert !Differs(current, incoming);
          assert !Changed(current, incoming, k);
        }
      }
    }
  }

  /** A successful update leaves every incoming value in the settings and
      every other key as it was. */
  lemma UpdateMergesIncoming(current: Settings, incoming: Settings, indices: seq<string>,
                             existing: set<string>, acknowledged: set<string>, k: SettingKey)
    requires SettingsUpdate(current, incoming, indices, existing, acknowledged).outcome.Success?
    ensures var next := SettingsUpdate(current, incoming, indices, existing, acknowledged).outcome.value;
      (k in incoming ==> k in next && next[k] == incoming[k]) &&
      (k !in incoming ==> (k in next <==> k in current) && (k in current ==> next[k] == current[k]))
  {
    var next := SettingsUpdate(current, incoming, indices, existing, acknowledged).outcome.value;
    if k in incoming && next == current {
      assert !Differs(current, incoming);
      assert !Changed(current, incoming, k);
    }
  }

  // ---------------------------------------------------------------------
  // Index names and refresh
  // ---------------------------------------------------------------------

  /** A document type and, for nested types, the type that owns its index. */
  datatype Mapping = Mapping(typeName: string, parent: Option<string>)

  function Owner(m: Mapping): string {
    if m.parent.Some? then m.parent.value else m.typeName
  }

  /** The physical index of a type: prefix, index name, "-", owning type. */
  function TypeIndex(prefix: string, name: string, m: Mapping): string {
    prefix + name + "-" + Owner(m)
  }

  /** Two types share a physical index exactly when they share an owner. */
  lemma SameIndexIffSameOwner(prefix: string, name: string, m1: Mapping, m2: Mapping)
    ensures TypeIndex(prefix, name, m1) == TypeIndex(prefix, name, m2) <==> Owner(m1) == Owner(m2)
  {
    var h := prefix + name + "-";
    assert TypeIndex(prefix, name, m1) == h + Owner(m1);
    assert TypeIndex(prefix, name, m2) == h + Owner(m2);
    assert (h + Owner(m1))[|h|..] == Owner(m1);
    assert (h + Owner(m2))[|h|..] == Owner(m2);
  }

  /** A nested type is stored in its parent's index. */
  lemma ChildSharesParentIndex(prefix: string, name: string, child: Mapping, parent: Mapping)
    requires child.parent == Some(parent.typeName) && parent.parent == None
    ensures TypeIndex(prefix, name, child) == TypeIndex(prefix, name, parent)
  {
  }

  function Indices(prefix: string, name: string, ms: seq<Mapping>): (r: seq<string>)
    ensures |r| == |ms|
    ensures forall i :: 0 <= i < |ms| ==> r[i] == TypeIndex(prefix, name, ms[i])
  {
    seq(|ms|, i requires 0 <= i < |ms| => TypeIndex(prefix, name, ms[i]))
  }

  function IndexSet(prefix: string, name: string, ms: set<Mapping>): set<string> {
    set m | m in ms :: TypeIndex(prefix, name, m)
  }

  /** The single refresh request for a set of types, or no call at all for
      an empty set; the index names are deduplicated. */
  function RefreshTargets(prefix: string, name: string, ms: set<Mapping>): (r: Option<set<string>>)
    ensures r.None? <==> ms == {}
    ensures r.Some? ==> forall x :: x in r.value <==> exists m :: m in ms && x == TypeIndex(prefix, name, m)
  {
    if ms == {} then None else Some(IndexSet(prefix, name, ms))
  }

  /** Deduplication: never more indices refreshed than types given. */
  lemma {:induction false} RefreshNoLargerThanTypes(prefix: string, name: string, ms: set<Mapping>)
    ensures |IndexSet(prefix, name, ms)| <= |ms|
    decreases |ms|
  {
    if ms != {} {
      var m :| m in ms;
      var rest := ms - {m};
      RefreshNoLargerThanTypes(prefix, name, rest);
      assert IndexSet(prefix, name, ms) == IndexSet(prefix, name, rest) + {TypeIndex(prefix, name, m)};
    }
  }

  /** The types whose match-all bulk delete reported a change, or the first
      failure. */
  function Cleared(types: seq<Mapping>, deleted: seq<Result<bool, AdminError>>): Result<set<Mapping>, AdminError>
    requires |deleted| == |types|
    decreases |types|
  {
    if |types| == 0 then Success({})
    else
      var n := |types| - 1;
      var before := Cleared(types[..n], deleted[..n]);
      if before.Failure? then before
      else if deleted[n].Failure? then Failure(deleted[n].error)
      else if deleted[n].value then Success(before.value + {types[n]})
      else before
  }

  lemma {:induction false} ClearedMeans(types: seq<Mapping>, deleted: seq<Result<bool, AdminError>>)
    requires |deleted| == |types|
    ensures Cleared(types, deleted).Success? <==> forall i :: 0 <= i < |deleted| ==> deleted[i].Success?
    ensures Cleared(types, deleted).Success? ==>
      Cleared(types, deleted).value == set i | 0 <= i < |types| && deleted[i] == Success(true) :: types[i]
    decreases |types|
  {
    if |types| > 0 {
      var n := |types| - 1;
      ClearedMeans(types[..n], deleted[..n]);
      var before := Cleared(types[..n], deleted[..n]);
      if before.Failure? {
        var w :| 0 <= w < n && !deleted[..n][w].Success?;
        assert deleted[w] == deleted[..n][w];
      } else {
        assert forall i :: 0 <= i < n ==> deleted[i] == deleted[..n][i];
        if deleted[n].Success? {
          var lhs := Cleared(types, deleted).value;
          var rhs := set i | 0 <= i < |types| && deleted[i] == Success(true) :: types[i];
          forall x ensures x in lhs <==> x in rhs {
            if x in rhs {
              var i :| 0 <= i < |types| && deleted[i] == Success(true) && x == types[i];
              if i < n { assert types[..n][i] == types[i]; }
            }
            if x in before.value {
              var i :| 0 <= i < n && deleted[..n][i] == Success(true) && x == types[..n][i];
              assert deleted[i] == Success(true) && x == types[i];
            }
          }
        }
      }
    }
  }

  // ---------------------------------------------------------------------
  // Mapping migration
  // ---------------------------------------------------------------------

  datatype ChangeKind = AddOp | RemoveOp | ReplaceOp | MoveOp | CopyOp | TestOp

  /** One entry of the JSON diff between the current and the new mapping. */
  datatype Change = Change(kind: ChangeKind, path: string)

  function CompatiblePaths(changes: seq<Change>): set<string> {
    set i | 0 <= i < |changes| && changes[i].kind == AddOp :: changes[i].path
  }

  function IncompatiblePaths(changes: seq<Change>): set<string> {
    set i | 0 <= i < |changes| && (changes[i].kind == MoveOp || changes[i].kind == ReplaceOp) :: changes[i].path
  }

  datatype Migration =
    | CreateIndex
    | KeepIncompatible(paths: set<string>)
    | UpToDate
    | UpdateMapping(compatible: set<string>, reindex: bool)

  /** The decision create() takes for one type. */
  function MigrationFor(indexExists: bool, changes: seq<Change>): Migration {
    if !indexExists then CreateIndex
    else if IncompatiblePaths(changes) != {} then KeepIncompatible(IncompatiblePaths(changes))
    else if CompatiblePaths(changes) != {} then
      UpdateMapping(CompatiblePaths(changes), IndexMapping.HasFieldAliasChange(CompatiblePaths(changes)))
    else UpToDate
  }

  /** The mapping of an existing index is updated exactly when the diff has
      an addition and no move or replace; it is reindexed exactly when one
      of the added paths is a field-alias path. */
  lemma MigrationUpdatesIff(changes: seq<Change>)
    ensures MigrationFor(true, changes).UpdateMapping? <==>
      (exists i :: 0 <= i < |changes| && changes[i].kind == AddOp) &&
      (forall i :: 0 <= i < |changes| ==> changes[i].kind != MoveOp && changes[i].kind != ReplaceOp)
    ensures MigrationFor(true, changes).UpdateMapping? ==>
      (MigrationFor(true, changes).reindex <==>
        exists i :: 0 <= i < |changes| && changes[i].kind == AddOp && IndexMapping.IsFieldAliasPath(changes[i].path))
  {
    if exists i :: 0 <= i < |changes| && changes[i].kind == AddOp {
      var i :| 0 <= i < |changes| && changes[i].kind == AddOp;
      assert changes[i].path in CompatiblePaths(changes);
    }
    if exists i :: 0 <= i < |changes| && (changes[i].kind == MoveOp || changes[i].kind == ReplaceOp) {
      var i :| 0 <= i < |changes| && (changes[i].kind == MoveOp || changes[i].kind == ReplaceOp);
      assert changes[i].path in IncompatiblePaths(changes);
    }
    if MigrationFor(true, changes).UpdateMapping? && MigrationFor(true, changes).reindex {
      var p :| p in CompatiblePaths(changes) && IndexMapping.IsFieldAliasPath(p);
      var i :| 0 <= i < |changes| && changes[i].kind == AddOp && changes[i].path == p;
    }
  }

  /** Removed, copied or tested fields never change an existing index. */
  lemma OnlyAddsMoveAnExistingIndex(changes: seq<Change>)
    requires forall i :: 0 <= i < |changes| ==> changes[i].kind in {RemoveOp, CopyOp, TestOp}
    ensures MigrationFor(true, changes) == UpToDate
  {
    assert CompatiblePaths(changes) == {};
    assert IncompatiblePaths(changes) == {};
  }

  /** What the cluster answers for one type during create(). */
  datatype IndexState = IndexState(
    indexExists: bool,
    diff: Result<seq<Change>, AdminError>,
    acknowledged: bool,
    reindexed: Result<bool, AdminError>)

  /** The diff of an existing index; a missing index has none. */
  function DiffOf(st: IndexState): seq<Change> {
    if st.diff.Success? then st.diff.value else []
  }

  datatype StepEffect = StepEffect(migration: Migration, refresh: bool)

  /** One type of create(): a missing index is created, an existing one is
      diffed, and a compatible change updates the mapping and possibly runs
      the in-place reindex, whose change flag marks the type for refresh. */
  function CreateStep(index: string, st: IndexState): (r: Result<StepEffect, AdminError>)
    ensures r.Success? && r.value.refresh ==> r.value.migration.UpdateMapping? && r.value.migration.reindex
  {
    if !st.indexExists then
      if st.acknowledged then Success(StepEffect(CreateIndex, false)) else Failure(NotAcknowledged(index))
    else if st.diff.Failure? then Failure(MappingUnavailable(index))
    else
      var m := MigrationFor(true, st.diff.value);
      if !m.UpdateMapping? then Success(StepEffect(m, false))
      else if !st.acknowledged then Failure(NotAcknowledged(index))
      else if !m.reindex then Success(StepEffect(m, false))
      else if st.reindexed.Failure? then Failure(st.reindexed.error)
      else Success(StepEffect(m, st.reindexed.value))
  }

  datatype CreateRun = CreateRun(migrations: seq<Migration>, toRefresh: set<Mapping>)

  function CreatePlan(prefix: string, name: string, ms: seq<Mapping>, states: seq<IndexState>): Result<CreateRun, AdminError>
    requires |states| == |ms|
    decreases |ms|
  {
    if |ms| == 0 then Success(CreateRun([], {}))
    else
      var n := |ms| - 1;
      var before := CreatePlan(prefix, name, ms[..n], states[..n]);
      if before.Failure? then before
      else
        var step := CreateStep(TypeIndex(prefix, name, ms[n]), states[n]);
        if step.Failure? then Failure(step.error)
        else Success(CreateRun(before.value.migrations + [step.value.migration],
                               if step.value.refresh then before.value.toRefresh + {ms[n]} else before.value.toRefresh))
  }

  /** A successful step applies the migration its diff calls for, and asks
      for a refresh only after a reindex that changed documents. */
  lemma CreateStepMeans(index: string, st: IndexState)
    ensures var r := CreateStep(index, st);
      r.Success? ==>
        (st.indexExists ==> st.diff.Success?) &&
        r.value.migration == MigrationFor(st.indexExists, DiffOf(st)) &&
        (r.value.refresh ==> st.reindexed == Success(true))
  {
    if !st.indexExists {
      assert MigrationFor(false, DiffOf(st)) == CreateIndex;
    }
  }

  /** A successful plan has one decision per type, and only types whose
      reindex reported a change are refreshed. */
  lemma {:induction false} CreatePlanMeans(prefix: string, name: string, ms: seq<Mapping>, states: seq<IndexState>)
    requires |states| == |ms|
    ensures var r := CreatePlan(prefix, name, ms, states);
      r.Success? ==> (|r.value.migrations| == |ms| &&
        (forall i :: 0 <= i < |ms| ==> ((states[i].indexExists ==> states[i].diff.Success?) &&
          r.value.migrations[i] == MigrationFor(states[i].indexExists, DiffOf(states[i])))) &&
        (forall m :: m in r.value.toRefresh ==> exists i :: 0 <= i < |ms| && ms[i] == m && states[i].reindexed == Success(true)))
    decreases |ms|
  {
    if |ms| > 0 {
      var n := |ms| - 1;
      CreatePlanMeans(prefix, name, ms[..n], states[..n]);
      var r := CreatePlan(prefix, name, ms, states);
      if r.Success? {
        var before := CreatePlan(prefix, name, ms[..n], states[..n]);
        var step := CreateStep(TypeIndex(prefix, name, ms[n]), states[n]);
        CreateStepMeans(TypeIndex(prefix, name, ms[n]), states[n]);
        assert r.value.migrations == before.value.migrations + [step.value.migration];
        forall i | 0 <= i < n
          ensures (states[i].indexExists ==> states[i].diff.Success?) &&
            r.value.migrations[i] == MigrationFor(states[i].indexExists, DiffOf(states[i]))
        {
          assert states[..n][i] == states[i];
        }
        forall m | m in r.value.toRefresh
          ensures exists i :: 0 <= i < |ms| && ms[i] == m && states[i].reindexed == Success(true)
        {
          if m in before.value.toRefresh {
            var i :| 0 <= i < n && ms[..n][i] == m && states[..n][i].reindexed == Success(true);
            assert ms[i] == m && states[i].reindexed == Success(true);
          } else {
            assert ms[n] == m && states[n].reindexed == Success(true);
          }
        }
      }
    }
  }

  // ---------------------------------------------------------------------
  // Cluster health wait
  // ---------------------------------------------------------------------

  /** One health poll: an answer (timed out or not) or no answer, each with
      the clock reading taken after it, or a failed request. */
  datatype HealthPoll = Answer(timedOut: bool, time: int) | NoAnswer(time: int) | PollError

  /** A poll after which the wait stops. */
  predicate Decisive(p: HealthPoll, endTime: int) {
    match p
    case PollError => true
    case Answer(timedOut, time) => !timedOut || time >= endTime
    case NoAnswer(time) => time >= endTime
  }

  function Verdict(p: HealthPoll): Option<AdminError> {
    match p
    case PollError => Some(HealthUnavailable)
    case Answer(timedOut, _) => if timedOut then Some(NotYellow) else None
    case NoAnswer(_) => Some(NotYellow)
  }

  predicate SomeDecisive(polls: seq<HealthPoll>, endTime: int) {
    exists i :: 0 <= i < |polls| && Decisive(polls[i], endTime)
  }

  lemma TailDecisive(polls: seq<HealthPoll>, endTime: int)
    requires SomeDecisive(polls, endTime) && !Decisive(polls[0], endTime)
    ensures SomeDecisive(polls[1..], endTime)
  {
    var i :| 0 <= i < |polls| && Decisive(polls[i], endTime);
    assert polls[1..][i - 1] == polls[i];
  }

  /** The verdict of the first poll that stops the wait. */
  function HealthOutcome(polls: seq<HealthPoll>, endTime: int): Option<AdminError>
    requires SomeDecisive(polls, endTime)
    decreases |polls|
  {
    if Decisive(polls[0], endTime) then Verdict(polls[0])
    else TailDecisive(polls, endTime); HealthOutcome(polls[1..], endTime)
  }

  /** The wait succeeds exactly when an answer that did not time out comes
      before every other poll that would have stopped it. */
  lemma {:induction false} HealthyIffTimelyAnswer(polls: seq<HealthPoll>, endTime: int)
    requires SomeDecisive(polls, endTime)
    ensures HealthOutcome(polls, endTime) == None <==>
      exists i :: 0 <= i < |polls| && polls[i].Answer? && !polls[i].timedOut &&
        forall j :: 0 <= j < i ==> !Decisive(polls[j], endTime)
    decreases |polls|
  {
    if !Decisive(polls[0], endTime) {
      TailDecisive(polls, endTime);
      HealthyIffTimelyAnswer(polls[1..], endTime);
      var t := polls[1..];
      if HealthOutcome(polls, endTime) == None {
        var i :| 0 <= i < |t| && t[i].Answer? && !t[i].timedOut && forall j :: 0 <= j < i ==> !Decisive(t[j], endTime);
        assert polls[i + 1] == t[i];
        forall j | 0 <= j < i + 1 ensures !Decisive(polls[j], endTime) {
          if j > 0 { assert polls[j] == t[j - 1]; }
        }
      } else {
        if exists i :: 0 <= i < |polls| && polls[i].Answer? && !polls[i].timedOut &&
            forall j :: 0 <= j < i ==> !Decisive(polls[j], endTime) {
          var i :| 0 <= i < |polls| && polls[i].Answer? && !polls[i].timedOut &&
            forall j :: 0 <= j < i ==> !Decisive(polls[j], endTime);
          assert i > 0;
          assert t[i - 1] == polls[i];
          forall j | 0 <= j < i - 1 ensures !Decisive(t[j], endTime) { assert t[j] == polls[j + 1]; }
          assert false;
        }
      }
    } else {
      assert Decisive(polls[0], endTime);
    }
  }

  /** Polls cluster health until an answer arrives that did not time out,
      a poll fails, or the clock passes the cluster timeout; no poll at all
      for an empty index list. */
  method WaitForYellowHealth(indices: seq<string>, startTime: int, clusterTimeout: int, polls: seq<HealthPoll>)
    returns (polled: nat, err: Option<AdminError>)
    requires |indices| > 0 ==> SomeDecisive(polls, startTime + clusterTimeout)
    ensures |indices| == 0 ==> polled == 0 && err == None
    ensures |indices| > 0 ==> 1 <= polled <= |polls| && err == HealthOutcome(polls, startTime + clusterTimeout)
    ensures |indices| > 0 ==> (Decisive(polls[polled - 1], startTime + clusterTimeout) &&
      forall j :: 0 <= j < polled - 1 ==> !Decisive(polls[j], startTime + clusterTimeout))
  {
    if |indices| == 0 {
      return 0, None;
    }
    var endTime := startTime + clusterTimeout;
    ghost var w :| 0 <= w < |polls| && Decisive(polls[w], endTime);
    var i := 0;
    while !Decisive(polls[i], endTime)
      invariant 0 <= i <= w
      invariant forall j :: 0 <= j < i ==> !Decisive(polls[j], endTime)
      invariant HealthOutcome(polls[i..], endTime) == HealthOutcome(polls, endTime)
      decreases w - i
    {
      assert polls[i..][1..] == polls[i + 1..];
      i := i + 1;
    }
    polled := i + 1;
    err := Verdict(polls[i]);
  }

  // ---------------------------------------------------------------------
  // Bulk update/delete-by-query with version-conflict retries
  // ---------------------------------------------------------------------

  /** One by-query response, or an I/O failure of the request. */
  datatype ScrollReply =
    | Reply(updated: int, deleted: int, versionConflicts: int, failureStatuses: seq<int>)
    | IoFailure

  predicate OnlyConflicts(statuses: seq<int>) {
    forall i :: 0 <= i < |statuses| ==> statuses[i] == ConflictStatus
  }

  predicate ChangedDocs(rep: ScrollReply) {
    rep.Reply? && (rep.updated > 0 || rep.deleted > 0)
  }

  /** The number of by-query requests sent and the outcome (Success carries
      the needs-refresh flag). */
  datatype ScrollRun = ScrollRun(calls: nat, result: Result<bool, AdminError>)

  /** The retry loop as written: the exhausted-budget check comes before
      the check for remaining conflicts. */
  function ScrollAsWritten(replies: seq<ScrollReply>, attempts: nat, needsRefresh: bool): (r: ScrollRun)
    requires |replies| > attempts
    ensures 1 <= r.calls <= attempts + 1
    decreases attempts
  {
    var rep := replies[0];
    if rep.IoFailure? then ScrollRun(1, Failure(ScrollIoError))
    else
      var nr := needsRefresh || ChangedDocs(rep);
      if !OnlyConflicts(rep.failureStatuses) then ScrollRun(1, Failure(IndexingFailures))
      else if attempts == 0 then ScrollRun(1, Failure(RetriesExhausted))
      else if rep.versionConflicts > 0 then
        var rest := ScrollAsWritten(replies[1..], attempts - 1, nr);
        ScrollRun(rest.calls + 1, rest.result)
      else ScrollRun(1, Success(nr))
  }

  /** The retry loop with the budget check applied only while conflicts
      remain. */
  function ScrollCorrected(replies: seq<ScrollReply>, attempts: nat, needsRefresh: bool): (r: ScrollRun)
    requires |replies| > attempts
    ensures 1 <= r.calls <= attempts + 1
    decreases attempts
  {
    var rep := replies[0];
    if rep.IoFailure? then ScrollRun(1, Failure(ScrollIoError))
    else
      var nr := needsRefresh || ChangedDocs(rep);
      if !OnlyConflicts(rep.failureStatuses) then ScrollRun(1, Failure(IndexingFailures))
      else if rep.versionConflicts > 0 then
        if attempts == 0 then ScrollRun(1, Failure(RetriesExhausted))
        else
          var rest := ScrollCorrected(replies[1..], attempts - 1, nr);
          ScrollRun(rest.calls + 1, rest.result)
      else ScrollRun(1, Success(nr))
  }

  /** A successful run reports a needed refresh exactly when some response
      it consumed updated or deleted documents. */
  lemma {:induction false} ScrollRefreshIffChanged(replies: seq<ScrollReply>, attempts: nat, needsRefresh: bool)
    requires |replies| > attempts
    ensures var r := ScrollCorrected(replies, attempts, needsRefresh);
      r.result.Success? ==>
        (r.result.value <==> needsRefresh || exists j :: 0 <= j < r.calls && ChangedDocs(replies[j]))
    decreases attempts
  {
    var r := ScrollCorrected(replies, attempts, needsRefresh);
    var rep := replies[0];
    if rep.Reply? && OnlyConflicts(rep.failureStatuses) && rep.versionConflicts > 0 && attempts > 0 {
      var nr := needsRefresh || ChangedDocs(rep);
      ScrollRefreshIffChanged(replies[1..], attempts - 1, nr);
      if r.result.Success? {
        if exists j :: 0 <= j < r.calls - 1 && ChangedDocs(replies[1..][j]) {
          var j :| 0 <= j < r.calls - 1 && ChangedDocs(replies[1..][j]);
          assert replies[j + 1] == replies[1..][j];
        }
        if exists j :: 0 <= j < r.calls && ChangedDocs(replies[j]) {
          var j :| 0 <= j < r.calls && ChangedDocs(replies[j]);
          if j > 0 { assert replies[1..][j - 1] == replies[j]; }
        }
      }
    } else if r.result.Success? {
      assert r.calls == 1;
    }
  }

  /** As written, a run whose budget is used up fails on the next response
      even when that response has no conflicts left. */
  lemma {:induction false} AsWrittenFailsAfterBudget(replies: seq<ScrollReply>, attempts: nat, needsRefresh: bool)
    requires |replies| > attempts
    requires forall j :: 0 <= j <= attempts ==> replies[j].Reply? && OnlyConflicts(replies[j].failureStatuses)
    requires forall j :: 0 <= j < attempts ==> replies[j].versionConflicts > 0
    ensures ScrollAsWritten(replies, attempts, needsRefresh) == ScrollRun(attempts + 1, Failure(RetriesExhausted))
    decreases attempts
  {
    if attempts > 0 {
      var t := replies[1..];
      forall j | 0 <= j <= attempts - 1 ensures t[j].Reply? && OnlyConflicts(t[j].failureStatuses) {
        assert t[j] == replies[j + 1];
      }
      forall j | 0 <= j < attempts - 1 ensures t[j].versionConflicts > 0 {
        assert t[j] == replies[j + 1];
      }
      AsWrittenFailsAfterBudget(t, attempts - 1, needsRefresh || ChangedDocs(replies[0]));
    }
  }

  /** Five conflicting rounds followed by a clean sixth: the loop as written
      fails; the corrected loop reports success. */
  lemma CleanSixthRound()
    ensures var c := Reply(1, 0, 1, [ConflictStatus]);
      var replies := [c, c, c, c, c, Reply(0, 0, 0, [])];
      ScrollAsWritten(replies, MaxVersionConflictRetries, false) == ScrollRun(6, Failure(RetriesExhausted)) &&
      ScrollCorrected(replies, MaxVersionConflictRetries, false) == ScrollRun(6, Success(true))
  {
    var c := Reply(1, 0, 1, [ConflictStatus]);
    var replies := [c, c, c, c, c, Reply(0, 0, 0, [])];
    assert OnlyConflicts(c.failureStatuses);
    assert replies[1..] == [c, c, c, c, Reply(0, 0, 0, [])];
    assert replies[1..][1..] == [c, c, c, Reply(0, 0, 0, [])];
    assert replies[1..][1..][1..] == [c, c, Reply(0, 0, 0, [])];
    assert replies[1..][1..][1..][1..] == [c, Reply(0, 0, 0, [])];
    assert replies[1..][1..][1..][1..][1..] == [Reply(0, 0, 0, [])];
  }

  /** The corrected loop gives up only when every response it consumed
      still reported conflicts. */
  lemma {:induction false} CorrectedExhaustsOnlyOnConflicts(replies: seq<ScrollReply>, attempts: nat, needsRefresh: bool)
    requires |replies| > attempts
    ensures var r := ScrollCorrected(replies, attempts, needsRefresh);
      r.result == Failure(RetriesExhausted) ==>
        r.calls == attempts + 1 && forall j :: 0 <= j < r.calls ==> replies[j].Reply? && replies[j].versionConflicts > 0
    decreases attempts
  {
    var rep := replies[0];
    if rep.Reply? && OnlyConflicts(rep.failureStatuses) && rep.versionConflicts > 0 && attempts > 0 {
      var nr := needsRefresh || ChangedDocs(rep);
      CorrectedExhaustsOnlyOnConflicts(replies[1..], attempts - 1, nr);
      var r := ScrollCorrected(replies, attempts, needsRefresh);
      if r.result == Failure(RetriesExhausted) {
        forall j | 0 <= j < r.calls ensures replies[j].Reply? && replies[j].versionConflicts > 0 {
          if j > 0 { assert replies[j] == replies[1..][j - 1]; }
        }
      }
    }
  }

  /** The failure check over one response's bulk failures. */
  method VersionConflictsOnly(statuses: seq<int>) returns (b: bool)
    ensures b == OnlyConflicts(statuses)
  {
    b := true;
    for i := 0 to |statuses|
      invariant b == OnlyConflicts(statuses[..i])
    {
      if statuses[i] != ConflictStatus {
        b := false;
      }
      assert statuses[..i + 1] == statuses[..i] + [statuses[i]];
    }
    assert statuses[..|statuses|] == statuses;
  }

  /** The by-query retry loop, consuming one response per request, in its
      corrected form (ScrollCorrected): the retry budget is checked only while
      conflicts remain. The Java loop checks the budget before looking at the
      conflicts (EsIndexAdmin.java:721-723); ScrollAsWritten models that. */
  method BulkIndexByScroll(replies: seq<ScrollReply>) returns (calls: nat, r: Result<bool, AdminError>)
    requires |replies| > MaxVersionConflictRetries
    ensures ScrollRun(calls, r) == ScrollCorrected(replies, MaxVersionConflictRetries, false)
    ensures calls <= MaxVersionConflictRetries + 1
  {
    ghost var total := ScrollCorrected(replies, MaxVersionConflictRetries, false);
    var needsRefresh := false;
    var attempts: nat := MaxVersionConflictRetries;
    calls := 0;
    while true
      invariant calls + attempts == MaxVersionConflictRetries
      invariant ScrollCorrected(replies[calls..], attempts, needsRefresh).calls + calls == total.calls
      invariant ScrollCorrected(replies[calls..], attempts, needsRefresh).result == total.result
      decreases attempts
    {
      var rep := replies[calls];
      ghost var here := replies[calls..];
      assert here[0] == rep;
      calls := calls + 1;
      if rep.IoFailure? {
        return calls, Failure(ScrollIoError);
      }
      if rep.updated > 0 || rep.deleted > 0 {
        needsRefresh := true;
      }
      var conflictsOnly := VersionConflictsOnly(rep.failureStatuses);
      if !conflictsOnly {
        return calls, Failure(IndexingFailures);
      }
      if rep.versionConflicts > 0 {
        if attempts == 0 {
          return calls, Failure(RetriesExhausted);
        }
        attempts := attempts - 1;
        assert here[1..] == replies[calls..];
      } else {
        return calls, Success(needsRefresh);
      }
    }
  }

  // ---------------------------------------------------------------------
  // The admin object
  // ---------------------------------------------------------------------

  class EsIndexAdmin {
    const name: string
    const prefix: string
    var settings: Settings

    /** Lower-cases the name, fills in each absent defaulted key and derives
        the index prefix from the caller's settings. */
    constructor(name0: string, settings0: Settings, defaults: Settings, defaultPrefix: string)
      requires CoversKeys(defaults, DefaultedKeys)
      requires IndexPrefix in settings0 ==> settings0[IndexPrefix].StrSetting?
      ensures name == LowerAscii(name0)
      ensures settings == FillDefaults(settings0, DefaultedKeys, defaults)
      ensures prefix == PrefixFor(if IndexPrefix in settings0 then settings0[IndexPrefix].s else defaultPrefix)
    {
      name := LowerAscii(name0);
      prefix := PrefixFor(if IndexPrefix in settings0 then settings0[IndexPrefix].s else defaultPrefix);
      var s := settings0;
      for i := 0 to |DefaultedKeys|
        invariant CoversKeys(defaults, DefaultedKeys[..i])
        invariant s == FillDefaults(settings0, DefaultedKeys[..i], defaults)
      {
        var k := DefaultedKeys[i];
        assert DefaultedKeys[..i + 1][..i] == DefaultedKeys[..i];
        s := PutIfAbsent(s, k, defaults[k]);
      }
      assert DefaultedKeys[..|DefaultedKeys|] == DefaultedKeys;
      settings := s;
    }

    /** Validated dynamic settings update (see SettingsUpdate). */
    method UpdateSettings(incoming: Settings, mappings: seq<Mapping>, existing: set<string>, acknowledged: set<string>)
      returns (pushed: Settings, requests: seq<string>, err: Option<AdminError>)
      modifies this
      ensures pushed == EsSettings(incoming)
      ensures var u := SettingsUpdate(old(settings), incoming, Indices(prefix, name, mappings), existing, acknowledged);
        requests == u.requests &&
        (u.outcome.Success? ==> err == None && settings == u.outcome.value) &&
        (u.outcome.Failure? ==> err == Some(u.outcome.error) && settings == old(settings))
    {
      pushed := EsSettings(incoming);
      requests := [];
      err := None;
      if |incoming| == 0 {
        return;
      }
      var unsupported := Unsupported(incoming);
      if unsupported != {} {
        err := Some(NotDynamic(unsupported));
        return;
      }
      var shouldUpdate := ShouldUpdate(settings, incoming);
      if !shouldUpdate {
        return;
      }
      ghost var indices := Indices(prefix, name, mappings);
      var i := 0;
      while i < |mappings|
        invariant 0 <= i <= |mappings|
        invariant Pushes(indices, existing, acknowledged) ==
          var rest := Pushes(indices[i..], existing, acknowledged); PushRun(requests + rest.sent, rest.rejected)
      {
        var index := TypeIndex(prefix, name, mappings[i]);
        assert indices[i..][0] == index && indices[i..][1..] == indices[i + 1..];
        if index in existing {
          requests := requests + [index];
          if index !in acknowledged {
            err := Some(NotAcknowledged(index));
            return;
          }
        }
        i := i + 1;
      }
      settings := settings + incoming;
    }

    /** Match-all bulk delete of each type, then one refresh of the types
        that changed; nothing at all for an empty type list. */
    method Clear(types: seq<Mapping>, deleted: seq<Result<bool, AdminError>>)
      returns (refresh: Option<set<string>>, err: Option<AdminError>)
      requires |deleted| == |types|
      ensures |types| == 0 ==> refresh == None && err == None
      ensures |types| > 0 && Cleared(types, deleted).Failure? ==> refresh == None && err == Some(Cleared(types, deleted).error)
      ensures |types| > 0 && Cleared(types, deleted).Success? ==>
        err == None && refresh == RefreshTargets(prefix, name, Cleared(types, deleted).value)
    {
      if |types| == 0 {
        return None, None;
      }
      var toRefresh: set<Mapping> := {};
      for i := 0 to |types|
        invariant Cleared(types[..i], deleted[..i]) == Success(toRefresh)
      {
        assert types[..i + 1][..i] == types[..i] && deleted[..i + 1][..i] == deleted[..i];
        if deleted[i].Failure? {
          ClearedFailureSticks(types, deleted, i + 1);
          return None, Some(deleted[i].error);
        }
        if deleted[i].value {
          toRefresh := toRefresh + {types[i]};
        }
      }
      assert types[..|types|] == types && deleted[..|deleted|] == deleted;
      return RefreshTargets(prefix, name, toRefresh), None;
    }

    /** Per type: create or migrate its index; then wait for yellow health
        over all indices and refresh the reindexed types. */
    method Create(ms: seq<Mapping>, states: seq<IndexState>, startTime: int, clusterTimeout: int, polls: seq<HealthPoll>)
      returns (migrations: seq<Migration>, refresh: Option<set<string>>, err: Option<AdminError>)
      requires |states| == |ms|
      requires |ms| > 0 ==> SomeDecisive(polls, startTime + clusterTimeout)
      ensures var plan := CreatePlan(prefix, name, ms, states);
        (plan.Failure? ==> err == Some(plan.error) && refresh == None) &&
        (plan.Success? ==> (migrations == plan.value.migrations &&
          (|ms| > 0 && HealthOutcome(polls, startTime + clusterTimeout).Some? ==>
             err == HealthOutcome(polls, startTime + clusterTimeout) && refresh == None) &&
          ((|ms| == 0 || HealthOutcome(polls, startTime + clusterTimeout).None?) ==>
             err == None && refresh == RefreshTargets(prefix, name, plan.value.toRefresh))))
    {
      migrations := [];
      var toRefresh: set<Mapping> := {};
      for i := 0 to |ms|
        invariant CreatePlan(prefix, name, ms[..i], states[..i]) == Success(CreateRun(migrations, toRefresh))
      {
        assert ms[..i + 1][..i] == ms[..i] && states[..i + 1][..i] == states[..i];
        var step := CreateStep(TypeIndex(prefix, name, ms[i]), states[i]);
        if step.Failure? {
          CreateFailureSticks(prefix, name, ms, states, i + 1);
          return migrations, None, Some(step.error);
        }
        migrations := migrations + [step.value.migration];
        if step.value.refresh {
          toRefresh := toRefresh + {ms[i]};
        }
      }
      assert ms[..|ms|] == ms && states[..|states|] == states;
      var polled, healthErr := WaitForYellowHealth(Indices(prefix, name, ms), startTime, clusterTimeout, polls);
      if healthErr.Some? {
        return migrations, None, healthErr;
      }
      refresh := RefreshTargets(prefix, name, toRefresh);
      err := None;
    }
  }

  lemma {:induction false} ClearedFailureSticks(types: seq<Mapping>, deleted: seq<Result<bool, AdminError>>, k: nat)
    requires |deleted| == |types| && 0 < k <= |types|
    requires Cleared(types[..k], deleted[..k]).Failure?
    ensures Cleared(types, deleted) == Cleared(types[..k], deleted[..k])
    decreases |types| - k
  {
    if k < |types| {
      assert types[..k + 1][..k] == types[..k] && deleted[..k + 1][..k] == deleted[..k];
      ClearedFailureSticks(types, deleted, k + 1);
    } else {
      assert types[..k] == types && deleted[..k] == deleted;
    }
  }

  lemma {:induction false} CreateFailureSticks(prefix: string, name: string, ms: seq<Mapping>, states: seq<IndexState>, k: nat)
    requires |states| == |ms| && 0 < k <= |ms|
    requires CreatePlan(prefix, name, ms[..k], states[..k]).Failure?
    ensures CreatePlan(prefix, name, ms, states) == CreatePlan(prefix, name, ms[..k], states[..k])
    decreases |ms| - k
  {
    if k < |ms| {
      assert ms[..k + 1][..k] == ms[..k] && states[..k + 1][..k] == states[..k];
      CreateFailureSticks(prefix, name, ms, states, k + 1);
    } else {
      assert ms[..k] == ms && states[..k] == states;
    }
  }
}
