// The staging context of an RF2 import: a cache of components first seen
// in the archive that takes priority over the repository, the
// effective-time rule that decides which rows are imported, and the sets of
// identifiers to register or publish after the single supported commit.

module Rf2Context {
  import opened Wrappers

  /** The four component document types, in import order. */
  datatype ComponentType = ConceptType | DescriptionType | RelationshipType | MemberType

  const ImportOrder: seq<ComponentType> := [ConceptType, DescriptionType, RelationshipType, MemberType]

  /** Concepts, descriptions and relationships; members are not core. */
  predicate IsCore(t: ComponentType) {
    t != MemberType
  }

  /** The effective time of a document that never had one. */
  const UnsetEffectiveTime: int := -1

  /** A stored revision: identity, type, released flag, effective time and
      the row content it was built from. */
  datatype Doc = Doc(id: string, docType: ComponentType, released: bool, effectiveTime: int,
                     exhaustive: bool, content: seq<int>)

  /** One RF2 row: an absent effective time marks unpublished content.
      initReleased is the released flag the component builder leaves on a
      revision it initialises from this row. */
  datatype Row = Row(id: string, rowType: ComponentType, effectiveTime: Option<int>,
                     initReleased: bool, content: seq<int>)

  datatype Staged = StagedAdd(doc: Doc) | StagedUpdate(oldDoc: Doc, newDoc: Doc)

  datatype Commit = Commit(comment: string, changes: seq<Staged>)

  datatype ContextError =
    | MissingFromMaps(id: string)
    | NotFound(id: string)
    | UnsupportedCommit

  /** The minimal unreleased document that stands for a component seen only
      in the archive so far. */
  function IdOnlyDoc(id: string, t: ComponentType): (d: Doc)
    ensures d.id == id && d.docType == t && !d.released
    ensures d.effectiveTime == UnsetEffectiveTime && !d.exhaustive && d.content == []
  {
    Doc(id, t, false, UnsetEffectiveTime, false, [])
  }

  /** A revision initialised from base and the row's values. */
  function Init(base: Doc, row: Row): Doc {
    base.(released := row.initReleased,
          effectiveTime := if row.effectiveTime.Some? then row.effectiveTime.value else UnsetEffectiveTime,
          content := row.content)
  }

  /** The effective-time rule for a row whose component already exists. */
  predicate Supersedes(row: Row, existing: Doc) {
    row.effectiveTime.None? || row.effectiveTime.value > existing.effectiveTime
  }

  /** A row is imported when its component is new or the row supersedes it. */
  predicate Wanted(row: Row, existing: map<string, Doc>) {
    row.id !in existing || Supersedes(row, existing[row.id])
  }

  function RowsOf(rows: seq<Row>, t: ComponentType): (r: seq<Row>)
    ensures forall i :: 0 <= i < |r| ==> r[i].rowType == t
    ensures |r| <= |rows|
    decreases |rows|
  {
    if |rows| == 0 then []
    else
      var n := |rows| - 1;
      RowsOf(rows[..n], t) + (if rows[n].rowType == t then [rows[n]] else [])
  }

  function IdsOf(rows: seq<Row>): set<string> {
    set i | 0 <= i < |rows| :: rows[i].id
  }

  /** The staging state the import adds to. */
  datatype ImportState = ImportState(
    newComponents: map<string, Doc>,
    idsToPublish: set<string>,
    idsToRegister: set<string>,
    staged: seq<Staged>)

  /** Collection lookup: cached new components, then one repository query
      for the rest. */
  function LookupMap(newComponents: map<string, Doc>, stored: map<string, Doc>, ids: set<string>): map<string, Doc> {
    map id | id in ids && (id in newComponents || id in stored) ::
      if id in newComponents then newComponents[id] else stored[id]
  }

  datatype SeedRun = SeedRun(st: ImportState, toImport: seq<Row>)

  /** The seeding pass for one row. */
  function SeedRow(run: SeedRun, row: Row, existing: map<string, Doc>, t: ComponentType): SeedRun {
    var st := run.st;
    if row.id !in existing then
      SeedRun(st.(newComponents := st.newComponents[row.id := IdOnlyDoc(row.id, t)],
                  idsToRegister := if IsCore(t) && row.effectiveTime.None? then st.idsToRegister + {row.id} else st.idsToRegister,
                  idsToPublish := if IsCore(t) && row.effectiveTime.Some? then st.idsToPublish + {row.id} else st.idsToPublish),
              run.toImport + [row])
    else if Supersedes(row, existing[row.id]) then
      var prev := existing[row.id];
      SeedRun(st.(idsToPublish := if IsCore(t) && row.effectiveTime.Some? && !prev.released then st.idsToPublish + {prev.id} else st.idsToPublish),
              run.toImport + [row])
    else run
  }

  function Seed(st: ImportState, rows: seq<Row>, existing: map<string, Doc>, t: ComponentType): (r: SeedRun)
    ensures r.st.staged == st.staged
    ensures st.newComponents.Keys <= r.st.newComponents.Keys
    ensures forall i :: 0 <= i < |r.toImport| ==> r.toImport[i].id in r.st.newComponents || r.toImport[i].id in existing
    decreases |rows|
  {
    if |rows| == 0 then SeedRun(st, [])
    else
      var n := |rows| - 1;
      SeedRow(Seed(st, rows[..n], existing, t), rows[n], existing, t)
  }

  /** The staged change for an imported row: new components are added,
      existing ones updated, and a released revision stays released. */
  function ChangeFor(newComponents: map<string, Doc>, existing: map<string, Doc>, row: Row): Staged
    requires row.id in newComponents || row.id in existing
  {
    if row.id in newComponents then StagedAdd(Init(newComponents[row.id], row))
    else
      var prev := existing[row.id];
      var next := Init(prev, row);
      StagedUpdate(prev, if prev.released then next.(released := true) else next)
  }

  function Apply(newComponents: map<string, Doc>, existing: map<string, Doc>, rows: seq<Row>): (r: seq<Staged>)
    requires forall i :: 0 <= i < |rows| ==> rows[i].id in newComponents || rows[i].id in existing
    ensures |r| == |rows|
    decreases |rows|
  {
    if |rows| == 0 then []
    else
      var n := |rows| - 1;
      Apply(newComponents, existing, rows[..n]) + [ChangeFor(newComponents, existing, rows[n])]
  }

  function DepsOf(deps: map<ComponentType, set<string>>, t: ComponentType): set<string> {
    if t in deps then deps[t] else {}
  }

  /** One type of the import: look up the rows and dependencies, seed, then
      stage the imported rows. */
  function TypeStep(st: ImportState, rows: seq<Row>, deps: map<ComponentType, set<string>>,
                    stored: map<string, Doc>, t: ComponentType): ImportState
  {
    var typed := RowsOf(rows, t);
    var existing := LookupMap(st.newComponents, stored, IdsOf(typed) + DepsOf(deps, t));
    var seeded := Seed(st, typed, existing, t);
    seeded.st.(staged := seeded.st.staged + Apply(seeded.st.newComponents, existing, seeded.toImport))
  }

  function AddSpec(st: ImportState, rows: seq<Row>, deps: map<ComponentType, set<string>>,
                   stored: map<string, Doc>, order: seq<ComponentType>): ImportState
    decreases |order|
  {
    if |order| == 0 then st
    else
      var n := |order| - 1;
      TypeStep(AddSpec(st, rows, deps, stored, order[..n]), rows, deps, stored, order[n])
  }

  /** The rows the seeding pass imports are exactly the wanted ones, in
      archive order. */
  function FilterWanted(rows: seq<Row>, existing: map<string, Doc>): seq<Row>
    decreases |rows|
  {
    if |rows| == 0 then []
    else
      var n := |rows| - 1;
      FilterWanted(rows[..n], existing) + (if Wanted(rows[n], existing) then [rows[n]] else [])
  }

  lemma {:induction false} SeedImportsWanted(st: ImportState, rows: seq<Row>, existing: map<string, Doc>, t: ComponentType)
    ensures Seed(st, rows, existing, t).toImport == FilterWanted(rows, existing)
    decreases |rows|
  {
    if |rows| > 0 {
      SeedImportsWanted(st, rows[..|rows| - 1], existing, t);
    }
  }

  /** New core components without an effective time. */
  function ToRegister(rows: seq<Row>, existing: map<string, Doc>, t: ComponentType): set<string> {
    set i | 0 <= i < |rows| && IsCore(t) && rows[i].id !in existing && rows[i].effectiveTime.None? :: rows[i].id
  }

  /** A row of a new core component with an effective time. */
  predicate PublishesNew(r: Row, existing: map<string, Doc>, t: ComponentType) {
    IsCore(t) && r.id !in existing && r.effectiveTime.Some?
  }

  /** A dated row superseding an unreleased core component. */
  predicate PublishesExisting(r: Row, existing: map<string, Doc>, t: ComponentType) {
    IsCore(t) && r.id in existing && r.effectiveTime.Some? && Supersedes(r, existing[r.id]) && !existing[r.id].released
  }

  function PublishedNew(rows: seq<Row>, existing: map<string, Doc>, t: ComponentType): set<string> {
    set i | 0 <= i < |rows| && PublishesNew(rows[i], existing, t) :: rows[i].id
  }

  function PublishedExisting(rows: seq<Row>, existing: map<string, Doc>, t: ComponentType): set<string> {
    set i | 0 <= i < |rows| && PublishesExisting(rows[i], existing, t) :: existing[rows[i].id].id
  }

  /** New core components with an effective time, and existing unreleased
      core components superseded by a dated row. */
  function ToPublish(rows: seq<Row>, existing: map<string, Doc>, t: ComponentType): set<string> {
    PublishedNew(rows, existing, t) + PublishedExisting(rows, existing, t)
  }

  lemma ToRegisterSnoc(rows: seq<Row>, existing: map<string, Doc>, t: ComponentType)
    requires |rows| > 0
    ensures var n := |rows| - 1; var r := rows[n];
      ToRegister(rows, existing, t) == ToRegister(rows[..n], existing, t) +
        (if IsCore(t) && r.id !in existing && r.effectiveTime.None? then {r.id} else {})
  {
    var n := |rows| - 1;
    forall x | x in ToRegister(rows, existing, t)
      ensures x in ToRegister(rows[..n], existing, t) || x == rows[n].id
    {
      var i :| 0 <= i < |rows| && IsCore(t) && rows[i].id !in existing && rows[i].effectiveTime.None? && x == rows[i].id;
      if i < n { assert rows[..n][i] == rows[i]; }
    }
    forall x | x in ToRegister(rows[..n], existing, t) ensures x in ToRegister(rows, existing, t) {
      var i :| 0 <= i < n && IsCore(t) && rows[..n][i].id !in existing && rows[..n][i].effectiveTime.None? && x == rows[..n][i].id;
      assert rows[..n][i] == rows[i];
    }
  }

  lemma PublishedNewSnoc(rows: seq<Row>, existing: map<string, Doc>, t: ComponentType)
    requires |rows| > 0
    ensures var n := |rows| - 1;
      PublishedNew(rows, existing, t) == PublishedNew(rows[..n], existing, t) +
        (if PublishesNew(rows[n], existing, t) then {rows[n].id} else {})
  {
    var n := |rows| - 1;
    forall x | x in PublishedNew(rows, existing, t)
      ensures x in PublishedNew(rows[..n], existing, t) || x == rows[n].id
    {
      var i :| 0 <= i < |rows| && PublishesNew(rows[i], existing, t) && x == rows[i].id;
      if i < n {
        assert rows[..n][i] == rows[i];
      }
    }
    forall x | x in PublishedNew(rows[..n], existing, t) ensures x in PublishedNew(rows, existing, t) {
      var i :| 0 <= i < n && PublishesNew(rows[..n][i], existing, t) && x == rows[..n][i].id;
      assert rows[..n][i] == rows[i];
    }
  }

  lemma PublishedExistingSnoc(rows: seq<Row>, existing: map<string, Doc>, t: ComponentType)
    requires |rows| > 0
    ensures var n := |rows| - 1;
      PublishedExisting(rows, existing, t) == PublishedExisting(rows[..n], existing, t) +
        (if PublishesExisting(rows[n], existing, t) then {existing[rows[n].id].id} else {})
  {
    var n := |rows| - 1;
    forall x | x in PublishedExisting(rows, existing, t)
      ensures x in PublishedExisting(rows[..n], existing, t) || (rows[n].id in existing && x == existing[rows[n].id].id)
    {
      var i :| 0 <= i < |rows| && PublishesExisting(rows[i], existing, t) && x == existing[rows[i].id].id;
      if i < n {
        assert rows[..n][i] == rows[i];
      }
    }
    forall x | x in PublishedExisting(rows[..n], existing, t) ensures x in PublishedExisting(rows, existing, t) {
      var i :| 0 <= i < n && PublishesExisting(rows[..n][i], existing, t) && x == existing[rows[..n][i].id].id;
      assert rows[..n][i] == rows[i];
    }
  }

  lemma ToPublishSnoc(rows: seq<Row>, existing: map<string, Doc>, t: ComponentType)
    requires |rows| > 0
    ensures var n := |rows| - 1; var r := rows[n];
      ToPublish(rows, existing, t) == ToPublish(rows[..n], existing, t) +
        (if PublishesNew(r, existing, t) then {r.id} else {}) +
        (if PublishesExisting(r, existing, t) then {existing[r.id].id} else {})
  {
    PublishedNewSnoc(rows, existing, t);
    PublishedExistingSnoc(rows, existing, t);
  }

  /** Identifier bookkeeping of the seeding pass. */
  lemma {:induction false} SeedRegisters(st: ImportState, rows: seq<Row>, existing: map<string, Doc>, t: ComponentType)
    ensures Seed(st, rows, existing, t).st.idsToRegister == st.idsToRegister + ToRegister(rows, existing, t)
    decreases |rows|
  {
    if |rows| > 0 {
      SeedRegisters(st, rows[..|rows| - 1], existing, t);
      ToRegisterSnoc(rows, existing, t);
    }
  }

  lemma {:induction false} SeedPublishes(st: ImportState, rows: seq<Row>, existing: map<string, Doc>, t: ComponentType)
    ensures Seed(st, rows, existing, t).st.idsToPublish == st.idsToPublish + ToPublish(rows, existing, t)
    decreases |rows|
  {
    if |rows| > 0 {
      SeedPublishes(st, rows[..|rows| - 1], existing, t);
      ToPublishSnoc(rows, existing, t);
    }
  }

  /** Every row of an unknown component is cached as an unreleased
      id-only document before any change is staged. */
  lemma {:induction false} SeedCachesNewComponents(st: ImportState, rows: seq<Row>, existing: map<string, Doc>, t: ComponentType)
    ensures forall i :: 0 <= i < |rows| && rows[i].id !in existing ==>
      rows[i].id in Seed(st, rows, existing, t).st.newComponents &&
      Seed(st, rows, existing, t).st.newComponents[rows[i].id] == IdOnlyDoc(rows[i].id, t)
    decreases |rows|
  {
    if |rows| > 0 {
      var n := |rows| - 1;
      SeedCachesNewComponents(st, rows[..n], existing, t);
      forall i | 0 <= i < n && rows[i].id !in existing
        ensures rows[i].id in Seed(st, rows, existing, t).st.newComponents &&
          Seed(st, rows, existing, t).st.newComponents[rows[i].id] == IdOnlyDoc(rows[i].id, t)
      {
        assert rows[..n][i] == rows[i];
      }
    }
  }

  /** Updating an already released revision never un-releases it; a new
      component is staged as an addition. */
  lemma {:induction false} ApplyKeepsReleased(newComponents: map<string, Doc>, existing: map<string, Doc>, rows: seq<Row>)
    requires forall i :: 0 <= i < |rows| ==> rows[i].id in newComponents || rows[i].id in existing
    ensures forall i :: 0 <= i < |rows| ==>
      (rows[i].id in newComponents ==> Apply(newComponents, existing, rows)[i].StagedAdd?) &&
      (rows[i].id !in newComponents ==> (Apply(newComponents, existing, rows)[i].StagedUpdate? &&
         Apply(newComponents, existing, rows)[i].oldDoc == existing[rows[i].id] &&
         (existing[rows[i].id].released ==> Apply(newComponents, existing, rows)[i].newDoc.released)))
    decreases |rows|
  {
    if |rows| > 0 {
      var n := |rows| - 1;
      ApplyKeepsReleased(newComponents, existing, rows[..n]);
      forall i | 0 <= i < n ensures Apply(newComponents, existing, rows)[i] == Apply(newComponents, existing, rows[..n])[i] && rows[i] == rows[..n][i] { }
    }
  }

  method CollectIds(rows: seq<Row>) returns (ids: set<string>)
    ensures ids == IdsOf(rows)
  {
    ids := {};
    for i := 0 to |rows|
      invariant ids == set j | 0 <= j < i :: rows[j].id
    {
      ids := ids + {rows[i].id};
    }
  }

  class Rf2TransactionContext {
    const loadOnDemand: bool
    /** Whether the identifier service accepts registrations from imports. */
    const cisImportSupported: bool
    /** The delegate's already resolved objects. */
    const resolved: map<string, Doc>
    /** What a repository lookup finds. */
    const stored: map<string, Doc>

    var newComponents: map<string, Doc>
    var idsToPublish: set<string>
    var idsToRegister: set<string>
    /** The delegate's staging area. */
    var staged: seq<Staged>
    var commits: seq<Commit>
    /** Identifier batches handed to the identifier service. */
    var registered: seq<set<string>>
    var published: seq<set<string>>

    constructor(loadOnDemand0: bool, cisImportSupported0: bool, resolved0: map<string, Doc>, stored0: map<string, Doc>)
      ensures loadOnDemand == loadOnDemand0 && cisImportSupported == cisImportSupported0
      ensures resolved == resolved0 && stored == stored0
      ensures newComponents == map[] && idsToPublish == {} && idsToRegister == {}
      ensures staged == [] && commits == [] && registered == [] && published == []
    {
      loadOnDemand := loadOnDemand0;
      cisImportSupported := cisImportSupported0;
      resolved := resolved0;
      stored := stored0;
      newComponents := map[];
      idsToPublish := {};
      idsToRegister := {};
      staged := [];
      commits := [];
      registered := [];
      published := [];
    }

    function State(): ImportState
      reads this
    {
      ImportState(newComponents, idsToPublish, idsToRegister, staged)
    }

    /** Single lookup: cached new components, then the delegate's resolved
        objects, then a repository lookup that only code systems or
        load-on-demand contexts may make. */
    function Lookup(id: string, codeSystem: bool): (r: Result<Doc, ContextError>)
      reads this
      ensures id in newComponents ==> r == Success(newComponents[id])
      ensures id !in newComponents && id in resolved ==> r == Success(resolved[id])
      ensures id !in newComponents && id !in resolved ==>
        (r.Success? <==> (codeSystem || loadOnDemand) && id in stored) &&
        (r == Failure(MissingFromMaps(id)) <==> !codeSystem && !loadOnDemand)
    {
      if id in newComponents then Success(newComponents[id])
      else if id in resolved then Success(resolved[id])
      else if codeSystem || loadOnDemand then
        if id in stored then Success(stored[id]) else Failure(NotFound(id))
      else Failure(MissingFromMaps(id))
    }

    /** Collection lookup; queried is the repository query made, if any. */
    method LookupAll(ids: set<string>) returns (found: map<string, Doc>, queried: Option<set<string>>)
      ensures found == LookupMap(newComponents, stored, ids)
      ensures queried.None? <==> ids <= newComponents.Keys
      ensures queried.Some? ==> queried.value == ids - newComponents.Keys
    {
      var cached: map<string, Doc> := map[];
      var unresolved: set<string> := {};
      var rest := ids;
      while rest != {}
        invariant rest <= ids
        invariant cached == map id | id in ids - rest && id in newComponents :: newComponents[id]
        invariant unresolved == set id | id in ids - rest && id !in newComponents
        decreases rest
      {
        var id :| id in rest;
        if id in newComponents {
          cached := cached[id := newComponents[id]];
        } else {
          unresolved := unresolved + {id};
        }
        rest := rest - {id};
      }
      assert unresolved == ids - newComponents.Keys;
      if unresolved == {} {
        forall id | id in ids ensures id in newComponents { assert id !in unresolved; }
      } else {
        var x :| x in unresolved;
        assert x in ids && x !in newComponents;
      }
      if unresolved != {} {
        found := cached + (map id | id in unresolved && id in stored :: stored[id]);
        queried := Some(unresolved);
      } else {
        found := cached;
        queried := None;
      }
    }

    /** The seeding pass over the rows of one type. */
    method SeedRows(typed: seq<Row>, existing: map<string, Doc>, t: ComponentType) returns (toImport: seq<Row>)
      modifies this
      ensures SeedRun(State(), toImport) == Seed(old(State()), typed, existing, t)
      ensures commits == old(commits) && registered == old(registered) && published == old(published)
    {
      ghost var st0 := State();
      toImport := [];
      for i := 0 to |typed|
        invariant SeedRun(State(), toImport) == Seed(st0, typed[..i], existing, t)
        invariant commits == old(commits) && registered == old(registered) && published == old(published)
      {
        var row := typed[i];
        assert typed[..i + 1][..i] == typed[..i];
        if row.id !in existing {
          newComponents := newComponents[row.id := IdOnlyDoc(row.id, t)];
          toImport := toImport + [row];
          if IsCore(t) {
            if row.effectiveTime.None? {
              idsToRegister := idsToRegister + {row.id};
            } else {
              idsToPublish := idsToPublish + {row.id};
            }
          }
        } else if Supersedes(row, existing[row.id]) {
          toImport := toImport + [row];
          var prev := existing[row.id];
          if IsCore(t) && row.effectiveTime.Some? && !prev.released {
            idsToPublish := idsToPublish + {prev.id};
          }
        }
      }
      assert typed[..|typed|] == typed;
    }

    /** Stages the imported rows of one type. */
    method StageRows(existing: map<string, Doc>, toImport: seq<Row>)
      requires forall i :: 0 <= i < |toImport| ==> toImport[i].id in newComponents || toImport[i].id in existing
      modifies this
      ensures newComponents == old(newComponents) && idsToPublish == old(idsToPublish) && idsToRegister == old(idsToRegister)
      ensures staged == old(staged) + Apply(newComponents, existing, toImport)
      ensures commits == old(commits) && registered == old(registered) && published == old(published)
    {
      for i := 0 to |toImport|
        invariant newComponents == old(newComponents) && idsToPublish == old(idsToPublish) && idsToRegister == old(idsToRegister)
        invariant forall j :: 0 <= j < i ==> toImport[..i][j].id in newComponents || toImport[..i][j].id in existing
        invariant staged == old(staged) + Apply(newComponents, existing, toImport[..i])
        invariant commits == old(commits) && registered == old(registered) && published == old(published)
      {
        assert toImport[..i + 1][..i] == toImport[..i];
        var row := toImport[i];
        if row.id in newComponents {
          staged := staged + [StagedAdd(Init(newComponents[row.id], row))];
        } else {
          var prev := existing[row.id];
          var next := Init(prev, row);
          staged := staged + [StagedUpdate(prev, if prev.released then next.(released := true) else next)];
        }
      }
      assert toImport[..|toImport|] == toImport;
    }

    /** The rows of one type: look up, seed, then stage the imported rows. */
    method AddType(rows: seq<Row>, deps: map<ComponentType, set<string>>, t: ComponentType)
      modifies this
      ensures State() == TypeStep(old(State()), rows, deps, stored, t)
      ensures commits == old(commits) && registered == old(registered) && published == old(published)
    {
      var typed := RowsOf(rows, t);
      var ids := CollectIds(typed);
      var existing, _ := LookupAll(ids + DepsOf(deps, t));
      var toImport := SeedRows(typed, existing, t);
      StageRows(existing, toImport);
    }

    /** Imports a batch of rows, one component type at a time in import
        order. */
    method Add(rows: seq<Row>, deps: map<ComponentType, set<string>>)
      modifies this
      ensures State() == AddSpec(old(State()), rows, deps, stored, ImportOrder)
      ensures commits == old(commits) && registered == old(registered) && published == old(published)
    {
      for k := 0 to |ImportOrder|
        invariant State() == AddSpec(old(State()), rows, deps, stored, ImportOrder[..k])
        invariant commits == old(commits) && registered == old(registered) && published == old(published)
      {
        assert ImportOrder[..k + 1][..k] == ImportOrder[..k];
        AddType(rows, deps, ImportOrder[k]);
      }
      assert ImportOrder[..|ImportOrder|] == ImportOrder;
    }

    /** The supported commit: drop the cache, commit the staging area, hand
        the identifier sets to the identifier service when it supports
        imports, and clear them. */
    method CommitWithComment(comment: string) returns (c: Option<Commit>)
      modifies this
      ensures newComponents == map[] && idsToPublish == {} && idsToRegister == {} && staged == []
      ensures old(staged) == [] ==> c == None && commits == old(commits)
      ensures old(staged) != [] ==> c == Some(Commit(comment, old(staged))) && commits == old(commits) + [c.value]
      ensures cisImportSupported ==>
        registered == old(registered) + [old(idsToRegister)] && published == old(published) + [old(idsToPublish)]
      ensures !cisImportSupported ==> registered == old(registered) && published == old(published)
    {
      newComponents := map[];
      if staged == [] {
        c := None;
      } else {
        c := Some(Commit(comment, staged));
        commits := commits + [c.value];
        staged := [];
      }
      if cisImportSupported {
        registered := registered + [idsToRegister];
        published := published + [idsToPublish];
      }
      idsToPublish := {};
      idsToRegister := {};
    }

    /** The other three commit overloads are refused. */
    method CommitUnsupported() returns (r: Result<Option<Commit>, ContextError>)
      ensures r == Failure(UnsupportedCommit)
    {
      r := Failure(UnsupportedCommit);
    }
  }

  /** Each type's changes are staged after those of every type before it in
      import order. */
  lemma {:induction false} AddStagesInImportOrder(st: ImportState, rows: seq<Row>, deps: map<ComponentType, set<string>>,
                                                  stored: map<string, Doc>, order: seq<ComponentType>, k: nat)
    requires k <= |order|
    ensures |AddSpec(st, rows, deps, stored, order[..k]).staged| <= |AddSpec(st, rows, deps, stored, order).staged|
    ensures AddSpec(st, rows, deps, stored, order).staged[..|AddSpec(st, rows, deps, stored, order[..k]).staged|] ==
      AddSpec(st, rows, deps, stored, order[..k]).staged
    decreases |order| - k
  {
    if k < |order| {
      AddStagesInImportOrder(st, rows, deps, stored, order, k + 1);
      assert order[..k + 1][..k] == order[..k];
      var a := AddSpec(st, rows, deps, stored, order[..k]);
      var b := AddSpec(st, rows, deps, stored, order[..k + 1]);
      assert b == TypeStep(a, rows, deps, stored, order[k]);
      assert b.staged[..|a.staged|] == a.staged;
    } else {
      assert order[..k] == order;
    }
  }
}
