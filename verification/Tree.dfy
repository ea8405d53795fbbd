/**
 * Projects, their modules and the collections filed in them: what creating, re-parenting and
 * deleting does to those three tables, and the invariant every such step keeps.
 */
module Tree {
  import opened Base
  import opened Forest
  import opened Text

  datatype StoreError = InvalidId | NotFound(id: Id) | Sqlite | Io

  datatype Outcome = Done | Failed(error: StoreError)

  datatype Module = Module(project: Id, isDefault: bool)

  datatype Tree = Tree(projects: set<Id>, modules: map<Id, Module>, collections: Collections)

  datatype TreeStep = TreeStep(tree: Tree, outcome: Outcome)

  /** The bytes of `default-module-`. */
  const DEFAULT_MODULE_PREFIX: Bytes := [100, 101, 102, 97, 117, 108, 116, 45, 109, 111, 100, 117, 108, 101, 45]

  /** The bytes of `default-project`, `default-module` and `default-collection`. */
  const DEFAULT_PROJECT: Id := [100, 101, 102, 97, 117, 108, 116, 45, 112, 114, 111, 106, 101, 99, 116]
  const DEFAULT_MODULE: Id := [100, 101, 102, 97, 117, 108, 116, 45, 109, 111, 100, 117, 108, 101]
  const DEFAULT_COLLECTION: Id := [100, 101, 102, 97, 117, 108, 116, 45, 99, 111, 108, 108, 101, 99, 116, 105, 111, 110]

  /** The tables of a fresh database, with the default rows. */
  function InitialTree(): (t: Tree)
    ensures TreeOk(t)
  {
    var cs: Collections := map[DEFAULT_COLLECTION := Collection(DEFAULT_PROJECT, DEFAULT_MODULE, "Default Collection", None)];
    assert Up(cs, DEFAULT_COLLECTION, 1) == None;
    Tree({DEFAULT_PROJECT}, map[DEFAULT_MODULE := Module(DEFAULT_PROJECT, true)], cs)
  }

  /** A collection's module exists and belongs to the collection's project. */
  ghost predicate ModulesOk(t: Tree) {
    && (forall m :: m in t.modules ==> t.modules[m].project in t.projects)
    && (forall m, m' :: m in t.modules && m' in t.modules && t.modules[m].isDefault && t.modules[m'].isDefault ==>
          t.modules[m].project == t.modules[m'].project ==> m == m')
    && (forall c :: c in t.collections ==> t.collections[c].project in t.projects && ModuleFits(t, c))
  }

  predicate ModuleFits(t: Tree, c: Id)
    requires c in t.collections
  {
    t.collections[c].mod in t.modules && t.modules[t.collections[c].mod].project == t.collections[c].project
  }

  /** Children share their parent's project and module. */
  ghost predicate ChildrenMatch(cs: Collections) {
    forall c :: c in cs && cs[c].parent.Some? ==>
      && cs[c].parent.value in cs
      && cs[c].project == cs[cs[c].parent.value].project
      && cs[c].mod == cs[cs[c].parent.value].mod
  }

  ghost predicate TreeOk(t: Tree) {
    ModulesOk(t) && IsForest(t.collections) && ChildrenMatch(t.collections)
  }

  // ----- operations -----

  function CreateProject(t: Tree, id: Id, name: string): TreeStep {
    if Trim(name) == "" then TreeStep(t, Failed(InvalidId))
    else if id in t.projects then TreeStep(t, Failed(Sqlite))
    else
      var t1 := t.(projects := t.projects + {id});
      var module_ := DEFAULT_MODULE_PREFIX + id;
      if module_ in t.modules then TreeStep(t1, Failed(Sqlite))
      else TreeStep(t1.(modules := t.modules[module_ := Module(id, true)]), Done)
  }

  function CreateModule(t: Tree, id: Id, project: Id, name: string): TreeStep {
    if Trim(name) == "" then TreeStep(t, Failed(InvalidId))
    else if id in t.modules || project !in t.projects then TreeStep(t, Failed(Sqlite))
    else TreeStep(t.(modules := t.modules[id := Module(project, false)]), Done)
  }

  predicate IsDefaultModule(t: Tree, project: Id, m: Id) {
    m in t.modules && t.modules[m].project == project && t.modules[m].isDefault
  }

  /** The module a new collection joins: its parent's, else the requested one, else the default. */
  ghost function PlaceCollection(t: Tree, project: Id, requested: Option<Id>, parent: Option<Id>): Result<Id, StoreError>
  {
    if parent.Some? then
      if parent.value in t.collections && t.collections[parent.value].project == project
      then Ok(t.collections[parent.value].mod)
      else Err(NotFound(parent.value))
    else if requested.Some? then
      if requested.value in t.modules && t.modules[requested.value].project == project
      then Ok(requested.value)
      else Err(NotFound(requested.value))
    else if m :| IsDefaultModule(t, project, m) then Ok(m)
    else Err(Sqlite)
  }

  ghost function CreateCollection(t: Tree, id: Id, project: Id, requested: Option<Id>, parent: Option<Id>, name: string): TreeStep
  {
    if Trim(name) == "" then TreeStep(t, Failed(InvalidId))
    else
      var place := PlaceCollection(t, project, requested, parent);
      if place.Err? then TreeStep(t, Failed(place.error))
      else if id in t.collections then TreeStep(t, Failed(Sqlite))
      else TreeStep(t.(collections := t.collections[id := Collection(project, place.value, Trim(name), parent)]), Done)
  }

  /** Why `update_collection` refuses to hang `id` below `parent`, if it does. */
  ghost function RefuseMove(cs: Collections, id: Id, parent: Option<Id>): Option<StoreError>
    requires id in cs
  {
    if parent.None? then None
    else if parent.value !in cs then Some(NotFound(parent.value))
    else if cs[parent.value].project != cs[id].project then Some(InvalidId)
    else if Under(cs, parent.value, id) then Some(InvalidId)
    else None
  }

  function SetModule(cs: Collections, rows: set<Id>, m: Id): Collections {
    map c | c in cs :: if c in rows then cs[c].(mod := m) else cs[c]
  }

  function MoveCollection(cs: Collections, id: Id, name: string, parent: Option<Id>): Collections
    requires id in cs
    requires parent.Some? ==> parent.value in cs
  {
    var moved := cs[id := cs[id].(name := name, parent := parent)];
    var target := if parent.Some? then cs[parent.value].mod else cs[id].mod;
    if target == cs[id].mod then moved else SetModule(moved, Cascade(moved, {id}), target)
  }

  ghost function UpdateCollection(t: Tree, id: Id, name: string, parent: Option<Id>): TreeStep {
    if Trim(name) == "" || parent == Some(id) then TreeStep(t, Failed(InvalidId))
    else if id !in t.collections then TreeStep(t, Failed(NotFound(id)))
    else
      var refusal := RefuseMove(t.collections, id, parent);
      if refusal.Some? then TreeStep(t, Failed(refusal.value))
      else TreeStep(t.(collections := MoveCollection(t.collections, id, Trim(name), parent)), Done)
  }

  /** Deleting a collection row cascades to its subtree. */
  function PruneCollection(t: Tree, id: Id): Tree {
    t.(collections := t.collections - Cascade(t.collections, {id}))
  }

  function CollectionsOf(t: Tree, project: Id): set<Id> {
    set c | c in t.collections && t.collections[c].project == project
  }

  function ModulesWithout(modules: map<Id, Module>, project: Id): map<Id, Module> {
    map m | m in modules && modules[m].project != project :: modules[m]
  }

  /** Deleting a project row cascades to its modules and collections. */
  function PruneProject(t: Tree, id: Id): Tree {
    Tree(t.projects - {id},
         ModulesWithout(t.modules, id),
         t.collections - Cascade(t.collections, CollectionsOf(t, id)))
  }

  // ----- every step keeps the invariant -----

  /** No project or collection disappears, and no collection changes its project. */
  ghost predicate Grows(t: Tree, t': Tree) {
    && t.projects <= t'.projects
    && forall c :: c in t.collections ==> c in t'.collections && t'.collections[c].project == t.collections[c].project
  }

  lemma CreateProjectKeeps(t: Tree, id: Id, name: string)
    requires TreeOk(t)
    ensures TreeOk(CreateProject(t, id, name).tree) && Grows(t, CreateProject(t, id, name).tree)
  {
    var t' := CreateProject(t, id, name).tree;
    assert t'.collections == t.collections;
    forall c | c in t.collections ensures ModuleFits(t', c) {
      assert ModuleFits(t, c);
    }
  }

  lemma CreateModuleKeeps(t: Tree, id: Id, project: Id, name: string)
    requires TreeOk(t)
    ensures TreeOk(CreateModule(t, id, project, name).tree) && Grows(t, CreateModule(t, id, project, name).tree)
  {
    var t' := CreateModule(t, id, project, name).tree;
    assert t'.collections == t.collections;
    forall c | c in t.collections ensures ModuleFits(t', c) {
      assert ModuleFits(t, c);
    }
  }

  lemma CreateCollectionKeeps(t: Tree, id: Id, project: Id, requested: Option<Id>, parent: Option<Id>, name: string)
    requires TreeOk(t)
    ensures TreeOk(CreateCollection(t, id, project, requested, parent, name).tree)
    ensures Grows(t, CreateCollection(t, id, project, requested, parent, name).tree)
    ensures CreateCollection(t, id, project, requested, parent, name).outcome.Failed? ==>
              CreateCollection(t, id, project, requested, parent, name).tree == t
  {
    var place := PlaceCollection(t, project, requested, parent);
    if place.Ok? && id !in t.collections {
      PlaceFits(t, project, requested, parent);
      GraftKeepsTree(t, id, Collection(project, place.value, Trim(name), parent));
    }
    hide TreeOk, PlaceCollection;
    assert Grows(t, t);
  }

  /** The chosen module belongs to the project, and is the parent's if there is a parent. */
  lemma PlaceFits(t: Tree, project: Id, requested: Option<Id>, parent: Option<Id>)
    requires TreeOk(t) && PlaceCollection(t, project, requested, parent).Ok?
    ensures var m := PlaceCollection(t, project, requested, parent).value;
            && m in t.modules && t.modules[m].project == project && project in t.projects
            && (parent.Some? ==> parent.value in t.collections && t.collections[parent.value].project == project
                                 && t.collections[parent.value].mod == m)
  {
    if parent.Some? && parent.value in t.collections {
      assert ModuleFits(t, parent.value);
    }
  }

  lemma GraftKeepsTree(t: Tree, id: Id, row: Collection)
    requires TreeOk(t) && id !in t.collections
    requires row.project in t.projects && row.mod in t.modules && t.modules[row.mod].project == row.project
    requires row.parent.Some? ==>
               && row.parent.value in t.collections
               && t.collections[row.parent.value].project == row.project && t.collections[row.parent.value].mod == row.mod
    ensures var t' := t.(collections := t.collections[id := row]); TreeOk(t') && Grows(t, t')
  {
    var t' := t.(collections := t.collections[id := row]);
    GraftKeepsForest(t.collections, id, row);
    hide IsForest;
    forall c | c in t'.collections ensures t'.collections[c].project in t'.projects && ModuleFits(t', c) {
      assert c != id ==> ModuleFits(t, c);
    }
  }

  /** Moving a collection keeps the whole tree invariant; a refused move changes nothing. */
  lemma UpdateCollectionKeeps(t: Tree, id: Id, name: string, parent: Option<Id>)
    requires TreeOk(t)
    ensures TreeOk(UpdateCollection(t, id, name, parent).tree) && Grows(t, UpdateCollection(t, id, name, parent).tree)
    ensures UpdateCollection(t, id, name, parent).outcome.Failed? ==> UpdateCollection(t, id, name, parent).tree == t
  {
    if id in t.collections && parent != Some(id) && RefuseMove(t.collections, id, parent).None? {
      MoveKeepsTree(t, id, Trim(name), parent);
    }
  }

  lemma MoveKeepsTree(t: Tree, id: Id, name: string, parent: Option<Id>)
    requires TreeOk(t) && id in t.collections && RefuseMove(t.collections, id, parent).None?
    ensures var t' := t.(collections := MoveCollection(t.collections, id, name, parent)); TreeOk(t') && Grows(t, t')
  {
    MoveKeepsForest(t.collections, id, name, parent);
    MoveKeepsMatch(t.collections, id, name, parent);
    MoveKeepsModules(t, id, name, parent);
  }

  /** Only the moved subtree, which lies inside one project, takes the new parent's module. */
  lemma MoveKeepsModules(t: Tree, id: Id, name: string, parent: Option<Id>)
    requires TreeOk(t) && id in t.collections && RefuseMove(t.collections, id, parent).None?
    ensures ModulesOk(t.(collections := MoveCollection(t.collections, id, name, parent)))
  {
    var t' := t.(collections := MoveCollection(t.collections, id, name, parent));
    forall c | c in t'.collections ensures t'.collections[c].project in t'.projects && ModuleFits(t', c) {
      MoveFitsModule(t, id, name, parent, c);
    }
  }

  lemma MoveFitsModule(t: Tree, id: Id, name: string, parent: Option<Id>, c: Id)
    requires TreeOk(t) && id in t.collections && RefuseMove(t.collections, id, parent).None? && c in t.collections
    ensures var t' := t.(collections := MoveCollection(t.collections, id, name, parent));
            c in t'.collections && t'.collections[c].project == t.collections[c].project && ModuleFits(t', c)
  {
    var cs := t.collections;
    SubtreeSharesModule(cs, id, cs[id := cs[id].(name := name, parent := parent)]);
    assert ModuleFits(t, c);
    if parent.Some? {
      assert ModuleFits(t, parent.value);
    }
  }

  lemma MoveKeepsForest(cs: Collections, id: Id, name: string, parent: Option<Id>)
    requires IsForest(cs) && id in cs
    requires parent.Some? ==> parent.value in cs && !Under(cs, parent.value, id)
    ensures IsForest(MoveCollection(cs, id, name, parent))
  {
    ReparentKeepsForest(cs, id, parent);
    ForestDependsOnParents(Reparented(cs, id, parent), MoveCollection(cs, id, name, parent));
  }

  lemma MoveKeepsMatch(cs: Collections, id: Id, name: string, parent: Option<Id>)
    requires IsForest(cs) && ChildrenMatch(cs) && id in cs && RefuseMove(cs, id, parent).None?
    ensures ChildrenMatch(MoveCollection(cs, id, name, parent))
  {
    var moved := cs[id := cs[id].(name := name, parent := parent)];
    var target := if parent.Some? then cs[parent.value].mod else cs[id].mod;
    var rows := Cascade(moved, {id});
    if target != cs[id].mod {
      NewParentStaysOutside(cs, id, name, parent.value);
      SubtreeSharesModule(cs, id, moved);
      forall c | c in moved && moved[c].parent.Some? && c in rows && c != id
        ensures moved[c].parent.value in rows
      {
        CascadeIsSubtree(moved, id, c);
        var n: nat :| Up(moved, c, n) == Some(id);
        assert Up(moved, moved[c].parent.value, n - 1) == Some(id);
        CascadeIsSubtree(moved, id, moved[c].parent.value);
      }
    }
  }

  lemma NewParentStaysOutside(cs: Collections, id: Id, name: string, parent: Id)
    requires IsForest(cs) && id in cs && parent in cs && !Under(cs, parent, id)
    ensures parent !in Cascade(cs[id := cs[id].(name := name, parent := Some(parent))], {id})
  {
    var moved := cs[id := cs[id].(name := name, parent := Some(parent))];
    CascadeIsSubtree(moved, id, parent);
    if n: nat :| Up(moved, parent, n) == Some(id) {
      WalkDependsOnParents(moved, Reparented(cs, id, Some(parent)), parent, n);
      UpAvoiding(cs, id, Some(parent), parent, n);
      assert false;
    }
  }

  /** Before the module rewrite, everything in the moved subtree still has the old module. */
  lemma SubtreeSharesModule(cs: Collections, id: Id, moved: Collections)
    requires ChildrenMatch(cs) && id in cs
    requires moved.Keys == cs.Keys && moved[id].mod == cs[id].mod && moved[id].project == cs[id].project
    requires forall c :: c in cs && c != id ==> moved[c] == cs[c]
    ensures forall c :: c in Cascade(moved, {id}) ==> c in cs && moved[c].mod == cs[id].mod && moved[c].project == cs[id].project
  {
    forall c | c in Cascade(moved, {id})
      ensures c in cs && moved[c].mod == cs[id].mod && moved[c].project == cs[id].project
    {
      CascadeIsSubtree(moved, id, c);
      var n: nat :| Up(moved, c, n) == Some(id);
      WalkSharesModule(cs, id, moved, c, n);
    }
  }

  lemma {:induction false} WalkSharesModule(cs: Collections, id: Id, moved: Collections, c: Id, n: nat)
    requires ChildrenMatch(cs) && id in cs
    requires moved.Keys == cs.Keys && moved[id].mod == cs[id].mod && moved[id].project == cs[id].project
    requires forall d :: d in cs && d != id ==> moved[d] == cs[d]
    requires Up(moved, c, n) == Some(id)
    ensures c in cs && moved[c].mod == cs[id].mod && moved[c].project == cs[id].project
    decreases n
  {
    if n > 0 && c != id {
      WalkSharesModule(cs, id, moved, moved[c].parent.value, n - 1);
    }
  }

  lemma PruneCollectionKeeps(t: Tree, id: Id)
    requires TreeOk(t)
    ensures TreeOk(PruneCollection(t, id))
  {
    PruneKeepsForest(t.collections, Cascade(t.collections, {id}));
  }

  /** A project's collections are closed under children, so its cascade removes exactly those. */
  lemma ProjectCascade(t: Tree, id: Id)
    requires TreeOk(t)
    ensures Cascade(t.collections, CollectionsOf(t, id)) == CollectionsOf(t, id)
  {}

  lemma PruneProjectKeeps(t: Tree, id: Id)
    requires TreeOk(t)
    ensures TreeOk(PruneProject(t, id))
  {
    ProjectCascade(t, id);
    PruneKeepsForest(t.collections, CollectionsOf(t, id));
  }

  // ----- what every step does to the tables -----

  /** A project and its default module appear, or the name is blank, or an id is taken. */
  lemma CreateProjectExactly(t: Tree, id: Id, name: string)
    ensures var f := CreateProject(t, id, name);
            && (f.outcome.Done? <==> Trim(name) != "" && id !in t.projects && DEFAULT_MODULE_PREFIX + id !in t.modules)
            && (f.outcome.Done? ==>
                  && f.tree.projects == t.projects + {id}
                  && f.tree.modules == t.modules[DEFAULT_MODULE_PREFIX + id := Module(id, true)])
            && (f.outcome.Failed? ==>
                  && f.tree.modules == t.modules
                  && f.tree.projects == if Trim(name) == "" then t.projects else t.projects + {id})
            && f.tree.collections == t.collections
  {}

  lemma CreateModuleExactly(t: Tree, id: Id, project: Id, name: string)
    ensures var f := CreateModule(t, id, project, name);
            && (f.outcome.Done? <==> Trim(name) != "" && id !in t.modules && project in t.projects)
            && (f.outcome.Done? ==> f.tree.modules == t.modules[id := Module(project, false)])
            && f.tree.projects == t.projects && f.tree.collections == t.collections
  {}

  /** Where a new collection may not go. */
  ghost predicate NoPlace(t: Tree, project: Id, requested: Option<Id>, parent: Option<Id>) {
    if parent.Some? then parent.value !in t.collections || t.collections[parent.value].project != project
    else if requested.Some? then requested.value !in t.modules || t.modules[requested.value].project != project
    else forall m :: m in t.modules ==> t.modules[m].project != project || !t.modules[m].isDefault
  }

  /** One row more: under the given parent, in the parent's, the requested or the default module. */
  ghost predicate Added(t: Tree, t': Tree, id: Id, project: Id, requested: Option<Id>, parent: Option<Id>, name: string) {
    && t'.projects == t.projects && t'.modules == t.modules
    && id !in t.collections && t'.collections.Keys == t.collections.Keys + {id}
    && (forall c :: c in t.collections ==> t'.collections[c] == t.collections[c])
    && t'.collections[id].parent == parent && t'.collections[id].name == Trim(name) && t'.collections[id].project == project
    && var m := t'.collections[id].mod;
       if parent.Some? then parent.value in t.collections && m == t.collections[parent.value].mod
       else if requested.Some? then m == requested.value
       else m in t.modules && t.modules[m] == Module(project, true)
  }

  lemma CreateCollectionExactly(t: Tree, id: Id, project: Id, requested: Option<Id>, parent: Option<Id>, name: string)
    ensures var f := CreateCollection(t, id, project, requested, parent, name);
            && (f.outcome.Failed? <==> Trim(name) == "" || id in t.collections || NoPlace(t, project, requested, parent))
            && (f.outcome.Failed? ==> f.tree == t)
            && (f.outcome.Done? ==> Added(t, f.tree, id, project, requested, parent, name))
  {
    if parent.None? && requested.None? && !NoPlace(t, project, requested, parent) {
      var m :| m in t.modules && t.modules[m].project == project && t.modules[m].isDefault;
      assert IsDefaultModule(t, project, m);
    }
  }

  /** Where a collection may not be hung: nowhere, in another project, or below itself. */
  ghost predicate BadParent(t: Tree, id: Id, parent: Option<Id>)
    requires id in t.collections
  {
    parent.Some? &&
      (|| parent.value !in t.collections
       || t.collections[parent.value].project != t.collections[id].project
       || Under(t.collections, parent.value, id))
  }

  /**
   * One row has a new name and parent; below it, and only there, every row takes the new parent's
   * module; nothing else changes.
   */
  ghost predicate Moved(t: Tree, t': Tree, id: Id, name: string, parent: Option<Id>)
    requires id in t.collections && (parent.Some? ==> parent.value in t.collections)
  {
    && t'.projects == t.projects && t'.modules == t.modules && t'.collections.Keys == t.collections.Keys
    && t'.collections[id].parent == parent && t'.collections[id].name == Trim(name)
    && (forall c :: c in t.collections ==>
          && t'.collections[c].project == t.collections[c].project
          && (c != id ==> t'.collections[c].name == t.collections[c].name && t'.collections[c].parent == t.collections[c].parent)
          && t'.collections[c].mod ==
             if parent.Some? && Under(t.collections, c, id) then t.collections[parent.value].mod else t.collections[c].mod)
  }

  /** Moving a row does not change what is below it. */
  lemma SubtreeStays(cs: Collections, id: Id, row: Collection, c: Id)
    requires IsForest(cs) && id in cs
    ensures Under(cs[id := row], c, id) <==> Under(cs, c, id)
  {
    var moved := cs[id := row];
    if Under(cs, c, id) {
      var n: nat :| Up(cs, c, n) == Some(id);
      MeetsStill(cs, id, row, c, n);
    }
    if Under(moved, c, id) {
      var n: nat :| Up(moved, c, n) == Some(id);
      MeetsStill(moved, id, cs[id], c, n);
      assert moved[id := cs[id]] == cs;
    }
  }

  lemma MeetsStill(cs: Collections, id: Id, row: Collection, c: Id, n: nat)
    requires id in cs && Up(cs, c, n) == Some(id)
    ensures Under(cs[id := row], c, id)
  {
    var k := FirstMeeting(cs, c, id, n);
    UpAvoiding(cs, id, row.parent, c, k);
    WalkDependsOnParents(Reparented(cs, id, row.parent), cs[id := row], c, k);
    assert Up(cs[id := row], c, k) == Some(id);
  }

  lemma MovedModules(t: Tree, id: Id, name: string, parent: Option<Id>, c: Id)
    requires TreeOk(t) && id in t.collections && !BadParent(t, id, parent) && c in t.collections
    ensures var cs' := MoveCollection(t.collections, id, name, parent);
            && c in cs'
            && cs'[c].mod ==
               if parent.Some? && Under(t.collections, c, id) then t.collections[parent.value].mod else t.collections[c].mod
  {
    var cs := t.collections;
    var row := cs[id].(name := name, parent := parent);
    var moved := cs[id := row];
    SubtreeStays(cs, id, row, c);
    CascadeIsSubtree(moved, id, c);
    SubtreeSharesModule(cs, id, cs);
    CascadeIsSubtree(cs, id, c);
  }

  lemma MovedColumns(cs: Collections, id: Id, name: string, parent: Option<Id>)
    requires id in cs && (parent.Some? ==> parent.value in cs)
    ensures var cs' := MoveCollection(cs, id, name, parent);
            && cs'.Keys == cs.Keys && cs'[id].parent == parent && cs'[id].name == name
            && forall c :: c in cs ==>
                 && cs'[c].project == cs[c].project
                 && (c != id ==> cs'[c].name == cs[c].name && cs'[c].parent == cs[c].parent)
  {
    hide Cascade;
  }

  lemma MovedAsAsked(t: Tree, id: Id, name: string, parent: Option<Id>)
    requires TreeOk(t) && id in t.collections && !BadParent(t, id, parent)
    ensures Moved(t, t.(collections := MoveCollection(t.collections, id, Trim(name), parent)), id, name, parent)
  {
    hide Under, Cascade, TreeOk, Trim, MoveCollection;
    var cs' := MoveCollection(t.collections, id, Trim(name), parent);
    MovedColumns(t.collections, id, Trim(name), parent);
    forall c | c in t.collections
      ensures c in cs' && cs'[c].mod ==
                if parent.Some? && Under(t.collections, c, id) then t.collections[parent.value].mod else t.collections[c].mod
    {
      MovedModules(t, id, Trim(name), parent, c);
    }
  }

  lemma OwnParentIsBad(t: Tree, id: Id)
    requires id in t.collections
    ensures BadParent(t, id, Some(id))
  {
    assert Up(t.collections, id, 0) == Some(id);
  }

  /** An update moves and renames exactly as asked, unless name, row or parent will not do. */
  lemma UpdateCollectionExactly(t: Tree, id: Id, name: string, parent: Option<Id>)
    requires TreeOk(t)
    ensures var f := UpdateCollection(t, id, name, parent);
            && (f.outcome.Failed? <==> Trim(name) == "" || id !in t.collections || BadParent(t, id, parent))
            && (f.outcome.Failed? ==> f.tree == t)
            && (f.outcome.Done? ==> Moved(t, f.tree, id, name, parent))
  {
    hide Under, TreeOk, Trim, MoveCollection, Moved;
    if id in t.collections {
      OwnParentIsBad(t, id);
      if !BadParent(t, id, parent) {
        MovedAsAsked(t, id, name, parent);
      }
    }
  }

  /** Deleting a project takes its row, its modules and its collections, and leaves all others as they are. */
  lemma PruneProjectExactly(t: Tree, id: Id)
    requires TreeOk(t)
    ensures var t' := PruneProject(t, id);
            && t'.projects == t.projects - {id}
            && (forall m :: m in t'.modules <==> m in t.modules && t.modules[m].project != id)
            && (forall m :: m in t'.modules ==> t'.modules[m] == t.modules[m])
            && (forall c :: c in t'.collections <==> c in t.collections && t.collections[c].project != id)
            && (forall c :: c in t'.collections ==> t'.collections[c] == t.collections[c])
  {
    ProjectCascade(t, id);
  }

  /** Deleting a collection takes it and what is below it, and nothing else. */
  lemma PruneCollectionExactly(t: Tree, id: Id)
    ensures var t' := PruneCollection(t, id);
            && t'.projects == t.projects && t'.modules == t.modules
            && (forall c :: c in t'.collections <==> c in t.collections && !Under(t.collections, c, id))
            && (forall c :: c in t'.collections ==> t'.collections[c] == t.collections[c])
  {
    forall c ensures c in Cascade(t.collections, {id}) <==> Under(t.collections, c, id) {
      CascadeIsSubtree(t.collections, id, c);
    }
  }
}
