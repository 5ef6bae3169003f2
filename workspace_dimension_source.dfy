/**
 * LegacyConfigurationAndWorkspaceBasedContentDimensionSource: the
 * dimensions of the configuration based source, followed by a `_workspace`
 * dimension with one value per workspace that counts, built lazily on the
 * first call to a getter.
 */
module WorkspaceDimensionSource {
  import opened Wrappers
  import opened PhpArrays
  import opened Content
  import opened ContentDimensions
  import opened LegacyDimensionSource

  const EDITOR: string := "Neos.Neos:Editor"
  const ADMINISTRATOR: string := "Neos.Neos:Administrator"
  const LIVE: string := "live"
  /** The name prefix of personal workspaces. */
  const USER_PREFIX: string := "user-"

  /**
   * A workspace as the source reads it: its name; the roles of each account
   * of its owner, `None` when it has no owner; and the names of its base
   * workspaces, the nearest first.
   */
  datatype WorkspaceRecord = WorkspaceRecord(name: string, owner: Option<seq<set<string>>>, baseWorkspaces: seq<string>)

  predicate MayEdit(roles: set<string>) {
    EDITOR in roles || ADMINISTRATOR in roles
  }

  /** A workspace counts when an account of its owner is an editor or an administrator, or, without an owner, when it is no personal workspace. */
  predicate Counts(w: WorkspaceRecord) {
    if w.owner.Some? then exists i :: 0 <= i < |w.owner.value| && MayEdit(w.owner.value[i])
    else !(USER_PREFIX <= w.name)
  }

  /** Looks through the owner's accounts, stopping at the first that may edit. */
  method HasEditingAccount(accounts: seq<set<string>>) returns (found: bool)
    ensures found <==> exists i :: 0 <= i < |accounts| && MayEdit(accounts[i])
  {
    found := false;
    var i := 0;
    while i < |accounts|
      invariant 0 <= i <= |accounts|
      invariant forall l :: 0 <= l < i ==> !MayEdit(accounts[l])
    {
      if EDITOR in accounts[i] || ADMINISTRATOR in accounts[i] {
        found := true;
        break;
      }
      i := i + 1;
    }
  }

  /** The dimension value of a workspace: its name, as deep as it has base workspaces. */
  function ValueOf(w: WorkspaceRecord): (v: DimensionValue)
    ensures v.value == w.name && v.specializationDepth == |w.baseWorkspaces|
  {
    DimensionValue(w.name, |w.baseWorkspaces|, Empty(), Empty())
  }

  /** What the loop over the workspaces has collected: the values, each workspace's nearest base, and the default. */
  datatype Collected = Collected(values: Arr<string, DimensionValue>, generalizations: Arr<string, string>, defaultValue: Option<DimensionValue>)

  /**
   * One workspace looked at: one that counts and whose name has no value
   * yet gets one, and its nearest base when it has one; otherwise it
   * becomes the default when there is none yet or it is `live`.
   */
  function Collect(c: Collected, w: WorkspaceRecord): Collected {
    if !Counts(w) || w.name in c.values.items then c
    else
      Collected(
        c.values.Put(w.name, ValueOf(w)),
        if w.baseWorkspaces != [] then c.generalizations.Put(w.name, w.baseWorkspaces[0]) else c.generalizations,
        if w.baseWorkspaces == [] && (c.defaultValue.None? || w.name == LIVE) then Some(ValueOf(w)) else c.defaultValue)
  }

  /** The workspaces looked at in turn. */
  function CollectedFrom(workspaces: seq<WorkspaceRecord>): (r: Collected)
    ensures forall k :: k in r.generalizations.items ==> k in r.values.items
    decreases |workspaces|
  {
    if workspaces == [] then Collected(Empty(), Empty(), None)
    else Collect(CollectedFrom(workspaces[..|workspaces| - 1]), workspaces[|workspaces| - 1])
  }

  /** The collected arrays are well-formed PHP arrays. */
  lemma {:induction false} CollectedValid(workspaces: seq<WorkspaceRecord>)
    ensures CollectedFrom(workspaces).values.Valid() && CollectedFrom(workspaces).generalizations.Valid()
    decreases |workspaces|
  {
    if workspaces == [] {
      EmptyValid<string, DimensionValue>();
      EmptyValid<string, string>();
    } else {
      var init := CollectedFrom(workspaces[..|workspaces| - 1]);
      var w := workspaces[|workspaces| - 1];
      CollectedValid(workspaces[..|workspaces| - 1]);
      PutValid(init.values, w.name, ValueOf(w));
      if w.baseWorkspaces != [] {
        PutValid(init.generalizations, w.name, w.baseWorkspaces[0]);
      }
    }
  }

  /** Looks at one workspace, skipping it when it does not count. */
  method CollectOne(c: Collected, workspace: WorkspaceRecord) returns (r: Collected)
    ensures r == Collect(c, workspace)
  {
    if workspace.owner.Some? {
      var mayEdit := HasEditingAccount(workspace.owner.value);
      if !mayEdit {
        return c;
      }
    } else if USER_PREFIX <= workspace.name {
      return c;
    }
    r := c;
    if workspace.name !in r.values.items {
      var value := DimensionValue(workspace.name, |workspace.baseWorkspaces|, Empty(), Empty());
      r := r.(values := r.values.Put(workspace.name, value));
      if workspace.baseWorkspaces != [] {
        r := r.(generalizations := r.generalizations.Put(workspace.name, workspace.baseWorkspaces[0]));
      } else if r.defaultValue.None? || workspace.name == LIVE {
        r := r.(defaultValue := Some(value));
      }
    }
  }

  /** Looks at every workspace the repository has, in turn. */
  method CollectWorkspaces(workspaces: seq<WorkspaceRecord>) returns (c: Collected)
    ensures c == CollectedFrom(workspaces)
  {
    c := Collected(Empty(), Empty(), None);
    for i := 0 to |workspaces|
      invariant c == CollectedFrom(workspaces[..i])
    {
      PrefixGrows(workspaces, i);
      c := CollectOne(c, workspaces[i]);
    }
    assert workspaces[..|workspaces|] == workspaces;
  }

  /** The workspace at `j` counts and is the first that counts with its name. */
  ghost predicate FirstCounting(workspaces: seq<WorkspaceRecord>, j: int) {
    && 0 <= j < |workspaces|
    && Counts(workspaces[j])
    && forall i :: 0 <= i < j && Counts(workspaces[i]) ==> workspaces[i].name != workspaces[j].name
  }

  /** A name has a value exactly when some workspace with it counts. */
  lemma {:induction false} CollectedHas(workspaces: seq<WorkspaceRecord>, k: string)
    ensures k in CollectedFrom(workspaces).values.items <==> exists j :: 0 <= j < |workspaces| && Counts(workspaces[j]) && workspaces[j].name == k
    decreases |workspaces|
  {
    if workspaces != [] {
      var init := workspaces[..|workspaces| - 1];
      CollectedHas(init, k);
      assert forall j :: 0 <= j < |init| ==> init[j] == workspaces[j];
      if exists j :: 0 <= j < |workspaces| && Counts(workspaces[j]) && workspaces[j].name == k {
        var j :| 0 <= j < |workspaces| && Counts(workspaces[j]) && workspaces[j].name == k;
        if j < |init| {
          assert init[j] == workspaces[j];
        }
      }
    }
  }

  /**
   * The first workspace that counts with a name decides that name: its
   * value has the depth of its base workspaces, and its nearest base, if
   * any, is the name's generalization.
   */
  lemma {:induction false} CollectedFirstWins(workspaces: seq<WorkspaceRecord>, j: int)
    requires FirstCounting(workspaces, j)
    ensures CollectedFrom(workspaces).values.Get(workspaces[j].name) == Some(ValueOf(workspaces[j]))
    ensures CollectedFrom(workspaces).generalizations.Get(workspaces[j].name)
      == (if workspaces[j].baseWorkspaces != [] then Some(workspaces[j].baseWorkspaces[0]) else None)
    decreases |workspaces|
  {
    var init := workspaces[..|workspaces| - 1];
    var name := workspaces[j].name;
    if j < |init| {
      assert init[j] == workspaces[j];
      assert forall i :: 0 <= i < j ==> init[i] == workspaces[i];
      CollectedFirstWins(init, j);
    } else {
      CollectedHas(init, name);
      assert forall i :: 0 <= i < |init| ==> init[i] == workspaces[i];
      assert name !in CollectedFrom(init).values.items;
      CollectedGeneralizations(init, name);
    }
  }

  /** A name has a generalization only once it has a value. */
  lemma CollectedGeneralizations(workspaces: seq<WorkspaceRecord>, k: string)
    requires k !in CollectedFrom(workspaces).values.items
    ensures k !in CollectedFrom(workspaces).generalizations.items
  {
  }

  /** The workspace at `j` is the first with its name to count, and has no base workspace. */
  ghost predicate Root(workspaces: seq<WorkspaceRecord>, j: int) {
    FirstCounting(workspaces, j) && workspaces[j].baseWorkspaces == []
  }

  /** There is a default exactly when some workspace is such a root. */
  lemma {:induction false} DefaultExists(workspaces: seq<WorkspaceRecord>)
    ensures CollectedFrom(workspaces).defaultValue.Some? <==> exists j :: Root(workspaces, j)
    decreases |workspaces|
  {
    if workspaces != [] {
      var init := workspaces[..|workspaces| - 1];
      var last := |workspaces| - 1;
      var w := workspaces[last];
      DefaultExists(init);
      assert forall j :: 0 <= j < |init| ==> init[j] == workspaces[j];
      assert forall j :: Root(init, j) <==> 0 <= j < |init| && Root(workspaces, j);
      CollectedHas(init, w.name);
      assert Root(workspaces, last) <==> Counts(w) && w.name !in CollectedFrom(init).values.items && w.baseWorkspaces == [];
      if exists j :: Root(workspaces, j) {
        var j :| Root(workspaces, j);
        if j < last {
          assert Root(init, j);
        }
      }
    }
  }

  /** A root named `live` is the default. */
  lemma {:induction false} DefaultIsLive(workspaces: seq<WorkspaceRecord>, j: int)
    requires Root(workspaces, j) && workspaces[j].name == LIVE
    ensures CollectedFrom(workspaces).defaultValue == Some(ValueOf(workspaces[j]))
    decreases |workspaces|
  {
    var init := workspaces[..|workspaces| - 1];
    var last := |workspaces| - 1;
    assert forall i :: 0 <= i < |init| ==> init[i] == workspaces[i];
    if j < last {
      assert Root(init, j);
      DefaultIsLive(init, j);
      CollectedHas(init, LIVE);
      assert !(workspaces[last].name == LIVE && workspaces[last].name !in CollectedFrom(init).values.items);
    } else {
      CollectedHas(init, LIVE);
    }
  }

  /** Without a root named `live`, the first root is the default. */
  lemma {:induction false} DefaultIsFirstRoot(workspaces: seq<WorkspaceRecord>, j: int)
    requires Root(workspaces, j)
    requires forall i :: 0 <= i < j ==> !Root(workspaces, i)
    requires forall i :: Root(workspaces, i) ==> workspaces[i].name != LIVE
    ensures CollectedFrom(workspaces).defaultValue == Some(ValueOf(workspaces[j]))
    decreases |workspaces|
  {
    var init := workspaces[..|workspaces| - 1];
    var last := |workspaces| - 1;
    assert forall i :: 0 <= i < |init| ==> init[i] == workspaces[i];
    assert forall i :: Root(init, i) <==> 0 <= i < |init| && Root(workspaces, i);
    if j < last {
      DefaultIsFirstRoot(init, j);
      CollectedHas(init, workspaces[last].name);
    } else {
      DefaultExists(init);
      CollectedHas(init, workspaces[last].name);
    }
  }

  /** The nearest bases as links from workspace value to base value. */
  function LinksOf(generalizations: Arr<string, string>): seq<(string, Option<string>)> {
    seq(|generalizations.Entries()|, i requires 0 <= i < |generalizations.Entries()| =>
      (generalizations.Entries()[i].0, Some(generalizations.Entries()[i].1)))
  }

  /**
   * The dimensions with the `_workspace` dimension appended: each workspace
   * that counts must have its nearest base counting too, no dimension may
   * be called `_workspace` already, and there must be a default.
   */
  function WithWorkspaces(dimensions: Arr<string, ContentDimension>, workspaces: seq<WorkspaceRecord>): (r: Result<Arr<string, ContentDimension>>)
    ensures WORKSPACE_DIMENSION in dimensions.items ==> r.Err?
    ensures r == Err(UndeclaredClass) <==>
      WORKSPACE_DIMENSION in dimensions.items
      && VariationEdges(CollectedFrom(workspaces).values, LinksOf(CollectedFrom(workspaces).generalizations)).Ok?
    ensures r.Ok? ==> r.value.order == dimensions.order + [WORKSPACE_DIMENSION]
    ensures r.Ok? ==> forall k :: k in dimensions.items ==> r.value.Get(k) == Some(dimensions.items[k])
    ensures r.Ok? ==>
      var collected := CollectedFrom(workspaces);
      && WORKSPACE_DIMENSION in r.value.items
      && r.value.items[WORKSPACE_DIMENSION].identifier == WORKSPACE_DIMENSION
      && r.value.items[WORKSPACE_DIMENSION].values == collected.values
      && collected.defaultValue == Some(r.value.items[WORKSPACE_DIMENSION].defaultValue)
  {
    var collected := CollectedFrom(workspaces);
    var edges := VariationEdges(collected.values, LinksOf(collected.generalizations));
    if edges.Err? then Err(edges.failure)
    else if WORKSPACE_DIMENSION in dimensions.items then Err(UndeclaredClass)
    else if collected.defaultValue.None? then Err(TypeError)
    else Ok(dimensions.Put(WORKSPACE_DIMENSION,
                           ContentDimension(WORKSPACE_DIMENSION, collected.values, collected.defaultValue.value, edges.value, Empty())))
  }

  /** A workspace that counts over a base that does not cannot be linked to it: building fails. */
  lemma BaseMustCount(dimensions: Arr<string, ContentDimension>, workspaces: seq<WorkspaceRecord>, j: int)
    requires FirstCounting(workspaces, j) && workspaces[j].baseWorkspaces != []
    requires forall i :: 0 <= i < |workspaces| && Counts(workspaces[i]) ==> workspaces[i].name != workspaces[j].baseWorkspaces[0]
    ensures WithWorkspaces(dimensions, workspaces) == Err(TypeError)
  {
    var collected := CollectedFrom(workspaces);
    var name := workspaces[j].name;
    var base := workspaces[j].baseWorkspaces[0];
    CollectedFirstWins(workspaces, j);
    CollectedHas(workspaces, base);
    CollectedValid(workspaces);
    var generalizations := collected.generalizations;
    EntriesOfListed(generalizations.order, generalizations.items);
    var m :| 0 <= m < |generalizations.order| && generalizations.order[m] == name;
    assert LinksOf(generalizations)[m] == (name, Some(base));
  }

  class LegacyConfigurationAndWorkspaceBasedContentDimensionSource {
    /** the dimensions, null until the first getter call builds them */
    var dimensions: Option<Arr<string, ContentDimension>>
    const baseContentDimensionSource: LegacyConfigurationBasedContentDimensionSource
    /** `findAll` of the workspace repository, taken as given */
    const workspaces: seq<WorkspaceRecord>

    constructor(baseContentDimensionSource: LegacyConfigurationBasedContentDimensionSource, workspaces: seq<WorkspaceRecord>)
      ensures this.baseContentDimensionSource == baseContentDimensionSource && this.workspaces == workspaces
      ensures dimensions == None
    {
      this.baseContentDimensionSource := baseContentDimensionSource;
      this.workspaces := workspaces;
      dimensions := None;
    }

    /**
     * Takes over the base source's dimensions, then appends the workspace
     * dimension. A failure after the takeover leaves the base dimensions in
     * place, so no later call builds again.
     */
    method InitializeDimensions() returns (failure: Option<Failure>)
      modifies this`dimensions, baseContentDimensionSource`dimensions
      ensures baseContentDimensionSource.dimensions
        == InitializedFrom(old(baseContentDimensionSource.dimensions), baseContentDimensionSource.rawDimensionConfiguration)
      ensures var base := ServedFrom(old(baseContentDimensionSource.dimensions), baseContentDimensionSource.rawDimensionConfiguration);
        && (base.Err? ==> dimensions == old(dimensions) && failure == Some(base.failure))
        && (base.Ok? ==>
              var r := WithWorkspaces(base.value, workspaces);
              && dimensions == Some(if r.Ok? then r.value else base.value)
              && failure == (if r.Err? then Some(r.failure) else None))
    {
      var base := baseContentDimensionSource.GetContentDimensionsOrderedByPriority();
      if base.Err? {
        return Some(base.failure);
      }
      dimensions := Some(base.value);
      var collected := CollectWorkspaces(workspaces);
      var edges := CreateVariationEdges(collected.values, LinksOf(collected.generalizations));
      if edges.Err? {
        return Some(edges.failure);
      }
      if WORKSPACE_DIMENSION in base.value.items {
        // the source throws DimensionIdentifierIsConflicting, a class no file declares
        return Some(UndeclaredClass);
      }
      if collected.defaultValue.None? {
        return Some(TypeError);
      }
      dimensions := Some(base.value.Put(WORKSPACE_DIMENSION,
        ContentDimension(WORKSPACE_DIMENSION, collected.values, collected.defaultValue.value, edges.value, Empty())));
      return None;
    }

    /** The dimension under `identifier`, building the dimensions first while there are none. */
    method GetDimension(identifier: string) returns (r: Result<Option<ContentDimension>>)
      modifies this`dimensions, baseContentDimensionSource`dimensions
      ensures old(dimensions).Some? ==> dimensions == old(dimensions) && r == Ok(old(dimensions).value.Get(identifier))
      ensures old(dimensions).Some? ==> baseContentDimensionSource.dimensions == old(baseContentDimensionSource.dimensions)
      ensures old(dimensions).None? ==>
        var base := ServedFrom(old(baseContentDimensionSource.dimensions), baseContentDimensionSource.rawDimensionConfiguration);
        var built := if base.Err? then Err(base.failure) else WithWorkspaces(base.value, workspaces);
        r == (if built.Err? then Err(built.failure) else Ok(built.value.Get(identifier)))
      ensures old(dimensions).None? ==>
        baseContentDimensionSource.dimensions == InitializedFrom(old(baseContentDimensionSource.dimensions), baseContentDimensionSource.rawDimensionConfiguration)
      ensures old(dimensions).None? ==>
        var base := ServedFrom(old(baseContentDimensionSource.dimensions), baseContentDimensionSource.rawDimensionConfiguration);
        && (base.Err? ==> dimensions == old(dimensions))
        && (base.Ok? ==> var built := WithWorkspaces(base.value, workspaces); dimensions == Some(if built.Ok? then built.value else base.value))
    {
      if dimensions.None? {
        var failure := InitializeDimensions();
        if failure.Some? {
          return Err(failure.value);
        }
      }
      return Ok(dimensions.value.Get(identifier));
    }

    /** All dimensions, the workspace dimension last, building them first while there are none. */
    method GetContentDimensionsOrderedByPriority() returns (r: Result<Arr<string, ContentDimension>>)
      modifies this`dimensions, baseContentDimensionSource`dimensions
      ensures old(dimensions).Some? ==> dimensions == old(dimensions) && r == Ok(old(dimensions).value)
      ensures old(dimensions).Some? ==> baseContentDimensionSource.dimensions == old(baseContentDimensionSource.dimensions)
      ensures old(dimensions).None? ==>
        var base := ServedFrom(old(baseContentDimensionSource.dimensions), baseContentDimensionSource.rawDimensionConfiguration);
        r == (if base.Err? then Err(base.failure) else WithWorkspaces(base.value, workspaces))
      ensures old(dimensions).None? ==>
        baseContentDimensionSource.dimensions == InitializedFrom(old(baseContentDimensionSource.dimensions), baseContentDimensionSource.rawDimensionConfiguration)
      ensures old(dimensions).None? ==>
        var base := ServedFrom(old(baseContentDimensionSource.dimensions), baseContentDimensionSource.rawDimensionConfiguration);
        && (base.Err? ==> dimensions == old(dimensions))
        && (base.Ok? ==> var built := WithWorkspaces(base.value, workspaces); dimensions == Some(if built.Ok? then built.value else base.value))
    {
      if dimensions.None? {
        var failure := InitializeDimensions();
        if failure.Some? {
          return Err(failure.value);
        }
      }
      return Ok(dimensions.value);
    }
  }
}
