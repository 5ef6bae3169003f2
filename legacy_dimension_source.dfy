/**
 * LegacyConfigurationBasedContentDimensionSource: builds one
 * ContentDimension per entry of the raw dimension configuration, one value
 * per preset, and serves them through two lazily initialising getters.
 */
module LegacyDimensionSource {
  import opened Wrappers
  import opened PhpArrays
  import opened Content
  import opened ContentDimensions

  const VALUES_ARE_MISSING: Failure := Thrown("ContentDimensionValuesAreMissing")
  const DEFAULT_VALUE_IS_MISSING: Failure := Thrown("ContentDimensionDefaultValueIsMissing")

  /**
   * One entry of a preset's `constraints`: the wildcard is the entry's `*`
   * when set, and is then taken out of the restrictions; otherwise it is
   * allowed. The constraints' signature wants a boolean and an array.
   */
  function ConstraintsOf(restrictions: Raw): (r: Result<Constraints>)
    ensures r.Ok? <==> restrictions.List? && (Isset(restrictions, "*") ==> restrictions.entries.items["*"].Flag?)
    ensures r.Err? ==> r.failure == TypeError
    ensures r.Ok? && !Isset(restrictions, "*") ==> r.value == Constraints(true, restrictions.entries)
    ensures r.Ok? && Isset(restrictions, "*") ==>
      && r.value.wildcardAllowed == restrictions.entries.items["*"].flag
      && "*" !in r.value.identifierRestrictions.items
      && r.value.identifierRestrictions.items == restrictions.entries.items - {"*"}
  {
    if !restrictions.List? then Err(TypeError)
    else if Isset(restrictions, "*") then
      var wildcard := restrictions.entries.items["*"];
      if wildcard.Flag? then Ok(Constraints(wildcard.flag, restrictions.entries.Unset("*"))) else Err(TypeError)
    else Ok(Constraints(true, restrictions.entries))
  }

  /** The constraints of a preset, filed by dimension identifier; the first entry that fails ends them. */
  function ConstraintsFrom(entries: seq<(string, Raw)>): (r: Result<Arr<string, Constraints>>)
    ensures r.Err? <==> exists i :: 0 <= i < |entries| && ConstraintsOf(entries[i].1).Err?
    ensures r.Err? ==> r.failure == TypeError
    ensures r.Ok? ==> forall k :: k in r.value.items <==> exists i :: 0 <= i < |entries| && entries[i].0 == k
    decreases |entries|
  {
    if entries == [] then Ok(Empty())
    else
      var init := ConstraintsFrom(entries[..|entries| - 1]);
      var last := entries[|entries| - 1];
      assert forall i :: 0 <= i < |entries| - 1 ==> entries[..|entries| - 1][i] == entries[i];
      if init.Err? then init
      else
        var c := ConstraintsOf(last.1);
        if c.Err? then Err(c.failure) else Ok(init.value.Put(last.0, c.value))
  }

  /** Builds the constraints entry by entry. */
  method BuildConstraints(entries: seq<(string, Raw)>) returns (r: Result<Arr<string, Constraints>>)
    ensures r == ConstraintsFrom(entries)
  {
    var constraints: Arr<string, Constraints> := Empty();
    for i := 0 to |entries|
      invariant ConstraintsFrom(entries[..i]) == Ok(constraints)
    {
      PrefixGrows(entries, i);
      var (identifier, restrictions) := entries[i];
      var wildcardAllowed := true;
      if Isset(restrictions, "*") {
        var wildcard := restrictions.entries.items["*"];
        if !wildcard.Flag? {
          return Err(TypeError);
        }
        wildcardAllowed := wildcard.flag;
        restrictions := Raw.List(restrictions.entries.Unset("*"));
      }
      if !restrictions.List? {
        return Err(TypeError);
      }
      constraints := constraints.Put(identifier, Constraints(wildcardAllowed, restrictions.entries));
    }
    assert entries[..|entries|] == entries;
    return Ok(constraints);
  }

  /** The position of the first value that is not null; `|values|` when there is none. */
  function FirstNonNull(values: seq<Raw>): (j: nat)
    ensures j <= |values|
    ensures forall i :: 0 <= i < j ==> values[i].Null?
    ensures j < |values| ==> !values[j].Null?
  {
    if values == [] || !values[0].Null? then 0 else 1 + FirstNonNull(values[1..])
  }

  /** One more value leaves the first non-null one where it was, or is it. */
  lemma FirstNonNullGrows(values: seq<Raw>, i: nat)
    requires i < |values|
    ensures FirstNonNull(values[..i]) < i ==> FirstNonNull(values[..i + 1]) == FirstNonNull(values[..i])
    ensures FirstNonNull(values[..i]) == i ==> FirstNonNull(values[..i + 1]) == (if values[i].Null? then i + 1 else i)
    ensures FirstNonNull(values[..i]) < i ==> FirstNonNull(values) == FirstNonNull(values[..i])
  {
    var j := FirstNonNull(values[..i]);
    var j' := FirstNonNull(values[..i + 1]);
    if j < i {
      assert values[..i][j] == values[..i + 1][j] == values[j];
      assert forall m :: 0 <= m < i ==> values[..i + 1][m] == values[..i][m] == values[m];
    } else {
      assert forall m :: 0 <= m < i ==> values[..i + 1][m] == values[..i][m];
    }
  }

  /**
   * The generalization entries a preset's values leave behind: the first
   * non-null value is the key, and every later value is written under it,
   * so the last one stays. An array as the key is an illegal offset.
   */
  function GeneralizationOf(rawGeneralizations: Arr<string, Raw>, values: seq<Raw>): (r: Result<Arr<string, Raw>>)
    ensures |values| <= 1 ==> r == Ok(rawGeneralizations)
    ensures |values| > 1 && values[0].Text? ==> r == Ok(rawGeneralizations.Put(values[0].text, values[|values| - 1]))
  {
    var j := FirstNonNull(values);
    if j + 1 >= |values| then Ok(rawGeneralizations)
    else if values[j].List? then Err(TypeError)
    else Ok(rawGeneralizations.Put(KeyOf(values[j]).value, values[|values| - 1]))
  }

  /** The loop over a preset's values that fills the generalization entries. */
  method Generalize(rawGeneralizations: Arr<string, Raw>, values: seq<Raw>) returns (r: Result<Arr<string, Raw>>)
    ensures r == GeneralizationOf(rawGeneralizations, values)
  {
    var generalizations := rawGeneralizations;
    var generalization: Raw := Raw.Null;
    for i := 0 to |values|
      invariant FirstNonNull(values[..i]) < i ==> generalization == values[FirstNonNull(values[..i])]
      invariant FirstNonNull(values[..i]) == i ==> generalization.Null?
      invariant GeneralizationOf(rawGeneralizations, values[..i]) == Ok(generalizations)
    {
      FirstNonNullGrows(values, i);
      PrefixGrows(values, i);
      if generalization.Null? {
        generalization := values[i];
      } else {
        var key := KeyOf(generalization);
        if key.None? {
          return Err(TypeError);
        }
        PutAgain(rawGeneralizations, key.value, values[..i][i - 1], values[i]);
        generalizations := generalizations.Put(key.value, values[i]);
      }
    }
    return Ok(generalizations);
  }

  /** What a preset contributes: its value, and the last of its values when it has more than one. */
  datatype Filed = Filed(value: DimensionValue, generalization: Option<Raw>)

  /**
   * A preset that is no array or has no `values` is skipped. Otherwise its
   * value is the first of its values, which must be a string, its
   * specialization depth is one less than the number of its values, its
   * constraints are those it sets, and its configuration is the preset
   * without `values`. An empty `values` list is a type error: `reset` gives
   * `false`, which the string-typed dimension value refuses. The depth, -1
   * there, is built first; the model assumes its class accepts it.
   */
  function PresetOf(preset: Raw): (r: Result<Option<Filed>>)
    ensures r == Ok(None) <==> !preset.List? || "values" !in preset.entries.items
    ensures r.Err? ==> r.failure == TypeError
    ensures r.Ok? && r.value.Some? ==> preset.List? && "values" in preset.entries.items && preset.entries.items["values"].List?
    ensures r.Ok? && r.value.Some? && preset.List? && "values" in preset.entries.items && preset.entries.items["values"].List? ==>
      var values := preset.entries.items["values"].entries.Values();
      && values != [] && values[0] == Raw.Text(r.value.value.value.value)
      && r.value.value.value.specializationDepth == |values| - 1
      && r.value.value.value.configuration == preset.entries.Unset("values")
      && (r.value.value.generalization.Some? <==> |values| > 1)
      && (|values| > 1 ==> r.value.value.generalization.value == values[|values| - 1])
  {
    if !preset.List? || "values" !in preset.entries.items then Ok(None)
    else
      var values := preset.entries.items["values"];
      if !values.List? || values.entries.Values() == [] || !values.entries.Values()[0].Text? then Err(TypeError)
      else
        var vs := values.entries.Values();
        var constraints :=
          if Isset(preset, "constraints") && !IsEmpty(preset.entries.items["constraints"])
          then ConstraintsFrom(Elements(preset.entries.items["constraints"]))
          else Ok(Empty());
        if constraints.Err? then Err(constraints.failure)
        else
          var value := DimensionValue(vs[0].text, |vs| - 1, constraints.value, preset.entries.Unset("values"));
          Ok(Some(Filed(value, if |vs| > 1 then Some(vs[|vs| - 1]) else None)))
  }

  /** The values filed so far and the generalization entries left so far. */
  type Filing = (Arr<string, DimensionValue>, Arr<string, Raw>)

  /** One preset filed: its value under its own name, its last value under its first. */
  function FileStep(filing: Filing, preset: Raw): Result<Filing> {
    match PresetOf(preset)
    case Err(f) => Err(f)
    case Ok(None) => Ok(filing)
    case Ok(Some(filed)) =>
      Ok((filing.0.Put(filed.value.value, filed.value),
          if filed.generalization.Some? then filing.1.Put(filed.value.value, filed.generalization.value) else filing.1))
  }

  /** The presets filed in turn; the first that fails ends them. */
  function FiledFrom(presets: seq<Raw>): (r: Result<Filing>)
    ensures r.Err? <==> exists i :: 0 <= i < |presets| && PresetOf(presets[i]).Err?
    ensures r.Err? ==> r.failure == TypeError
    ensures r.Ok? ==> forall k :: k in r.value.0.items ==> r.value.0.items[k].value == k
    ensures r.Ok? ==> forall k :: k in r.value.1.items ==> k in r.value.0.items
    decreases |presets|
  {
    if presets == [] then Ok((Empty(), Empty()))
    else
      var init := FiledFrom(presets[..|presets| - 1]);
      assert forall i :: 0 <= i < |presets| - 1 ==> presets[..|presets| - 1][i] == presets[i];
      if init.Err? then init else FileStep(init.value, presets[|presets| - 1])
  }

  /** Files one preset, in the order of the source's statements. */
  method FilePreset(filing: Filing, preset: Raw) returns (r: Result<Filing>)
    ensures r == FileStep(filing, preset)
  {
    if !preset.List? || "values" !in preset.entries.items {
      return Ok(filing);
    }
    var values := preset.entries.items["values"];
    if !values.List? {
      return Err(TypeError);
    }
    var vs := values.entries.Values();
    var rawGeneralizations := filing.1;
    if |vs| > 1 {
      var generalized := Generalize(rawGeneralizations, vs);
      if generalized.Err? {
        return Err(TypeError);
      }
      rawGeneralizations := generalized.value;
    }
    var constraints: Arr<string, Constraints> := Empty();
    if Isset(preset, "constraints") && !IsEmpty(preset.entries.items["constraints"]) {
      var built := BuildConstraints(Elements(preset.entries.items["constraints"]));
      if built.Err? {
        return Err(built.failure);
      }
      constraints := built.value;
    }
    if vs == [] || !vs[0].Text? {
      return Err(TypeError);
    }
    var value := DimensionValue(vs[0].text, |vs| - 1, constraints, preset.entries.Unset("values"));
    return Ok((filing.0.Put(vs[0].text, value), rawGeneralizations));
  }

  /** Files the presets in turn. */
  method FileValues(presets: seq<Raw>) returns (r: Result<Filing>)
    ensures r == FiledFrom(presets)
  {
    var filing: Filing := (Empty(), Empty());
    for i := 0 to |presets|
      invariant FiledFrom(presets[..i]) == Ok(filing)
    {
      PrefixGrows(presets, i);
      var filed := FilePreset(filing, presets[i]);
      if filed.Err? {
        return filed;
      }
      filing := filed.value;
    }
    assert presets[..|presets|] == presets;
    return Ok(filing);
  }

  /** What a preset files, or nothing when it is skipped or fails. */
  function ContributionOf(preset: Raw): Option<Filed> {
    var r := PresetOf(preset);
    if r.Ok? then r.value else None
  }

  /** The preset files a value under the name `k`. */
  predicate Names(preset: Raw, k: string) {
    ContributionOf(preset).Some? && ContributionOf(preset).value.value.value == k
  }

  /** One preset filed adds exactly the name it files, and a generalization entry when it has one. */
  lemma FileStepHas(filing: Filing, preset: Raw, k: string)
    requires FileStep(filing, preset).Ok?
    ensures k in FileStep(filing, preset).value.0.items <==> k in filing.0.items || Names(preset, k)
    ensures k in FileStep(filing, preset).value.1.items <==>
      k in filing.1.items || (Names(preset, k) && ContributionOf(preset).value.generalization.Some?)
  {
  }

  /** A name is filed exactly when some preset's first value is that name. */
  lemma {:induction false} FiledFromHas(presets: seq<Raw>, k: string)
    requires FiledFrom(presets).Ok?
    ensures k in FiledFrom(presets).value.0.items <==> exists i :: 0 <= i < |presets| && Names(presets[i], k)
    decreases |presets|
  {
    if presets != [] {
      var init := presets[..|presets| - 1];
      var last := presets[|presets| - 1];
      assert forall i :: 0 <= i < |init| ==> init[i] == presets[i];
      assert FiledFrom(init).Ok?;
      FiledFromHas(init, k);
      FileStepHas(FiledFrom(init).value, last, k);
      assert FiledFrom(presets) == FileStep(FiledFrom(init).value, last);
      if exists i :: 0 <= i < |presets| && Names(presets[i], k) {
        var i :| 0 <= i < |presets| && Names(presets[i], k);
        if i < |init| {
          assert Names(init[i], k);
        }
      }
    }
  }

  /** A name has a generalization entry exactly when some preset naming it has more than one value. */
  lemma {:induction false} FiledFromHasGeneralization(presets: seq<Raw>, k: string)
    requires FiledFrom(presets).Ok?
    ensures k in FiledFrom(presets).value.1.items <==>
      exists i :: 0 <= i < |presets| && Names(presets[i], k) && ContributionOf(presets[i]).value.generalization.Some?
    decreases |presets|
  {
    if presets != [] {
      var init := presets[..|presets| - 1];
      var last := presets[|presets| - 1];
      assert forall i :: 0 <= i < |init| ==> init[i] == presets[i];
      assert FiledFrom(init).Ok?;
      FiledFromHasGeneralization(init, k);
      FileStepHas(FiledFrom(init).value, last, k);
      assert FiledFrom(presets) == FileStep(FiledFrom(init).value, last);
      if exists i :: 0 <= i < |presets| && Names(presets[i], k) && ContributionOf(presets[i]).value.generalization.Some? {
        var i :| 0 <= i < |presets| && Names(presets[i], k) && ContributionOf(presets[i]).value.generalization.Some?;
        if i < |init| {
          assert Names(init[i], k) && ContributionOf(init[i]).value.generalization.Some?;
        }
      }
    }
  }

  /** The last preset that files a name decides its value. */
  lemma {:induction false} FiledFromLastWins(presets: seq<Raw>, i: nat)
    requires FiledFrom(presets).Ok?
    requires i < |presets| && ContributionOf(presets[i]).Some?
    requires forall j :: i < j < |presets| ==> !Names(presets[j], ContributionOf(presets[i]).value.value.value)
    ensures FiledFrom(presets).value.0.Get(ContributionOf(presets[i]).value.value.value) == Some(ContributionOf(presets[i]).value.value)
    decreases |presets|
  {
    if i < |presets| - 1 {
      var init := presets[..|presets| - 1];
      assert init[i] == presets[i];
      forall j | i < j < |init|
        ensures !Names(init[j], ContributionOf(init[i]).value.value.value)
      {
        assert init[j] == presets[j];
      }
      FiledFromLastWins(init, i);
    }
  }

  /**
   * The last preset that files a name with more than one value decides the
   * name's generalization entry; a later preset with a single value leaves
   * it alone.
   */
  lemma {:induction false} FiledFromLastGeneralizationWins(presets: seq<Raw>, i: nat)
    requires FiledFrom(presets).Ok?
    requires i < |presets| && ContributionOf(presets[i]).Some? && ContributionOf(presets[i]).value.generalization.Some?
    requires forall j :: i < j < |presets| && Names(presets[j], ContributionOf(presets[i]).value.value.value) ==>
      ContributionOf(presets[j]).value.generalization.None?
    ensures FiledFrom(presets).value.1.Get(ContributionOf(presets[i]).value.value.value) == ContributionOf(presets[i]).value.generalization
    decreases |presets|
  {
    if i < |presets| - 1 {
      var init := presets[..|presets| - 1];
      assert init[i] == presets[i];
      forall j | i < j < |init| && Names(init[j], ContributionOf(init[i]).value.value.value)
        ensures ContributionOf(init[j]).value.generalization.None?
      {
        assert init[j] == presets[j];
      }
      FiledFromLastGeneralizationWins(init, i);
    }
  }

  /** The generalization entries as links from value to value. */
  function Links(rawGeneralizations: Arr<string, Raw>): seq<(string, Option<string>)> {
    seq(|rawGeneralizations.Entries()|, i requires 0 <= i < |rawGeneralizations.Entries()| =>
      (rawGeneralizations.Entries()[i].0, KeyOf(rawGeneralizations.Entries()[i].1)))
  }

  /** The presets of a dimension configuration, as `foreach` visits them. */
  function PresetsOf(configuration: Raw): seq<Raw>
    requires configuration.List? && "presets" in configuration.entries.items
  {
    var elements := Elements(configuration.entries.items["presets"]);
    seq(|elements|, i requires 0 <= i < |elements| => elements[i].1)
  }

  /**
   * The dimension one configuration entry describes: its presets must be
   * set and not empty, its default must name a filed value, and its
   * configuration keeps every key but `default`, `defaultPreset` and
   * `presets`.
   */
  function DimensionOf(identifier: string, configuration: Raw): (r: Result<ContentDimension>)
    ensures r == Err(VALUES_ARE_MISSING) <==>
      !Isset(configuration, "presets") || IsEmpty(configuration.entries.items["presets"])
    ensures r == Err(DEFAULT_VALUE_IS_MISSING) <==>
      && Isset(configuration, "presets") && !IsEmpty(configuration.entries.items["presets"])
      && FiledFrom(PresetsOf(configuration)).Ok?
      && (|| !Isset(configuration, "default")
          || (var key := KeyOf(configuration.entries.items["default"]);
              key.Some? && key.value !in FiledFrom(PresetsOf(configuration)).value.0.items))
    ensures r.Ok? ==>
      && Isset(configuration, "presets") && Isset(configuration, "default")
      && var filed := FiledFrom(PresetsOf(configuration));
         var key := KeyOf(configuration.entries.items["default"]);
      && filed.Ok? && key.Some? && key.value in filed.value.0.items
      && r.value.values == filed.value.0
      && r.value.defaultValue == filed.value.0.items[key.value]
      && VariationEdges(filed.value.0, Links(filed.value.1)) == Ok(r.value.variationEdges)
    ensures r.Ok? ==>
      && r.value.identifier == identifier
      && r.value.defaultValue in r.value.values.items.Values
      && r.value.configuration.items == configuration.entries.items - {"default", "defaultPreset", "presets"}
      && (forall k :: k in r.value.values.items ==> r.value.values.items[k].value == k)
  {
    if !Isset(configuration, "presets") || IsEmpty(configuration.entries.items["presets"]) then Err(VALUES_ARE_MISSING)
    else
      var filed := FiledFrom(PresetsOf(configuration));
      if filed.Err? then Err(filed.failure)
      else
        var (values, rawGeneralizations) := filed.value;
        if !Isset(configuration, "default") then Err(DEFAULT_VALUE_IS_MISSING)
        else
          var key := KeyOf(configuration.entries.items["default"]);
          if key.None? then Err(TypeError)
          else if key.value !in values.items then Err(DEFAULT_VALUE_IS_MISSING)
          else
            var edges := VariationEdges(values, Links(rawGeneralizations));
            if edges.Err? then Err(edges.failure)
            else
              Ok(ContentDimension(identifier, values, values.items[key.value], edges.value,
                 configuration.entries.Unset("default").Unset("defaultPreset").Unset("presets")))
  }

  /**
   * Each value of a built dimension is the one the last preset naming it
   * describes: its first value, depth, constraints and configuration.
   */
  lemma BuiltValueIsLastPresets(identifier: string, configuration: Raw, i: nat)
    requires DimensionOf(identifier, configuration).Ok?
    requires Isset(configuration, "presets") && i < |PresetsOf(configuration)|
    requires ContributionOf(PresetsOf(configuration)[i]).Some?
    requires forall j :: i < j < |PresetsOf(configuration)| ==>
      !Names(PresetsOf(configuration)[j], ContributionOf(PresetsOf(configuration)[i]).value.value.value)
    ensures DimensionOf(identifier, configuration).value.values.Get(ContributionOf(PresetsOf(configuration)[i]).value.value.value)
      == Some(ContributionOf(PresetsOf(configuration)[i]).value.value)
  {
    FiledFromLastWins(PresetsOf(configuration), i);
  }

  /** Builds one dimension. */
  method BuildDimension(identifier: string, configuration: Raw) returns (r: Result<ContentDimension>)
    ensures r == DimensionOf(identifier, configuration)
  {
    if !Isset(configuration, "presets") || IsEmpty(configuration.entries.items["presets"]) {
      return Err(VALUES_ARE_MISSING);
    }
    var filed := FileValues(PresetsOf(configuration));
    if filed.Err? {
      return Err(filed.failure);
    }
    var (values, rawGeneralizations) := filed.value;
    if !Isset(configuration, "default") {
      return Err(DEFAULT_VALUE_IS_MISSING);
    }
    var key := KeyOf(configuration.entries.items["default"]);
    if key.None? {
      return Err(TypeError);
    }
    if key.value !in values.items {
      return Err(DEFAULT_VALUE_IS_MISSING);
    }
    var edges := CreateVariationEdges(values, Links(rawGeneralizations));
    if edges.Err? {
      return Err(edges.failure);
    }
    return Ok(ContentDimension(identifier, values, values.items[key.value], edges.value,
                               configuration.entries.Unset("default").Unset("defaultPreset").Unset("presets")));
  }


  /** Each configuration entry with the dimension it describes, or the failure building it ends in. */
  function Built(entries: seq<(string, Raw)>): (r: seq<(string, Result<ContentDimension>)>)
    ensures |r| == |entries|
    ensures forall i :: 0 <= i < |entries| ==> r[i] == (entries[i].0, DimensionOf(entries[i].0, entries[i].1))
  {
    seq(|entries|, i requires 0 <= i < |entries| => (entries[i].0, DimensionOf(entries[i].0, entries[i].1)))
  }

  /** The dimensions after filing `built` onto `start` in turn, and the failure that ended the filing, if any. */
  function FiledAfter(start: Option<Arr<string, ContentDimension>>, built: seq<(string, Result<ContentDimension>)>)
    : (r: (Option<Arr<string, ContentDimension>>, Option<Failure>))
    ensures r.1.Some? <==> exists i :: 0 <= i < |built| && built[i].1.Err?
    ensures r.1.None? && built != [] ==> r.0.Some?
    decreases |built|
  {
    if built == [] then (start, None)
    else
      var init := FiledAfter(start, built[..|built| - 1]);
      var last := built[|built| - 1];
      assert forall i :: 0 <= i < |built| - 1 ==> built[..|built| - 1][i] == built[i];
      if init.1.Some? then init
      else if last.1.Err? then (init.0, Some(last.1.failure))
      else (Some(init.0.GetOr(Empty()).Put(last.0, last.1.value)), None)
  }

  /** Once an entry has failed, the later ones change nothing. */
  lemma {:induction false} FiledAfterStaysFailed(start: Option<Arr<string, ContentDimension>>, built: seq<(string, Result<ContentDimension>)>, i: nat)
    requires i <= |built|
    requires FiledAfter(start, built[..i]).1.Some?
    ensures FiledAfter(start, built) == FiledAfter(start, built[..i])
    decreases |built|
  {
    if i < |built| {
      var init := built[..|built| - 1];
      assert init[..i] == built[..i];
      FiledAfterStaysFailed(start, init, i);
    } else {
      assert built[..i] == built;
    }
  }

  /**
   * The failure is that of the first entry that fails, and the dimensions
   * are those the entries before it filed.
   */
  lemma FiledAfterFirstFailure(start: Option<Arr<string, ContentDimension>>, built: seq<(string, Result<ContentDimension>)>, j: nat)
    requires j < |built| && built[j].1.Err?
    requires forall i :: 0 <= i < j ==> built[i].1.Ok?
    ensures FiledAfter(start, built).1 == Some(built[j].1.failure)
    ensures FiledAfter(start, built).0 == FiledAfter(start, built[..j]).0
  {
    var prefix := built[..j + 1];
    assert prefix[..j] == built[..j];
    assert forall i :: 0 <= i < j ==> prefix[i] == built[i];
    assert FiledAfter(start, prefix[..j]).1.None?;
    FiledAfterStaysFailed(start, built, j + 1);
  }

  /** Without a failure, a dimension identifier is filed exactly when it was at the start or some entry has it. */
  lemma {:induction false} FiledAfterHas(start: Option<Arr<string, ContentDimension>>, built: seq<(string, Result<ContentDimension>)>, k: string)
    requires FiledAfter(start, built).1.None?
    ensures k in FiledAfter(start, built).0.GetOr(Empty()).items <==>
      k in start.GetOr(Empty()).items || exists i :: 0 <= i < |built| && built[i].0 == k
    decreases |built|
  {
    if built != [] {
      var init := built[..|built| - 1];
      FiledAfterHas(start, init, k);
      assert forall i :: 0 <= i < |init| ==> init[i] == built[i];
      if exists i :: 0 <= i < |built| && built[i].0 == k {
        var i :| 0 <= i < |built| && built[i].0 == k;
        if i < |init| {
          assert init[i] == built[i];
        }
      }
    }
  }

  /** Without a failure, the dimension under an identifier is the one its last entry describes. */
  lemma {:induction false} FiledAfterLastWins(start: Option<Arr<string, ContentDimension>>, built: seq<(string, Result<ContentDimension>)>, j: nat)
    requires FiledAfter(start, built).1.None?
    requires j < |built|
    requires forall l :: j < l < |built| ==> built[l].0 != built[j].0
    ensures FiledAfter(start, built).0.Some?
    ensures FiledAfter(start, built).0.value.Get(built[j].0) == Some(built[j].1.value)
    decreases |built|
  {
    if j < |built| - 1 {
      var init := built[..|built| - 1];
      assert init[j] == built[j];
      forall l | j < l < |init|
        ensures init[l].0 != init[j].0
      {
        assert init[l] == built[l];
      }
      FiledAfterLastWins(start, init, j);
    }
  }

  /** Filed from nothing, the dimensions are in the order of their entries: that order is their priority. */
  lemma {:induction false} FiledAfterOrder(built: seq<(string, Result<ContentDimension>)>)
    requires built != []
    requires FiledAfter(None, built).1.None?
    requires forall i, l :: 0 <= i < l < |built| ==> built[i].0 != built[l].0
    ensures FiledAfter(None, built).0.value.order == seq(|built|, i requires 0 <= i < |built| => built[i].0)
    decreases |built|
  {
    var init := built[..|built| - 1];
    var last := built[|built| - 1];
    assert forall i :: 0 <= i < |init| ==> init[i] == built[i];
    if init != [] {
      FiledAfterOrder(init);
      FiledAfterHas(None, init, last.0);
    }
  }

  /** What `getContentDimensionsOrderedByPriority` returns after building: null is refused by its `array` return type. */
  function Served(after: (Option<Arr<string, ContentDimension>>, Option<Failure>)): (r: Result<Arr<string, ContentDimension>>)
    ensures r.Ok? <==> after.1.None? && after.0.Some?
    ensures r.Ok? ==> r.value == after.0.value
    ensures after.1.Some? ==> r == Err(after.1.value)
  {
    if after.1.Some? then Err(after.1.value)
    else if after.0.None? then Err(TypeError)
    else Ok(after.0.value)
  }

  /** The dimensions a source holds once a getter has run: the ones it had, or else those it builds. */
  function InitializedFrom(dimensions: Option<Arr<string, ContentDimension>>, rawDimensionConfiguration: Arr<string, Raw>): Option<Arr<string, ContentDimension>> {
    if dimensions.Some? then dimensions else FiledAfter(None, Built(rawDimensionConfiguration.Entries())).0
  }

  /** What `getContentDimensionsOrderedByPriority` returns: the dimensions a source has, or else what building them gives. */
  function ServedFrom(dimensions: Option<Arr<string, ContentDimension>>, rawDimensionConfiguration: Arr<string, Raw>): (r: Result<Arr<string, ContentDimension>>)
    ensures dimensions.Some? ==> r == Ok(dimensions.value)
    ensures dimensions.None? ==> r == Served(FiledAfter(None, Built(rawDimensionConfiguration.Entries())))
  {
    if dimensions.Some? then Ok(dimensions.value) else Served(FiledAfter(None, Built(rawDimensionConfiguration.Entries())))
  }

  class LegacyConfigurationBasedContentDimensionSource {
    /** the dimensions built so far, filed by identifier; null until the first is filed */
    var dimensions: Option<Arr<string, ContentDimension>>
    /** dimension identifier to dimension configuration */
    const rawDimensionConfiguration: Arr<string, Raw>

    /** `$dimensions` starts as `[]`, as the class declares it. */
    constructor AsWritten(rawDimensionConfiguration: Arr<string, Raw>)
      ensures this.rawDimensionConfiguration == rawDimensionConfiguration
      ensures dimensions == Some(Empty())
    {
      this.rawDimensionConfiguration := rawDimensionConfiguration;
      dimensions := Some(Empty());
    }

    /** `$dimensions` starts as null, which the getters' `is_null` checks look for. */
    constructor(rawDimensionConfiguration: Arr<string, Raw>)
      ensures this.rawDimensionConfiguration == rawDimensionConfiguration
      ensures dimensions == None
    {
      this.rawDimensionConfiguration := rawDimensionConfiguration;
      dimensions := None;
    }

    /** Builds and files the dimensions entry by entry; a failure leaves those filed before it. */
    method InitializeDimensions() returns (failure: Option<Failure>)
      modifies this`dimensions
      ensures (dimensions, failure) == FiledAfter(old(dimensions), Built(rawDimensionConfiguration.Entries()))
    {
      var entries := rawDimensionConfiguration.Entries();
      for i := 0 to |entries|
        invariant FiledAfter(old(dimensions), Built(entries)[..i]) == (dimensions, None)
      {
        PrefixGrows(Built(entries), i);
        var (identifier, configuration) := entries[i];
        var built := BuildDimension(identifier, configuration);
        if built.Err? {
          FiledAfterStaysFailed(old(dimensions), Built(entries), i + 1);
          return Some(built.failure);
        }
        dimensions := Some(dimensions.GetOr(Empty()).Put(identifier, built.value));
      }
      assert Built(entries)[..|entries|] == Built(entries);
      return None;
    }

    /** The dimension under `identifier`, building the dimensions first while there are none. */
    method GetDimension(identifier: string) returns (r: Result<Option<ContentDimension>>)
      modifies this`dimensions
      ensures old(dimensions).Some? ==> dimensions == old(dimensions) && r == Ok(old(dimensions).value.Get(identifier))
      ensures old(dimensions).None? ==>
        var after := FiledAfter(None, Built(rawDimensionConfiguration.Entries()));
        && dimensions == after.0
        && r == (if after.1.Some? then Err(after.1.value) else Ok(if after.0.Some? then after.0.value.Get(identifier) else None))
    {
      if dimensions.None? {
        var failure := InitializeDimensions();
        if failure.Some? {
          return Err(failure.value);
        }
      }
      return Ok(if dimensions.Some? then dimensions.value.Get(identifier) else None);
    }

    /** All dimensions in priority order, building them first while there are none. */
    method GetContentDimensionsOrderedByPriority() returns (r: Result<Arr<string, ContentDimension>>)
      modifies this`dimensions
      ensures dimensions == InitializedFrom(old(dimensions), rawDimensionConfiguration)
      ensures r == ServedFrom(old(dimensions), rawDimensionConfiguration)
    {
      if dimensions.None? {
        var failure := InitializeDimensions();
        if failure.Some? {
          return Err(failure.value);
        }
      }
      if dimensions.None? {
        return Err(TypeError);
      }
      return Ok(dimensions.value);
    }
  }

  /**
   * As the class is written, no configuration ever reaches the getters:
   * both see the initial `[]`, whatever the configuration describes.
   */
  method AsWrittenServesNothing(rawDimensionConfiguration: Arr<string, Raw>, identifier: string)
    returns (all: Result<Arr<string, ContentDimension>>, one: Result<Option<ContentDimension>>)
    ensures all == Ok(Empty()) && one == Ok(None)
  {
    var source := new LegacyConfigurationBasedContentDimensionSource.AsWritten(rawDimensionConfiguration);
    all := source.GetContentDimensionsOrderedByPriority();
    one := source.GetDimension(identifier);
  }

  /** A one-dimension configuration: `language`, with the single preset `en` and default `en`. */
  function LanguageConfiguration(): Arr<string, Raw> {
    var values := PhpArray(["0"], map["0" := Raw.Text("en")]);
    var preset := PhpArray(["values"], map["values" := Raw.List(values)]);
    var presets := PhpArray(["en"], map["en" := Raw.List(preset)]);
    var language := PhpArray(["default", "presets"], map["default" := Raw.Text("en"), "presets" := Raw.List(presets)]);
    PhpArray(["language"], map["language" := Raw.List(language)])
  }

  /** That configuration describes a dimension, which the class as written never serves. */
  lemma LanguageConfigurationBuilds()
    ensures DimensionOf("language", LanguageConfiguration().items["language"]).Ok?
    ensures FiledAfter(None, Built(LanguageConfiguration().Entries())).0.Some?
  {
    var configuration := LanguageConfiguration().items["language"];
    var presets := PresetsOf(configuration);
    assert presets == [configuration.entries.items["presets"].entries.items["en"]];
    assert FiledFrom(presets).Ok?;
    assert LanguageConfiguration().Entries() == [("language", configuration)];
  }

  /**
   * With `$dimensions` starting as null, the first call to either getter
   * builds every configured dimension.
   */
  method OnFirstUseServesConfiguration(rawDimensionConfiguration: Arr<string, Raw>)
    returns (all: Result<Arr<string, ContentDimension>>)
    ensures all == Served(FiledAfter(None, Built(rawDimensionConfiguration.Entries())))
  {
    var source := new LegacyConfigurationBasedContentDimensionSource(rawDimensionConfiguration);
    all := source.GetContentDimensionsOrderedByPriority();
  }

  /** When no entry fails, each key listed once is filed, in the order of the entries, with its own dimension. */
  lemma FiledAfterComplete(built: seq<(string, Result<ContentDimension>)>, order: seq<string>)
    requires order != [] && |built| == |order| && Distinct(order)
    requires forall i :: 0 <= i < |built| ==> built[i].0 == order[i] && built[i].1.Ok?
    ensures FiledAfter(None, built).1.None? && FiledAfter(None, built).0.Some?
    ensures FiledAfter(None, built).0.value.order == order
    ensures forall j :: 0 <= j < |order| ==> FiledAfter(None, built).0.value.Get(order[j]) == Some(built[j].1.value)
  {
    FiledAfterOrder(built);
    assert seq(|built|, i requires 0 <= i < |built| => built[i].0) == order;
    forall j | 0 <= j < |order|
      ensures FiledAfter(None, built).0.value.Get(order[j]) == Some(built[j].1.value)
    {
      FiledAfterLastWins(None, built, j);
    }
  }

  /**
   * When every entry of a non-empty configuration describes a dimension,
   * the dimensions served are exactly those, in configuration order.
   */
  lemma ConfiguredDimensionsServed(rawDimensionConfiguration: Arr<string, Raw>, identifier: string)
    requires rawDimensionConfiguration.Valid() && rawDimensionConfiguration.order != []
    requires forall k :: k in rawDimensionConfiguration.items ==> DimensionOf(k, rawDimensionConfiguration.items[k]).Ok?
    ensures Served(FiledAfter(None, Built(rawDimensionConfiguration.Entries()))).Ok?
    ensures Served(FiledAfter(None, Built(rawDimensionConfiguration.Entries()))).value.order == rawDimensionConfiguration.order
    ensures identifier in rawDimensionConfiguration.items ==>
      Served(FiledAfter(None, Built(rawDimensionConfiguration.Entries()))).value.Get(identifier)
        == Some(DimensionOf(identifier, rawDimensionConfiguration.items[identifier]).value)
  {
    var order := rawDimensionConfiguration.order;
    var items := rawDimensionConfiguration.items;
    EntriesOfListed(order, items);
    var built := Built(rawDimensionConfiguration.Entries());
    forall i | 0 <= i < |built|
      ensures built[i].0 == order[i] && built[i].1.Ok?
    {
      assert built[i] == (order[i], DimensionOf(order[i], items[order[i]]));
    }
    FiledAfterComplete(built, order);
    if identifier in items {
      var j :| 0 <= j < |order| && order[j] == identifier;
      assert built[j].1 == DimensionOf(identifier, items[identifier]);
    }
  }
}
