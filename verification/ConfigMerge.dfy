/** Layered configuration: tables merge key by key, everything else is replaced by the later layer. */
module ConfigMerge {
  import opened Options
  import opened Json

  type Table = map<string, Value>

  /** `deep_merge` on values: two tables merge, otherwise the overlay wins. */
  function Merge(base: Value, overlay: Value): (merged: Value)
    ensures base.Object? && overlay.Object? ==>
      merged.Object? && merged.fields.Keys == base.fields.Keys + overlay.fields.Keys
    decreases overlay
  {
    if !base.Object? || !overlay.Object? then overlay
    else
      Object(map k | k in base.fields.Keys + overlay.fields.Keys ::
               if k !in overlay.fields then base.fields[k]
               else if k !in base.fields then overlay.fields[k]
               else Merge(base.fields[k], overlay.fields[k]))
  }

  method DeepMerge(base: Table, overlay: Table) returns (merged: Table)
    ensures Object(merged) == Merge(Object(base), Object(overlay))
    decreases Object(overlay)
  {
    merged := base;
    var keys := overlay.Keys;
    while keys != {}
      invariant keys <= overlay.Keys && merged.Keys == base.Keys + (overlay.Keys - keys)
      invariant forall k :: k in base && (k in keys || k !in overlay) ==> merged[k] == base[k]
      invariant forall k :: k in overlay && k !in keys ==>
        merged[k] == if k in base then Merge(base[k], overlay[k]) else overlay[k]
      decreases keys
    {
      var key :| key in keys;
      keys := keys - {key};
      if key in merged && merged[key].Object? && overlay[key].Object? {
        var inner := DeepMerge(merged[key].fields, overlay[key].fields);
        merged := merged[key := Object(inner)];
      } else {
        merged := merged[key := overlay[key]];
      }
    }
  }

  // ---- laws -------------------------------------------------------------------------------------

  const EMPTY := Object(map[])

  lemma EmptyIsIdentity(v: Value)
    requires v.Object?
    ensures Merge(v, EMPTY) == v && Merge(EMPTY, v) == v
  {
    assert Merge(v, EMPTY).fields == v.fields;
    assert Merge(EMPTY, v).fields == v.fields;
  }

  /** The overlay has a value for every key of the base, all the way down their common tables. */
  predicate Covers(base: Value, overlay: Value)
    decreases overlay
  {
    base.Object? && overlay.Object? ==>
      forall k :: k in base.fields ==> k in overlay.fields && Covers(base.fields[k], overlay.fields[k])
  }

  /** Merging is absorbed exactly by an overlay that covers the base. */
  lemma {:induction false} CoveredIsAbsorbed(base: Value, overlay: Value)
    ensures Merge(base, overlay) == overlay <==> Covers(base, overlay)
    decreases overlay
  {
    if base.Object? && overlay.Object? {
      var merged := Merge(base, overlay);
      forall k | k in base.fields && k in overlay.fields
        ensures merged.fields[k] == overlay.fields[k] <==> Covers(base.fields[k], overlay.fields[k])
      {
        CoveredIsAbsorbed(base.fields[k], overlay.fields[k]);
      }
      if Covers(base, overlay) {
        assert merged.fields == overlay.fields;
      }
    }
  }

  lemma {:induction false} CoversItself(v: Value)
    ensures Covers(v, v)
  {
    if v.Object? {
      forall k | k in v.fields
        ensures Covers(v.fields[k], v.fields[k])
      {
        CoversItself(v.fields[k]);
      }
    }
  }

  /** Merging a table with itself changes nothing. */
  lemma MergeIsIdempotent(v: Value)
    ensures Merge(v, v) == v
  {
    CoversItself(v);
    CoveredIsAbsorbed(v, v);
  }

  /** Applying the same overlay again changes nothing. */
  lemma {:induction false} RepeatIsAbsorbed(base: Value, overlay: Value)
    ensures Merge(Merge(base, overlay), overlay) == Merge(base, overlay)
    decreases overlay
  {
    if base.Object? && overlay.Object? {
      var once := Merge(base, overlay);
      var twice := Merge(once, overlay);
      forall k | k in once.fields
        ensures twice.fields[k] == once.fields[k]
      {
        if k in overlay.fields {
          if k in base.fields {
            RepeatIsAbsorbed(base.fields[k], overlay.fields[k]);
          } else {
            MergeIsIdempotent(overlay.fields[k]);
          }
        }
      }
      assert twice.fields == once.fields;
    } else {
      MergeIsIdempotent(overlay);
    }
  }

  // ---- lookup along a path ----------------------------------------------------------------------

  type Path = seq<string>

  function At(v: Value, path: Path): Option<Value> {
    if path == [] then Some(v)
    else if v.Object? && path[0] in v.fields then At(v.fields[path[0]], path[1..])
    else None
  }

  /** Something that is not a table sits above the end of the path. */
  predicate Blocks(v: Value, path: Path) {
    path != [] && (!v.Object? || (path[0] in v.fields && Blocks(v.fields[path[0]], path[1..])))
  }

  /** The layer says nothing about the path. */
  predicate Silent(v: Value, path: Path) {
    At(v, path).None? && !Blocks(v, path)
  }

  /** The lookup law: where the overlay has something it wins, except that two tables merge; where it has
      nothing the base shows through, unless the overlay put a non-table above. */
  lemma {:induction false} MergeAt(base: Value, overlay: Value, path: Path)
    ensures var b, o := At(base, path), At(overlay, path);
      At(Merge(base, overlay), path) ==
        if o.Some? then (if b.Some? then Some(Merge(b.value, o.value)) else o)
        else if Blocks(overlay, path) then None
        else b
    decreases path
  {
    if path != [] && base.Object? && overlay.Object? {
      var k := path[0];
      if k in base.fields && k in overlay.fields {
        MergeAt(base.fields[k], overlay.fields[k], path[1..]);
      }
    }
  }

  /** Hence a non-table is found at a path exactly when the overlay has it there, or the base has it and the
      overlay is silent. */
  lemma MergedLeaf(base: Value, overlay: Value, path: Path, leaf: Value)
    requires !leaf.Object?
    ensures At(Merge(base, overlay), path) == Some(leaf) <==>
      At(overlay, path) == Some(leaf) || (Silent(overlay, path) && At(base, path) == Some(leaf))
  {
    MergeAt(base, overlay, path);
  }

  // ---- associativity ----------------------------------------------------------------------------

  /** Where the middle layer puts a non-table between two tables, the last covers the first. */
  predicate Smooth(a: Value, b: Value, c: Value)
    decreases c
  {
    a.Object? && c.Object? ==>
      if !b.Object? then Covers(a, c)
      else forall k :: k in a.fields && k in b.fields && k in c.fields ==> Smooth(a.fields[k], b.fields[k], c.fields[k])
  }

  /** Merging is associative exactly on such layers; it is in particular when the middle layer has no
      non-table where both others have tables. */
  lemma {:induction false} MergeAssociates(a: Value, b: Value, c: Value)
    ensures Merge(Merge(a, b), c) == Merge(a, Merge(b, c)) <==> Smooth(a, b, c)
    decreases c
  {
    if !c.Object? || !a.Object? {
    } else if !b.Object? {
      CoveredIsAbsorbed(a, c);
    } else {
      var left, right := Merge(Merge(a, b), c), Merge(a, Merge(b, c));
      forall k | k in left.fields
        ensures left.fields[k] == right.fields[k] <==>
          (k in a.fields && k in b.fields && k in c.fields ==> Smooth(a.fields[k], b.fields[k], c.fields[k]))
      {
        if k in a.fields && k in b.fields && k in c.fields {
          MergeAssociates(a.fields[k], b.fields[k], c.fields[k]);
        }
      }
      assert left.fields.Keys == right.fields.Keys;
      if Smooth(a, b, c) {
        assert left.fields == right.fields;
      }
    }
  }

  predicate NoLeafBetween(a: Value, b: Value, c: Value)
    decreases c
  {
    a.Object? && c.Object? ==>
      b.Object? &&
      forall k :: k in a.fields && k in b.fields && k in c.fields ==>
        NoLeafBetween(a.fields[k], b.fields[k], c.fields[k])
  }

  lemma {:induction false} NoLeafBetweenAssociates(a: Value, b: Value, c: Value)
    requires NoLeafBetween(a, b, c)
    ensures Smooth(a, b, c) && Merge(Merge(a, b), c) == Merge(a, Merge(b, c))
    decreases c
  {
    if a.Object? && c.Object? {
      forall k | k in a.fields && k in b.fields && k in c.fields
        ensures Smooth(a.fields[k], b.fields[k], c.fields[k])
      {
        NoLeafBetweenAssociates(a.fields[k], b.fields[k], c.fields[k]);
      }
    }
    MergeAssociates(a, b, c);
  }

  // ---- the layers of a document -----------------------------------------------------------------

  /** A profile or an environment: overlays by pipeline name. */
  type Scope = map<string, Table>

  datatype Document = Document(
    performance: Option<Table>, pipelines: map<string, Table>,
    defaultPipeline: Option<string>, defaultProfile: Option<string>, defaultEnvironment: Option<string>,
    profiles: map<string, Scope>, environments: map<string, Scope>)

  datatype Result<T> = Ok(value: T) | Error(message: string)

  /** An explicit name is stripped and must not be blank; a default is taken as it stands. */
  function SelectOptional(given: Option<string>, default': Option<string>, strip: string -> string)
    : Result<Option<string>>
  {
    if given.None? then Ok(default')
    else if strip(given.value) == "" then Error("Selector values cannot be empty.")
    else Ok(Some(strip(given.value)))
  }

  function SelectPipeline(given: Option<string>, doc: Document, strip: string -> string): Result<string> {
    match SelectOptional(given, doc.defaultPipeline, strip)
    case Error(e) => Error(e)
    case Ok(Some(name)) => Ok(name)
    case Ok(None) =>
      if |doc.pipelines| == 1 then OnlyName(doc.pipelines) else Error("Config defines multiple pipelines.")
  }

  lemma OneKey(s: set<string>, x: string, y: string)
    requires |s| == 1 && x in s && y in s
    ensures x == y
  {
    assert |s - {x}| == 0;
    assert y !in s - {x};
  }

  function OnlyName(pipelines: map<string, Table>): Result<string>
    requires |pipelines| == 1
  {
    assert |pipelines.Keys| == 1;
    assert exists name :: name in pipelines.Keys by { var n :| n in pipelines.Keys; }
    assert forall x, y :: x in pipelines.Keys && y in pipelines.Keys ==> x == y by {
      forall x, y | x in pipelines.Keys && y in pipelines.Keys ensures x == y { OneKey(pipelines.Keys, x, y); }
    }
    var name :| name in pipelines.Keys;
    Ok(name)
  }

  /** What a selected scope has for the pipeline; the empty table where nothing applies. */
  ghost function LayerOf(chosen: Option<string>, scopes: map<string, Scope>, pipeline: string): Value {
    if chosen.Some? && chosen.value in scopes && pipeline in scopes[chosen.value]
    then Object(scopes[chosen.value][pipeline]) else Object(map[])
  }

  method ApplyNamedOverlay(config: Table, selected: Option<string>, scopes: map<string, Scope>, pipeline: string)
    returns (applied: Result<Table>)
    ensures applied.Ok? <==> selected.None? || selected.value in scopes
    ensures applied.Ok? ==> Object(applied.value) == Merge(Object(config), LayerOf(selected, scopes, pipeline))
  {
    EmptyIsIdentity(Object(config));
    if selected.None? {
      return Ok(config);
    }
    if selected.value !in scopes {
      return Error("Unknown overlay name.");
    }
    if pipeline !in scopes[selected.value] {
      return Ok(config);
    }
    var merged := DeepMerge(config, scopes[selected.value][pipeline]);
    return Ok(merged);
  }

  function DocumentDefaults(doc: Document): Value {
    if doc.performance.None? then EMPTY else Object(map["performance" := Object(doc.performance.value)])
  }

  function Layered(defaults: Value, pipeline: Value, profile: Value, environment: Value): Value {
    Merge(Merge(Merge(defaults, pipeline), profile), environment)
  }

  /** What is found at a path comes from the last layer that has it, provided every later layer is silent there:
      environment over profile over pipeline over document defaults. */
  lemma PrecedenceAt(defaults: Value, pipeline: Value, profile: Value, environment: Value, path: Path, leaf: Value)
    requires !leaf.Object?
    ensures At(Layered(defaults, pipeline, profile, environment), path) == Some(leaf) <==>
      || At(environment, path) == Some(leaf)
      || (Silent(environment, path) && At(profile, path) == Some(leaf))
      || (Silent(environment, path) && Silent(profile, path) && At(pipeline, path) == Some(leaf))
      || (Silent(environment, path) && Silent(profile, path) && Silent(pipeline, path)
          && At(defaults, path) == Some(leaf))
  {
    MergedLeaf(Merge(Merge(defaults, pipeline), profile), environment, path, leaf);
    MergedLeaf(Merge(defaults, pipeline), profile, path, leaf);
    MergedLeaf(defaults, pipeline, path, leaf);
    hide At;
    hide Merge;
    hide Silent;
  }

  /** The name that is selected: the given one, stripped, or else the default. */
  ghost function Chosen(given: Option<string>, default': Option<string>, strip: string -> string): Option<string> {
    if given.Some? then Some(strip(given.value)) else default'
  }

  /** A given name must not be blank, and whatever is selected must be there. */
  ghost predicate Selectable(given: Option<string>, default': Option<string>, names: set<string>,
                             strip: string -> string) {
    && (given.Some? ==> strip(given.value) != "" && strip(given.value) in names)
    && (given.None? && default'.Some? ==> default'.value in names)
  }

  ghost function LayersOf(doc: Document, name: string, profile: Option<string>, environment: Option<string>): Value
    requires name in doc.pipelines
  {
    Layered(DocumentDefaults(doc), Object(doc.pipelines[name]), LayerOf(profile, doc.profiles, name),
            LayerOf(environment, doc.environments, name))
  }

  /** The last layer that is not silent on the path has the leaf there. */
  ghost predicate LastSays(layers: seq<Value>, path: Path, leaf: Value) {
    exists i :: 0 <= i < |layers| && At(layers[i], path) == Some(leaf)
      && forall j :: i < j < |layers| ==> Silent(layers[j], path)
  }

  lemma LayerIsTable(chosen: Option<string>, scopes: map<string, Scope>, pipeline: string)
    ensures LayerOf(chosen, scopes, pipeline).Object?
  {
  }

  lemma SelectedIs(given: Option<string>, default': Option<string>, names: set<string>, strip: string -> string)
    ensures var selected := SelectOptional(given, default', strip);
      && (selected.Ok? && (selected.value.None? || selected.value.value in names)
          <==> Selectable(given, default', names, strip))
      && (selected.Ok? ==> selected.value == Chosen(given, default', strip))
  {
  }

  lemma PipelineIs(given: Option<string>, doc: Document, strip: string -> string)
    ensures var name := SelectPipeline(given, doc, strip);
      && (name.Ok? && name.value in doc.pipelines <==>
            Selectable(given, doc.defaultPipeline, doc.pipelines.Keys, strip)
            && (given.None? && doc.defaultPipeline.None? ==> |doc.pipelines| == 1))
      && (name.Ok? && Chosen(given, doc.defaultPipeline, strip).Some? ==>
            name.value == Chosen(given, doc.defaultPipeline, strip).value)
      && (name.Ok? && Chosen(given, doc.defaultPipeline, strip).None? ==> doc.pipelines.Keys == {name.value})
  {
    if given.None? && doc.defaultPipeline.None? && |doc.pipelines| == 1 {
      var name := SelectPipeline(given, doc, strip).value;
      assert |doc.pipelines.Keys| == 1;
      forall other | other in doc.pipelines.Keys
        ensures other == name
      {
        OneKey(doc.pipelines.Keys, other, name);
      }
    }
  }

  /** At every path the resolved document has what its last layer that speaks about the path says, a missing
      pipeline id being its name. */
  lemma ResolvedAt(name: string, defaults: Value, pipeline: Value, profile: Value, environment: Value,
                   path: Path, leaf: Value)
    requires !leaf.Object? && defaults.Object? && pipeline.Object? && profile.Object? && environment.Object?
    ensures var base := Object(map["pipeline_id" := String(name)]);
      At(Merge(base, Layered(defaults, pipeline, profile, environment)), path) == Some(leaf)
      <==> LastSays([base, defaults, pipeline, profile, environment], path, leaf)
  {
    var base, layered := Object(map["pipeline_id" := String(name)]), Layered(defaults, pipeline, profile, environment);
    var layers := [base, defaults, pipeline, profile, environment];
    MergedLeaf(base, layered, path, leaf);
    PrecedenceAt(defaults, pipeline, profile, environment, path, leaf);
    if At(base, path) == Some(leaf) {
      OneKeyDeep(name, path, leaf);
      LayeredSilent(defaults, pipeline, profile, environment, "pipeline_id");
    }
    hide At;
    hide Merge;
    hide Silent;
    assert layers[0] == base && layers[1] == defaults && layers[2] == pipeline;
    assert layers[3] == profile && layers[4] == environment;
  }

  lemma OneKeyDeep(name: string, path: Path, leaf: Value)
    requires At(Object(map["pipeline_id" := String(name)]), path) == Some(leaf) && !leaf.Object?
    ensures path == ["pipeline_id"]
  {
    assert path[0] == "pipeline_id";
    assert path[1..] == [];
  }

  lemma MergedSilent(base: Value, overlay: Value, key: string)
    requires base.Object? && overlay.Object?
    ensures Silent(Merge(base, overlay), [key]) <==> Silent(base, [key]) && Silent(overlay, [key])
  {
    SilentAtKey(base, key);
    SilentAtKey(overlay, key);
    SilentAtKey(Merge(base, overlay), key);
    hide Silent;
  }

  lemma SilentAtKey(v: Value, key: string)
    requires v.Object?
    ensures Silent(v, [key]) <==> key !in v.fields
  {
    if key in v.fields {
      assert [key][1..] == [] && At(v.fields[key], []) == Some(v.fields[key]);
      assert At(v, [key]) == At(v.fields[key], [key][1..]);
    }
  }

  lemma LayeredSilent(defaults: Value, pipeline: Value, profile: Value, environment: Value, key: string)
    requires defaults.Object? && pipeline.Object? && profile.Object? && environment.Object?
    ensures Silent(Layered(defaults, pipeline, profile, environment), [key]) <==>
      Silent(defaults, [key]) && Silent(pipeline, [key]) && Silent(profile, [key]) && Silent(environment, [key])
  {
    hide Silent;
    MergedSilent(defaults, pipeline, key);
    MergedSilent(Merge(defaults, pipeline), profile, key);
    MergedSilent(Merge(Merge(defaults, pipeline), profile), environment, key);
  }

  /** Resolution up to schema validation: selection, the four layers, and the pipeline id as a fallback. */
  method ResolveConfigDocument(doc: Document, pipelineName: Option<string>, profileName: Option<string>,
                               environmentName: Option<string>, strip: string -> string)
    returns (resolved: Result<(string, Table)>)
    ensures resolved.Ok? <==>
      && Selectable(pipelineName, doc.defaultPipeline, doc.pipelines.Keys, strip)
      && (pipelineName.None? && doc.defaultPipeline.None? ==> |doc.pipelines| == 1)
      && Selectable(profileName, doc.defaultProfile, doc.profiles.Keys, strip)
      && Selectable(environmentName, doc.defaultEnvironment, doc.environments.Keys, strip)
    ensures resolved.Ok? ==>
      var (name, config) := resolved.value;
      var chosen := Chosen(pipelineName, doc.defaultPipeline, strip);
      && name in doc.pipelines
      && (if chosen.Some? then name == chosen.value else doc.pipelines.Keys == {name})
      && Object(config) == Merge(Object(map["pipeline_id" := String(name)]), LayersOf(doc, name,
           Chosen(profileName, doc.defaultProfile, strip), Chosen(environmentName, doc.defaultEnvironment, strip)))
      && forall path, leaf: Value :: !leaf.Object? ==>
           (At(Object(config), path) == Some(leaf) <==> LastSays([
              Object(map["pipeline_id" := String(name)]),
              if doc.performance.Some? then Object(map["performance" := Object(doc.performance.value)])
              else Object(map[]),
              Object(doc.pipelines[name]),
              LayerOf(Chosen(profileName, doc.defaultProfile, strip), doc.profiles, name),
              LayerOf(Chosen(environmentName, doc.defaultEnvironment, strip), doc.environments, name)], path, leaf))
  {
    hide Merge;
    hide At;
    hide LastSays;
    hide SelectOptional;
    hide SelectPipeline;
    hide Chosen;
    hide Selectable;
    hide LayerOf;
    PipelineIs(pipelineName, doc, strip);
    var selected := SelectPipeline(pipelineName, doc, strip);
    if selected.Error? {
      return Error(selected.message);
    }
    var name := selected.value;
    SelectedIs(profileName, doc.defaultProfile, doc.profiles.Keys, strip);
    SelectedIs(environmentName, doc.defaultEnvironment, doc.environments.Keys, strip);
    if name !in doc.pipelines {
      return Error("Pipeline was not found.");
    }
    var defaults := if doc.performance.Some? then map["performance" := Object(doc.performance.value)] else map[];
    var merged := DeepMerge(defaults, doc.pipelines[name]);
    var profile := SelectOptional(profileName, doc.defaultProfile, strip);
    if profile.Error? {
      return Error(profile.message);
    }
    var environment := SelectOptional(environmentName, doc.defaultEnvironment, strip);
    if environment.Error? {
      return Error(environment.message);
    }
    var withProfile := ApplyNamedOverlay(merged, profile.value, doc.profiles, name);
    if withProfile.Error? {
      return Error(withProfile.message);
    }
    var withEnvironment := ApplyNamedOverlay(withProfile.value, environment.value, doc.environments, name);
    if withEnvironment.Error? {
      return Error(withEnvironment.message);
    }
    var config := withEnvironment.value;
    SetDefault(config, "pipeline_id", String(name));
    if "pipeline_id" !in config {
      config := config["pipeline_id" := String(name)];
    }
    forall path, leaf: Value | !leaf.Object?
      ensures At(Object(config), path) == Some(leaf) <==> LastSays([
        Object(map["pipeline_id" := String(name)]), DocumentDefaults(doc), Object(doc.pipelines[name]),
        LayerOf(Chosen(profileName, doc.defaultProfile, strip), doc.profiles, name),
        LayerOf(Chosen(environmentName, doc.defaultEnvironment, strip), doc.environments, name)], path, leaf)
    {
      LayerIsTable(Chosen(profileName, doc.defaultProfile, strip), doc.profiles, name);
      LayerIsTable(Chosen(environmentName, doc.defaultEnvironment, strip), doc.environments, name);
      ResolvedAt(name, DocumentDefaults(doc), Object(doc.pipelines[name]),
                 LayerOf(Chosen(profileName, doc.defaultProfile, strip), doc.profiles, name),
                 LayerOf(Chosen(environmentName, doc.defaultEnvironment, strip), doc.environments, name), path, leaf);
    }
    return Ok((name, config));
  }

  lemma SetDefault(config: Table, key: string, leaf: Value)
    requires !leaf.Object?
    ensures Merge(Object(map[key := leaf]), Object(config))
      == Object(if key in config then config else config[key := leaf])
  {
    var merged := Merge(Object(map[key := leaf]), Object(config));
    if key in config {
      assert Merge(leaf, config[key]) == config[key];
      assert merged.fields == config;
    } else {
      assert merged.fields == config[key := leaf];
    }
  }
}
