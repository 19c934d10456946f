/**
 * `Chef::Node::Attribute`: ten precedence levels, each with its own root,
 * and `debug_value`, which walks one key path through every level's raw
 * root without creating anything.
 *
 * The order of the levels is the order in which the constructor lists them;
 * the constant that fixes it at run time (`COMPONENTS_AS_SYMBOLS`) is not
 * part of this model and is assumed to list them the same way.
 */
module NodeAttribute {
  import opened Wrappers

  /** Scalar payloads. `Sym` is a Ruby symbol. */
  datatype Atom = Nil | Bool(b: bool) | Int(i: int) | Str(s: string) | Sym(name: string)

  /** A value held at some level: a scalar, an array, or a hash keyed by strings. */
  datatype Value = Scalar(atom: Atom) | List(items: seq<Value>) | Mash(entries: map<string, Value>)

  const EmptyMash: Value := Mash(map[])

  /** The symbol `:not_present` that `debug_value` reports for a miss. */
  const NotPresent: Value := Scalar(Sym("not_present"))

  datatype Level =
    | Default | EnvDefault | RoleDefault | ForceDefault
    | Normal
    | Override | RoleOverride | EnvOverride | ForceOverride
    | Automatic

  /** The precedence levels, lowest first. */
  const Components: seq<Level> :=
    [Default, EnvDefault, RoleDefault, ForceDefault, Normal,
     Override, RoleOverride, EnvOverride, ForceOverride, Automatic]

  /** `component.to_s`. */
  function ComponentName(l: Level): string {
    match l
    case Default => "default"
    case EnvDefault => "env_default"
    case RoleDefault => "role_default"
    case ForceDefault => "force_default"
    case Normal => "normal"
    case Override => "override"
    case RoleOverride => "role_override"
    case EnvOverride => "env_override"
    case ForceOverride => "force_override"
    case Automatic => "automatic"
  }

  /** The ten roots, one per level. */
  datatype Attribute = Attribute(
    default: Value, envDefault: Value, roleDefault: Value, forceDefault: Value,
    normal: Value,
    override: Value, roleOverride: Value, envOverride: Value, forceOverride: Value,
    automatic: Value)

  /** The per-level reader the class defines for every component. */
  function Root(a: Attribute, l: Level): Value {
    match l
    case Default => a.default
    case EnvDefault => a.envDefault
    case RoleDefault => a.roleDefault
    case ForceDefault => a.forceDefault
    case Normal => a.normal
    case Override => a.override
    case RoleOverride => a.roleOverride
    case EnvOverride => a.envOverride
    case ForceOverride => a.forceOverride
    case Automatic => a.automatic
  }

  /** `Attribute.new(normal, default, override, automatic)`. */
  function New(normal: Value, default: Value, override: Value, automatic: Value): (a: Attribute)
    ensures Root(a, Normal) == normal && Root(a, Default) == default
    ensures Root(a, Override) == override && Root(a, Automatic) == automatic
    ensures forall l :: l !in {Normal, Default, Override, Automatic} ==> Root(a, l) == EmptyMash
  {
    Attribute(default, EmptyMash, EmptyMash, EmptyMash, normal,
              override, EmptyMash, EmptyMash, EmptyMash, automatic)
  }

  /** Where a level stands in `Components`. */
  function LevelIndex(l: Level): (i: nat)
    ensures i < |Components| && Components[i] == l
  {
    match l
    case Default => 0
    case EnvDefault => 1
    case RoleDefault => 2
    case ForceDefault => 3
    case Normal => 4
    case Override => 5
    case RoleOverride => 6
    case EnvOverride => 7
    case ForceOverride => 8
    case Automatic => 9
  }

  /** Every level occurs exactly once in `Components`, under its own name. */
  lemma ComponentsEnumerateLevels()
    ensures |Components| == 10
    ensures forall l: Level :: l in Components
    ensures forall i, j :: 0 <= i < j < |Components| ==>
      ComponentName(Components[i]) != ComponentName(Components[j])
  {
    forall l: Level ensures l in Components {
      var i := LevelIndex(l);
    }
    forall i, j | 0 <= i < j < |Components|
      ensures ComponentName(Components[i]) != ComponentName(Components[j])
    {
      if ComponentName(Components[i]) == ComponentName(Components[j]) {
        NameDetermines(Components[i], Components[j]);
      }
    }
  }

  lemma NameDetermines(l: Level, k: Level)
    requires ComponentName(l) == ComponentName(k)
    ensures l == k
  {
    var n, m := ComponentName(l), ComponentName(k);
    assert |n| == |m| && n[0] == m[0];
    if |n| > 4 { assert n[4] == m[4]; }
    if |n| > 5 { assert n[5] == m[5]; }
  }

  /** The state of the fold after some keys: a value reached, the
      `:not_present` sentinel, or the `NoMethodError` that `has_key?` raises
      on something that is not a hash. */
  datatype Walk = Found(value: Value) | Missing | Raised

  /** One step of the `inject` block. A value equal to `:not_present` is
      treated like a miss, exactly as the `==` test does. */
  function Step(soFar: Walk, key: string): Walk {
    match soFar
    case Raised => Raised
    case Missing => Missing
    case Found(v) =>
      if v == NotPresent then Missing
      else if v.Mash? then (if key in v.entries then Found(v.entries[key]) else Missing)
      else Raised
  }

  /** `args.inject(root) { ... }`: the left fold of `Step` over the path. */
  function Probe(root: Value, path: seq<string>): Walk
    decreases |path|
  {
    if |path| == 0 then Found(root)
    else Step(Probe(root, path[..|path| - 1]), path[|path| - 1])
  }

  /** What a level reports: the value reached, or the symbol `:not_present`. */
  function Report(p: Walk): Value
    requires !p.Raised?
  {
    if p.Found? then p.value else NotPresent
  }

  datatype RubyError = NoMethodError | RuntimeError(message: string)

  /** The `map` over `levels`; any level whose walk raises aborts it. */
  function Entries(a: Attribute, levels: seq<Level>, path: seq<string>): (r: Result<seq<(string, Value)>, RubyError>)
    ensures r.Success? <==> forall i :: 0 <= i < |levels| ==> !Probe(Root(a, levels[i]), path).Raised?
    ensures r.Failure? ==> r.error == NoMethodError
    ensures r.Success? ==> |r.value| == |levels| && forall i :: 0 <= i < |levels| ==>
      r.value[i] == (ComponentName(levels[i]), Report(Probe(Root(a, levels[i]), path)))
    decreases |levels|
  {
    if |levels| == 0 then Success([])
    else
      var p := Probe(Root(a, levels[0]), path);
      if p.Raised? then Failure(NoMethodError)
      else match Entries(a, levels[1..], path)
        case Failure(e) => Failure(e)
        case Success(rest) => Success([(ComponentName(levels[0]), Report(p))] + rest)
  }

  /** `debug_value(*path)`: one `[level_name, value]` pair per level, in
      level order; fails when `has_key?` is sent to a non-hash at some level. */
  function DebugValue(a: Attribute, path: seq<string>): (r: Result<seq<(string, Value)>, RubyError>)
    ensures r.Success? <==> forall l: Level :: !Probe(Root(a, l), path).Raised?
    ensures r.Failure? ==> r.error == NoMethodError
    ensures r.Success? ==> |r.value| == |Components| && forall i :: 0 <= i < |Components| ==>
      r.value[i].0 == ComponentName(Components[i]) &&
      r.value[i].1 == Report(Probe(Root(a, Components[i]), path))
  {
    ComponentsEnumerateLevels();
    var r := Entries(a, Components, path);
    assert r.Success? <== forall l: Level :: !Probe(Root(a, l), path).Raised?;
    assert r.Success? ==> forall l: Level :: !Probe(Root(a, l), path).Raised? by {
      if r.Success? {
        forall l: Level ensures !Probe(Root(a, l), path).Raised? {
          var i := LevelIndex(l);
        }
      }
    }
    r
  }

  // ---------------------------------------------------------------------
  // The reference walk: nested lookup `root[k1][k2]...[kn]` through hashes.

  /** `root[k1]...[kn]` when every step lands in a hash holding the key. */
  function Lookup(v: Value, path: seq<string>): Option<Value>
    decreases |path|
  {
    if |path| == 0 then Some(v)
    else if v.Mash? && path[0] in v.entries then Lookup(v.entries[path[0]], path[1..])
    else None
  }

  lemma {:induction false} LookupSnoc(v: Value, path: seq<string>, k: string)
    ensures Lookup(v, path + [k]) ==
      match Lookup(v, path)
      case Some(w) => if w.Mash? && k in w.entries then Some(w.entries[k]) else None
      case None => None
    decreases |path|
  {
    if |path| > 0 {
      assert (path + [k])[1..] == path[1..] + [k];
      if v.Mash? && path[0] in v.entries {
        LookupSnoc(v.entries[path[0]], path[1..], k);
      }
    }
  }

  /** The walk reaches a value exactly when the nested lookup does, and it is
      the same value. */
  lemma {:induction false} ProbeFoundIffLookup(root: Value, path: seq<string>)
    ensures Probe(root, path).Found? <==> Lookup(root, path).Some?
    ensures Probe(root, path).Found? ==> Probe(root, path).value == Lookup(root, path).value
    decreases |path|
  {
    if |path| > 0 {
      var init, k := path[..|path| - 1], path[|path| - 1];
      assert path == init + [k];
      ProbeFoundIffLookup(root, init);
      LookupSnoc(root, init, k);
    }
  }

  /** Once a step misses, every longer path misses too. */
  lemma {:induction false} MissingPersists(root: Value, path: seq<string>, more: seq<string>)
    requires Probe(root, path) == Missing
    ensures Probe(root, path + more) == Missing
    decreases |more|
  {
    if |more| > 0 {
      var init := more[..|more| - 1];
      var whole := path + more;
      assert whole[..|whole| - 1] == path + init && whole[|whole| - 1] == more[|more| - 1];
      MissingPersists(root, path, init);
      assert Probe(root, whole) == Step(Probe(root, path + init), more[|more| - 1]);
    } else {
      assert path + more == path;
    }
  }

  /** A walk that raised stays raised for longer paths. */
  lemma {:induction false} RaisedPersists(root: Value, path: seq<string>, more: seq<string>)
    requires Probe(root, path) == Raised
    ensures Probe(root, path + more) == Raised
    decreases |more|
  {
    if |more| > 0 {
      var init := more[..|more| - 1];
      var whole := path + more;
      assert whole[..|whole| - 1] == path + init && whole[|whole| - 1] == more[|more| - 1];
      RaisedPersists(root, path, init);
      assert Probe(root, whole) == Step(Probe(root, path + init), more[|more| - 1]);
    } else {
      assert path + more == path;
    }
  }

  /** Some strict prefix of the path leads to a value that is neither a hash
      nor the sentinel, so the next `has_key?` is sent to it. */
  ghost predicate HitsNonHash(root: Value, path: seq<string>) {
    exists n :: 0 <= n < |path| && Lookup(root, path[..n]).Some? &&
      !Lookup(root, path[..n]).value.Mash? && Lookup(root, path[..n]).value != NotPresent
  }

  /** The walk raises exactly when it runs into a non-hash value. */
  lemma {:induction false} ProbeRaisedIff(root: Value, path: seq<string>)
    ensures Probe(root, path) == Raised <==> HitsNonHash(root, path)
    decreases |path|
  {
    if |path| > 0 {
      var init, k := path[..|path| - 1], path[|path| - 1];
      assert path == init + [k];
      ProbeRaisedIff(root, init);
      ProbeFoundIffLookup(root, init);
      forall n | 0 <= n < |init| ensures path[..n] == init[..n] { }
      if HitsNonHash(root, init) {
        var n :| 0 <= n < |init| && Lookup(root, init[..n]).Some? &&
          !Lookup(root, init[..n]).value.Mash? && Lookup(root, init[..n]).value != NotPresent;
        assert path[..n] == init[..n];
      }
      assert path[..|init|] == init;
    }
  }

  // ---------------------------------------------------------------------
  // What `debug_value` reports, level by level.

  /** With no keys, each level reports its own root. */
  lemma DebugValueEmptyPath(a: Attribute)
    ensures DebugValue(a, []).Success?
    ensures forall i :: 0 <= i < |Components| ==> DebugValue(a, []).value[i].1 == Root(a, Components[i])
  {
  }

  /** A level reports the nested lookup when every key is present along the
      way, and `:not_present` when the path is missing and nothing raised. */
  lemma DebugValueReportsLookup(a: Attribute, path: seq<string>, i: nat)
    requires i < |Components|
    requires DebugValue(a, path).Success?
    ensures Lookup(Root(a, Components[i]), path).Some? ==>
      DebugValue(a, path).value[i].1 == Lookup(Root(a, Components[i]), path).value
    ensures Lookup(Root(a, Components[i]), path).None? ==>
      DebugValue(a, path).value[i].1 == NotPresent
  {
    ProbeFoundIffLookup(Root(a, Components[i]), path);
  }

  /** Once a level misses along `path`, it reports `:not_present` for every
      longer path, provided the call as a whole does not raise. */
  lemma DebugValueMissStaysMissing(a: Attribute, path: seq<string>, more: seq<string>, i: nat)
    requires i < |Components|
    requires Probe(Root(a, Components[i]), path) == Missing
    requires DebugValue(a, path + more).Success?
    ensures DebugValue(a, path + more).value[i].1 == NotPresent
  {
    MissingPersists(Root(a, Components[i]), path, more);
  }

  /** A level's entry depends on that level's root and the path alone. */
  lemma DebugValueLevelIndependent(a: Attribute, b: Attribute, path: seq<string>, i: nat)
    requires i < |Components|
    requires Root(a, Components[i]) == Root(b, Components[i])
    ensures DebugValue(a, path).Success? && DebugValue(b, path).Success? ==>
      DebugValue(a, path).value[i] == DebugValue(b, path).value[i]
  {
  }

  /** A stored `:not_present` cannot be told apart from a missing key: a
      level whose hash `m` holds it under `k` walks to the sentinel itself on
      `[k]` and to a miss on every longer path, and a level whose hash `m2`
      lacks `k` misses at once; neither raises, and both report
      `:not_present`. */
  lemma SentinelIndistinguishable(m: map<string, Value>, m2: map<string, Value>, k: string, more: seq<string>)
    requires k in m && m[k] == NotPresent
    requires k !in m2
    ensures Probe(Mash(m2), [k] + more) == Missing
    ensures Probe(Mash(m), [k] + more) == if more == [] then Found(NotPresent) else Missing
    ensures Report(Probe(Mash(m), [k] + more)) == NotPresent
    ensures Report(Probe(Mash(m2), [k] + more)) == NotPresent
  {
    assert [k][..0] == [];
    assert Probe(Mash(m), [k]) == Found(NotPresent);
    assert Probe(Mash(m2), [k]) == Missing;
    MissingPersists(Mash(m2), [k], more);
    if |more| > 0 {
      var two := [k] + [more[0]];
      assert two[..1] == [k];
      assert Probe(Mash(m), two) == Step(Probe(Mash(m), [k]), more[0]);
      assert Probe(Mash(m), two) == Missing;
      MissingPersists(Mash(m), two, more[1..]);
      assert two + more[1..] == [k] + more;
    } else {
      assert [k] + more == [k];
    }
  }

  // ---------------------------------------------------------------------
  // The entry points that are stubs.

  datatype Stub =
    | Rm | RmDefault | RmNormal | RmOverride
    | DefaultBang | NormalBang | OverrideBang | ForceDefaultBang | ForceOverrideBang

  /** `rm`, `rm_default`, `rm_normal`, `rm_override`, `default!`, `normal!`,
      `override!`, `force_default!` and `force_override!`: whatever the
      arguments, even none, the call raises `"unimplemented"` and no level
      is replaced. */
  function CallStub(a: Attribute, stub: Stub, args: seq<Value>): (r: Result<Attribute, RubyError>)
    ensures r == Failure(RuntimeError("unimplemented"))
  {
    Failure(RuntimeError("unimplemented"))
  }
}
