/** Dotted key paths into a nested YAML configuration: "a.b.c" names the
    entry c of the map under b of the map under a. The configuration is a
    map from strings to values, whose map-valued entries are the nested
    maps. Listing and reading are pure queries; setting and removing change
    the configuration in place, which ConfigData models. */
module YamlGeneration {
  import opened Wrappers
  import opened Text
  import opened Values

  /** The keys of a dotted option name. */
  function PathOf(name: string): (path: seq<string>)
    ensures |path| >= 1
  {
    Split(name, '.')
  }

  /** The value at a key path below v, if every key on the way is present
      in a map. */
  function GetPath(v: Value, path: seq<string>): Option<Value>
    decreases |path|
  {
    if path == [] then Some(v)
    else
      match v
      case Dict(m) => if path[0] in m then GetPath(m[path[0]], path[1..]) else None
      case _ => None
  }

  /** get_config_value(config_data, option_name): the value at the dotted
      path, or None (Null) when some key on the way is missing. */
  function GetConfigValue(data: map<string, Value>, name: string): (r: Value)
    ensures GetPath(Dict(data), PathOf(name)).Some? ==> r == GetPath(Dict(data), PathOf(name)).value
    ensures GetPath(Dict(data), PathOf(name)).None? ==> r == Null
  {
    match GetPath(Dict(data), PathOf(name))
    case Some(v) => v
    case None => Null
  }

  /** The key paths of the leaves below v: every path that ends at a value
      that is not a map. */
  function LeafPaths(v: Value): set<seq<string>>
    decreases v
  {
    match v
    case Dict(m) => set k, p | k in m && p in LeafPaths(m[k]) :: [k] + p
    case _ => {[]}
  }

  /** all_config_options(config_data): the dotted name of every leaf. */
  function AllConfigOptions(data: map<string, Value>): set<string> {
    set p | p in LeafPaths(Dict(data)) :: Join(p, ".")
  }

  /** No key anywhere in the configuration contains a dot, so that dotted
      names and key paths correspond one to one. */
  ghost predicate DotFreeKeys(v: Value)
    decreases v
  {
    match v
    case Dict(m) => forall k :: k in m ==> '.' !in k && DotFreeKeys(m[k])
    case _ => true
  }

  /** A path can be set: every intermediate key is either a map or, when
      forcing, missing. */
  predicate Settable(m: map<string, Value>, path: seq<string>, force: bool)
    decreases |path|
  {
    |path| >= 1 &&
    (|path| == 1 ||
     (if path[0] in m then m[path[0]].Dict? && Settable(m[path[0]].entries, path[1..], force)
      else force))
  }

  /** The configuration after storing x at the key path. A missing
      intermediate map is created when forcing, and otherwise nothing
      changes; an intermediate value that is not a map also leaves the
      configuration as it was. */
  function SetPath(m: map<string, Value>, path: seq<string>, x: Value, force: bool): map<string, Value>
    requires |path| >= 1
    decreases |path|
  {
    var k := path[0];
    if |path| == 1 then m[k := x]
    else if k in m then
      if m[k].Dict? then m[k := Dict(SetPath(m[k].entries, path[1..], x, force))] else m
    else if force then m[k := Dict(SetPath(map[], path[1..], x, force))]
    else m
  }

  /** The configuration after removing the entry at the key path; a map that
      is empty after the removal is removed from its parent in turn. A map
      that was already empty on the path is pruned too, even when the path
      leads to no entry; in a configuration without empty maps a path that
      leads to no entry changes nothing (RemoveMissingIsNoOp). */
  function RemovePath(m: map<string, Value>, path: seq<string>): map<string, Value>
    requires |path| >= 1
    decreases |path|
  {
    var k := path[0];
    if k !in m then m
    else if |path| == 1 then m - {k}
    else if m[k].Dict? then
      var child := RemovePath(m[k].entries, path[1..]);
      if child == map[] then m - {k} else m[k := Dict(child)]
    else m
  }

  /** The YAML data read from a configuration file, which set_config_value
      and remove_config_value change in place. */
  class ConfigData {
    var data: map<string, Value>

    constructor(data: map<string, Value>)
      ensures this.data == data
    {
      this.data := data;
    }

    /** set_config_value(config_data, option_name, option_value, force=False). */
    method SetConfigValue(name: string, value: Value, force: bool := false)
      modifies this`data
      ensures data == SetPath(old(data), PathOf(name), value, force)
    {
      data := SetPath(data, PathOf(name), value, force);
    }

    /** remove_config_value(config_data, option_name). */
    method RemoveConfigValue(name: string)
      modifies this`data
      ensures data == RemovePath(old(data), PathOf(name))
    {
      data := RemovePath(data, PathOf(name));
    }
  }

  // -----------------------------------------------------------------------
  // Listing and reading

  /** A path is a leaf path exactly when it leads to a value that is not a
      map. */
  lemma {:induction false} LeafPathsAreLeaves(v: Value, p: seq<string>)
    ensures p in LeafPaths(v) <==> GetPath(v, p).Some? && !GetPath(v, p).value.Dict?
    decreases |p|
  {
    if p != [] {
      match v
      case Dict(m) =>
        var k := p[0];
        if k in m {
          LeafPathsAreLeaves(m[k], p[1..]);
          assert [k] + p[1..] == p;
          if p in LeafPaths(v) {
            var k', p' :| k' in m && p' in LeafPaths(m[k']) && p == [k'] + p';
            assert k' == k && p' == p[1..];
          }
        } else {
          assert p !in LeafPaths(v);
        }
      case _ =>
    }
  }

  /** Every leaf path of a map value is non-empty. */
  lemma LeafPathsOfMapNonEmpty(m: map<string, Value>, p: seq<string>)
    requires p in LeafPaths(Dict(m))
    ensures |p| >= 1
  {
  }

  /** Along a leaf path of a configuration without dotted keys, no key
      contains a dot. */
  lemma {:induction false} LeafPathKeysDotFree(v: Value, p: seq<string>)
    requires DotFreeKeys(v) && p in LeafPaths(v)
    ensures forall i :: 0 <= i < |p| ==> '.' !in p[i]
    decreases |p|
  {
    if p != [] {
      var m := v.entries;
      var k, p' :| k in m && p' in LeafPaths(m[k]) && p == [k] + p';
      LeafPathKeysDotFree(m[k], p');
      forall i | 0 <= i < |p| ensures '.' !in p[i] {
        if i > 0 {
          assert p[i] == p'[i - 1];
        }
      }
    }
  }

  /** The dotted name of a leaf path reads back the path. */
  lemma OptionPath(data: map<string, Value>, p: seq<string>)
    requires DotFreeKeys(Dict(data)) && p in LeafPaths(Dict(data))
    ensures PathOf(Join(p, ".")) == p
  {
    LeafPathsOfMapNonEmpty(data, p);
    LeafPathKeysDotFree(Dict(data), p);
    SplitJoin(p, '.');
  }

  /** get_config_value on an option that all_config_options lists gives the
      leaf stored there, which is not a map; and every leaf is listed under
      its dotted name. */
  lemma OptionsAreLeaves(data: map<string, Value>)
    requires DotFreeKeys(Dict(data))
    ensures forall name :: name in AllConfigOptions(data) ==>
      GetPath(Dict(data), PathOf(name)).Some? && !GetConfigValue(data, name).Dict?
    ensures forall p :: p in LeafPaths(Dict(data)) ==>
      Join(p, ".") in AllConfigOptions(data) && GetPath(Dict(data), p) == Some(GetConfigValue(data, Join(p, ".")))
  {
    forall name | name in AllConfigOptions(data)
      ensures GetPath(Dict(data), PathOf(name)).Some? && !GetConfigValue(data, name).Dict?
    {
      var p :| p in LeafPaths(Dict(data)) && name == Join(p, ".");
      OptionPath(data, p);
      LeafPathsAreLeaves(Dict(data), p);
    }
    forall p | p in LeafPaths(Dict(data))
      ensures Join(p, ".") in AllConfigOptions(data) && GetPath(Dict(data), p) == Some(GetConfigValue(data, Join(p, ".")))
    {
      OptionPath(data, p);
      LeafPathsAreLeaves(Dict(data), p);
    }
  }

  // -----------------------------------------------------------------------
  // Setting

  /** Storing at a settable path makes the value readable there. */
  lemma {:induction false} GetAfterSet(m: map<string, Value>, path: seq<string>, x: Value, force: bool)
    requires Settable(m, path, force)
    ensures GetPath(Dict(SetPath(m, path, x, force)), path) == Some(x)
    decreases |path|
  {
    if |path| > 1 {
      var k := path[0];
      if k in m {
        GetAfterSet(m[k].entries, path[1..], x, force);
      } else {
        SettableInEmpty(path[1..], force);
        GetAfterSet(map[], path[1..], x, force);
      }
    }
  }

  /** With force, every non-empty path is settable in an empty map. */
  lemma {:induction false} SettableInEmpty(path: seq<string>, force: bool)
    requires |path| >= 1 && force
    ensures Settable(map[], path, force)
    decreases |path|
  {
    if |path| > 1 {
      SettableInEmpty(path[1..], force);
    }
  }

  /** Without force, a path that cannot be set leaves the configuration as
      it was. */
  lemma {:induction false} UnsettableIsNoOp(m: map<string, Value>, path: seq<string>, x: Value)
    requires |path| >= 1 && !Settable(m, path, false)
    ensures SetPath(m, path, x, false) == m
    decreases |path|
  {
    var k := path[0];
    if |path| > 1 && k in m && m[k].Dict? {
      UnsettableIsNoOp(m[k].entries, path[1..], x);
      assert m[k := Dict(m[k].entries)] == m;
    }
  }

  /** Forcing makes every path settable that has only maps on the way. */
  lemma {:induction false} ForceSettable(m: map<string, Value>, path: seq<string>)
    requires |path| >= 1
    requires forall i :: 1 <= i < |path| ==> GetPath(Dict(m), path[..i]).Some? ==> GetPath(Dict(m), path[..i]).value.Dict?
    ensures Settable(m, path, true)
    decreases |path|
  {
    if |path| > 1 {
      var k := path[0];
      assert path[..1] == [k];
      if k in m {
        assert GetPath(Dict(m), [k]) == GetPath(m[k], []);
        var c := m[k].entries;
        forall i | 1 <= i < |path| - 1
          ensures GetPath(Dict(c), path[1..][..i]).Some? ==> GetPath(Dict(c), path[1..][..i]).value.Dict?
        {
          assert path[..i + 1][1..] == path[1..][..i];
        }
        ForceSettable(c, path[1..]);
      } else {
        SettableInEmpty(path[1..], true);
      }
    }
  }

  /** Setting one path leaves every diverging path as it was. */
  lemma {:induction false} SetKeepsOtherPaths(m: map<string, Value>, p: seq<string>, x: Value, force: bool,
                                              q: seq<string>, i: nat)
    requires |p| >= 1 && i < |p| && i < |q| && p[i] != q[i] && p[..i] == q[..i]
    ensures GetPath(Dict(SetPath(m, p, x, force)), q) == GetPath(Dict(m), q)
    decreases |p|
  {
    var k := p[0];
    if i > 0 {
      assert q[0] == p[..i][0] == k;
      if |p| > 1 {
        if k in m && m[k].Dict? {
          assert p[1..][..i - 1] == p[..i][1..] == q[..i][1..] == q[1..][..i - 1];
          SetKeepsOtherPaths(m[k].entries, p[1..], x, force, q[1..], i - 1);
        } else if k !in m && force {
          assert p[1..][..i - 1] == q[1..][..i - 1];
          SetKeepsOtherPaths(map[], p[1..], x, force, q[1..], i - 1);
          GetFromEmpty(q[1..]);
        }
      }
    }
  }

  /** Nothing can be read below an empty map but the map itself. */
  lemma GetFromEmpty(q: seq<string>)
    ensures q != [] ==> GetPath(Dict(map[]), q) == None
  {
  }

  // -----------------------------------------------------------------------
  // Removing

  /** After removal nothing is left at the removed path. */
  lemma {:induction false} RemoveMakesAbsent(m: map<string, Value>, path: seq<string>)
    requires |path| >= 1
    ensures GetPath(Dict(RemovePath(m, path)), path) == None
    decreases |path|
  {
    var k := path[0];
    if k in m && |path| > 1 && m[k].Dict? {
      RemoveMakesAbsent(m[k].entries, path[1..]);
    }
  }

  /** Removal deletes only: a path absent before is absent after. */
  lemma {:induction false} RemoveKeepsAbsent(m: map<string, Value>, p: seq<string>, q: seq<string>)
    requires |p| >= 1 && GetPath(Dict(m), q) == None
    ensures GetPath(Dict(RemovePath(m, p)), q) == None
    decreases |p|
  {
    var k := p[0];
    if k in m && |p| > 1 && m[k].Dict? && q != [] && q[0] == k {
      var child := RemovePath(m[k].entries, p[1..]);
      if child != map[] {
        RemoveKeepsAbsent(m[k].entries, p[1..], q[1..]);
      }
    }
  }

  /** Removing one path leaves every diverging path that leads to a value
      as it was: siblings survive, and only maps left empty are pruned. */
  lemma {:induction false} RemoveKeepsOtherPaths(m: map<string, Value>, p: seq<string>, q: seq<string>, i: nat)
    requires |p| >= 1 && i < |p| && i < |q| && p[i] != q[i] && p[..i] == q[..i]
    requires GetPath(Dict(m), q).Some?
    ensures GetPath(Dict(RemovePath(m, p)), q) == GetPath(Dict(m), q)
    decreases |p|
  {
    var k := p[0];
    if i > 0 {
      assert q[0] == p[..i][0] == k;
      if |p| > 1 && m[k].Dict? {
        var c := m[k].entries;
        assert p[1..][..i - 1] == q[1..][..i - 1];
        RemoveKeepsOtherPaths(c, p[1..], q[1..], i - 1);
        var child := RemovePath(c, p[1..]);
        assert q[1..] != [];
        assert q[1] in child;
      }
    }
  }

  /** No map anywhere in the configuration is empty. */
  ghost predicate NoEmptyMaps(v: Value)
    decreases v
  {
    match v
    case Dict(m) => forall k :: k in m ==> m[k] != Dict(map[]) && NoEmptyMaps(m[k])
    case _ => true
  }

  /** In a configuration without empty maps, removing a path that leads to
      no entry changes nothing. */
  lemma {:induction false} RemoveMissingIsNoOp(m: map<string, Value>, path: seq<string>)
    requires |path| >= 1 && NoEmptyMaps(Dict(m)) && GetPath(Dict(m), path) == None
    ensures RemovePath(m, path) == m
    decreases |path|
  {
    var k := path[0];
    if k in m && |path| > 1 && m[k].Dict? {
      RemoveMissingIsNoOp(m[k].entries, path[1..]);
      assert m[k := Dict(m[k].entries)] == m;
    }
  }

  /** Pruning keeps a configuration free of empty maps: removal never
      leaves an empty map behind. */
  lemma {:induction false} RemoveKeepsNoEmptyMaps(m: map<string, Value>, path: seq<string>)
    requires |path| >= 1 && NoEmptyMaps(Dict(m))
    ensures NoEmptyMaps(Dict(RemovePath(m, path)))
    decreases |path|
  {
    var k := path[0];
    if k in m && |path| > 1 && m[k].Dict? {
      RemoveKeepsNoEmptyMaps(m[k].entries, path[1..]);
    }
  }
}

/** The configuration of the test fixture and what the tests assert of it. */
module YamlGenerationExamples {
  import opened Wrappers
  import opened Text
  import opened Values
  import opened YamlGeneration

  const Fixture: map<string, Value> := map[
    "foo" := Dict(map["foo2" := Dict(map["foo3" := Str("foo4")])]),
    "bar" := Dict(map["bar2" := Dict(map["bar3" := Str("bar4")]), "bar_str" := Str("bar")]),
    "baz" := Dict(map["baz2" := Str("baz")])]

  /** A dotted name built from dot-free keys reads back those keys. */
  lemma DottedName(keys: seq<string>)
    requires |keys| >= 1 && forall i :: 0 <= i < |keys| ==> '.' !in keys[i]
    ensures PathOf(Join(keys, ".")) == keys
  {
    SplitJoin(keys, '.');
  }

  /** test_get_config_value and test_all_config_options: each leaf reads
      back under its key path, and so is listed under its dotted name. */
  lemma FixtureLeaves()
    ensures GetPath(Dict(Fixture), ["foo", "foo2", "foo3"]) == Some(Str("foo4"))
    ensures GetPath(Dict(Fixture), ["bar", "bar_str"]) == Some(Str("bar"))
    ensures GetPath(Dict(Fixture), ["bar", "bar2", "bar3"]) == Some(Str("bar4"))
    ensures GetPath(Dict(Fixture), ["baz", "baz2"]) == Some(Str("baz"))
  {
    FooLeaf();
    BarStrLeaf();
    BarLeaf();
    BazLeaf();
  }

  // The fixture's leaves one at a time.
  lemma FooLeaf() ensures GetPath(Dict(Fixture), ["foo", "foo2", "foo3"]) == Some(Str("foo4")) {}
  lemma BarStrLeaf() ensures GetPath(Dict(Fixture), ["bar", "bar_str"]) == Some(Str("bar")) {}
  lemma BarLeaf() ensures GetPath(Dict(Fixture), ["bar", "bar2", "bar3"]) == Some(Str("bar4")) {}
  lemma BazLeaf() ensures GetPath(Dict(Fixture), ["baz", "baz2"]) == Some(Str("baz")) {}

  /** test_set_config_value: overwriting an existing leaf, then the same
      missing path without force (no change) and with force (created). */
  lemma FixtureSet()
    ensures var s1 := SetPath(Fixture, ["foo", "foo2", "foo3"], Str("foo_set"), false);
      && GetPath(Dict(s1), ["foo", "foo2", "foo3"]) == Some(Str("foo_set"))
      && SetPath(s1, ["foo", "bar", "baz"], Str("test"), false) == s1
      && GetPath(Dict(SetPath(s1, ["foo", "bar", "baz"], Str("test"), true)), ["foo", "bar", "baz"]) == Some(Str("test"))
  {
    var s1 := SetPath(Fixture, ["foo", "foo2", "foo3"], Str("foo_set"), false);
    GetAfterSet(Fixture, ["foo", "foo2", "foo3"], Str("foo_set"), false);
    UnsettableIsNoOp(s1, ["foo", "bar", "baz"], Str("test"));
    GetAfterSet(s1, ["foo", "bar", "baz"], Str("test"), true);
  }

  /** test_remove_config_value: removing the only leaf of a chain prunes the
      chain up to the top-level key; removing one leaf keeps its sibling. */
  lemma FixtureRemove()
    ensures var r1 := RemovePath(Fixture, ["foo", "foo2", "foo3"]);
      var r2 := RemovePath(r1, ["bar", "bar_str"]);
      && "foo" !in r1
      && "bar" in r2 && r2["bar"].Dict? && "bar_str" !in r2["bar"].entries && "bar2" in r2["bar"].entries
  {
    var r1 := RemovePath(Fixture, ["foo", "foo2", "foo3"]);
    assert r1 == Fixture - {"foo"};
    var bar := Fixture["bar"].entries;
    assert r1["bar"] == Dict(bar);
    var child := RemovePath(bar, ["bar_str"]);
    assert child == bar - {"bar_str"};
    assert "bar2" in child;
    assert RemovePath(r1, ["bar", "bar_str"]) == r1["bar" := Dict(child)];
  }
}
