/** The NeMo application's own phases: ingesting the options of the base
    configuration as variable defaults, writing the generated configuration
    back out, and preprocessing the training log into a cleaned log and an
    elapsed-seconds report. */
module PyNemo {
  import opened Wrappers
  import opened Values
  import opened Text
  import opened Expansion
  import opened Application
  import opened YamlGeneration

  /** The exceptions these phases let escape: TypeError and ValueError from
      int(), and expansion failures. */
  datatype NemoError =
    | TypeError(value: Value)
    | ValueError(text: string)
    | ExpansionFailed(error: ExpanderError)

  const FfnHiddenSizeName := "model.ffn_hidden_size"

  /** The default that replaces an ffn_hidden_size int() cannot read. */
  const FfnFallback := "{4*{model.hidden_size}}"

  // ---------------------------------------------------------------------
  // ingest_default_configs

  /** int(v) on a value read from the configuration. */
  function IntOf(v: Value): Result<int, NemoError> {
    match v
    case Int(i) => Success(i)
    case Bool(b) => Success(if b then 1 else 0)
    case Str(s) => if ParseInt(s).Some? then Success(ParseInt(s).value) else Failure(ValueError(s))
    case _ => Failure(TypeError(v))
  }

  /** The value model.ffn_hidden_size is defined to: the integer when int()
      reads one, the fallback when int() raises ValueError; a TypeError
      escapes. */
  function FfnHiddenSize(v: Value): Result<Value, NemoError> {
    match IntOf(v)
    case Success(n) => Success(Int(n))
    case Failure(ValueError(_)) => Success(Str(FfnFallback))
    case Failure(err) => Failure(err)
  }

  /** The ffn_hidden_size rule case by case. */
  lemma FfnHiddenSizeCases(v: Value)
    ensures v.Int? ==> FfnHiddenSize(v) == Success(v)
    ensures v.Bool? ==> FfnHiddenSize(v) == Success(Int(if v.b then 1 else 0))
    ensures v.Str? && ParseInt(v.s).Some? ==> FfnHiddenSize(v) == Success(Int(ParseInt(v.s).value))
    ensures v.Str? && ParseInt(v.s).None? ==> FfnHiddenSize(v) == Success(Str(FfnFallback))
    ensures FfnHiddenSize(v).Failure? <==> !(v.Int? || v.Bool? || v.Str?)
    ensures FfnHiddenSize(v).Failure? ==> FfnHiddenSize(v) == Failure(TypeError(v))
  {
  }

  /** A size written as the text of an integer is read back as that integer. */
  lemma FfnHiddenSizeOfDigits(n: int)
    ensures FfnHiddenSize(Str(IntToString(n))) == Success(Int(n))
  {
    IntToStringRoundTrip(n);
  }

  /** Each option of the configuration, as a dotted name, with its value. */
  function ConfigDefaults(data: map<string, Value>): (r: map<string, Value>)
    ensures r.Keys == AllConfigOptions(data)
    ensures forall o :: o in r ==> r[o] == GetConfigValue(data, o)
  {
    map o | o in AllConfigOptions(data) :: GetConfigValue(data, o)
  }

  /** The variable store after the phase, and the exception that escaped it. */
  datatype Outcome = Outcome(variables: map<string, Value>, error: Option<NemoError>)

  /** ingest_default_configs on the store `vars`, given the base
      configuration (None when the file does not exist). */
  function Ingest(vars: map<string, Value>, config: Option<map<string, Value>>): Outcome {
    match config
    case None => Outcome(vars, None)
    case Some(data) =>
      var defined := WithDefaults(vars, ConfigDefaults(data));
      match FfnHiddenSize(GetConfigValue(data, FfnHiddenSizeName))
      case Success(v) => Outcome(defined[FfnHiddenSizeName := v], None)
      case Failure(err) => Outcome(defined, Some(err))
  }

  /** Without a base configuration nothing changes. */
  lemma IngestWithoutConfig(vars: map<string, Value>)
    ensures Ingest(vars, None) == Outcome(vars, None)
  {
  }

  /** With a base configuration every variable other than
      model.ffn_hidden_size keeps its definition and every option not yet
      defined takes its configured value. */
  lemma IngestKeepsAndDefines(vars: map<string, Value>, data: map<string, Value>)
    ensures forall k :: k in vars && k != FfnHiddenSizeName ==>
      k in Ingest(vars, Some(data)).variables && Ingest(vars, Some(data)).variables[k] == vars[k]
    ensures forall o :: o in AllConfigOptions(data) && o !in vars && o != FfnHiddenSizeName ==>
      o in Ingest(vars, Some(data)).variables && Ingest(vars, Some(data)).variables[o] == GetConfigValue(data, o)
  {
    var ffn := FfnHiddenSize(GetConfigValue(data, FfnHiddenSizeName));
    DefaultsThenOverride(vars, ConfigDefaults(data), ffn, Ingest(vars, Some(data)).variables);
  }

  /** Filling in defaults and then, when int() read it, overriding
      model.ffn_hidden_size keeps every other variable and defines every
      other default not yet defined. */
  lemma DefaultsThenOverride(vars: map<string, Value>, defaults: map<string, Value>,
                             ffn: Result<Value, NemoError>, out: map<string, Value>)
    requires out == if ffn.Success? then WithDefaults(vars, defaults)[FfnHiddenSizeName := ffn.value] else WithDefaults(vars, defaults)
    ensures forall k :: k in vars && k != FfnHiddenSizeName ==> k in out && out[k] == vars[k]
    ensures forall o :: o in defaults && o !in vars && o != FfnHiddenSizeName ==> o in out && out[o] == defaults[o]
  {
  }

  /** model.ffn_hidden_size ends up an integer or the fallback, unless int()
      raised TypeError, which is the only way the phase fails. */
  lemma IngestFfnHiddenSize(vars: map<string, Value>, data: map<string, Value>)
    ensures Ingest(vars, Some(data)).error.None? ==>
      var v := Ingest(vars, Some(data)).variables;
      FfnHiddenSizeName in v && (v[FfnHiddenSizeName].Int? || v[FfnHiddenSizeName] == Str(FfnFallback))
    ensures Ingest(vars, Some(data)).error.Some? <==> FfnHiddenSize(GetConfigValue(data, FfnHiddenSizeName)).Failure?
    ensures Ingest(vars, Some(data)).error.Some? ==>
      Ingest(vars, Some(data)).error == Some(TypeError(GetConfigValue(data, FfnHiddenSizeName)))
  {
    FfnHiddenSizeCases(GetConfigValue(data, FfnHiddenSizeName));
  }

  /** The value from the configuration overrides a user's own definition of
      model.ffn_hidden_size whenever int() reads it. */
  lemma IngestOverridesFfnHiddenSize(vars: map<string, Value>, data: map<string, Value>, n: int)
    requires GetConfigValue(data, FfnHiddenSizeName) == Int(n)
    ensures Ingest(vars, Some(data)).variables[FfnHiddenSizeName] == Int(n)
  {
  }

  /** _ingest_default_configs, on the application's variable store. */
  method IngestDefaultConfigs(app: Application, config: Option<map<string, Value>>) returns (error: Option<NemoError>)
    modifies app`variables
    ensures Outcome(app.variables, error) == Ingest(old(app.variables), config)
  {
    error := None;
    if config.None? {
      return;
    }
    var data := config.value;
    app.DefineMissing(ConfigDefaults(data));
    match FfnHiddenSize(GetConfigValue(data, FfnHiddenSizeName))
    case Success(v) =>
      app.DefineVariable(FfnHiddenSizeName, v);
    case Failure(err) =>
      error := Some(err);
  }

  // ---------------------------------------------------------------------
  // write_config

  /** The names write_config sets or removes: those with a dot. */
  predicate IsOptionName(name: string) {
    '.' in name
  }

  /** A dotted name always splits into more than one key, so the source's
      second test on the split adds nothing. */
  lemma {:induction false} OptionNameHasSeveralKeys(name: string)
    requires IsOptionName(name)
    ensures |PathOf(name)| > 1
  {
    SeparatorSplits(name, '.');
  }

  lemma {:induction false} SeparatorSplits(s: string, sep: char)
    requires sep in s
    ensures |Split(s, sep)| > 1
  {
    if s[0] != sep {
      SeparatorSplits(s[1..], sep);
    }
  }

  /** The typed expansions of the items of a list, the first failure escaping. */
  function ExpandItems(e: Expander, items: seq<Value>): Result<seq<Value>, ExpanderError> {
    if items == [] then Success([])
    else
      var x := e.expandTyped(items[0]);
      if x.Failure? then Failure(x.error)
      else
        var xs := ExpandItems(e, items[1..]);
        if xs.Failure? then xs else Success([x.value] + xs.value)
  }

  /** On success each item is replaced by its typed expansion; the list
      fails exactly when some item fails. */
  lemma {:induction false} ExpandItemsMeaning(e: Expander, items: seq<Value>)
    ensures ExpandItems(e, items).Success? ==>
      && |ExpandItems(e, items).value| == |items|
      && forall i :: 0 <= i < |items| ==> e.expandTyped(items[i]) == Success(ExpandItems(e, items).value[i])
    ensures ExpandItems(e, items).Failure? <==> exists i :: 0 <= i < |items| && e.expandTyped(items[i]).Failure?
  {
    if items != [] {
      ExpandItemsMeaning(e, items[1..]);
      assert forall i :: 1 <= i < |items| ==> items[i] == items[1..][i - 1];
    }
  }

  /** The loop that expands each item of a list in place. */
  method ExpandListItems(e: Expander, items: seq<Value>) returns (r: Result<seq<Value>, ExpanderError>)
    ensures r == ExpandItems(e, items)
  {
    var xs := items;
    var i := 0;
    while i < |xs|
      invariant 0 <= i <= |xs| == |items|
      invariant xs[i..] == items[i..]
      invariant ExpandItems(e, items[..i]) == Success(xs[..i])
    {
      var x := e.expandTyped(xs[i]);
      if x.Failure? {
        ExpandItemsFailure(e, items, i);
        return Failure(x.error);
      }
      ExpandItemsAppend(e, items[..i], xs[..i], items[i], x.value);
      assert items[..i + 1] == items[..i] + [items[i]];
      xs := xs[i := x.value];
      assert xs[..i + 1] == xs[..i] + [x.value];
      i := i + 1;
    }
    assert items[..i] == items && xs[..i] == xs;
    return Success(xs);
  }

  lemma {:induction false} ExpandItemsAppend(e: Expander, items: seq<Value>, done: seq<Value>, item: Value, x: Value)
    requires ExpandItems(e, items) == Success(done) && e.expandTyped(item) == Success(x)
    ensures ExpandItems(e, items + [item]) == Success(done + [x])
  {
    if items != [] {
      assert (items + [item])[1..] == items[1..] + [item];
      assert e.expandTyped(items[0]) == Success(done[0]);
      assert ExpandItems(e, items[1..]) == Success(done[1..]);
      ExpandItemsAppend(e, items[1..], done[1..], item, x);
      assert (items + [item])[0] == items[0];
      assert ExpandItems(e, items + [item]) == Success([done[0]] + (done[1..] + [x]));
      assert [done[0]] + (done[1..] + [x]) == done + [x];
    } else {
      assert done == [] && items + [item] == [item];
      assert [item][0] == item && [item][1..] == [];
      assert ExpandItems(e, []) == Success([]);
      assert ExpandItems(e, [item]) == Success([x] + []);
      assert [x] + [] == [x] && done + [x] == [x];
    }
  }

  lemma {:induction false} ExpandItemsFailure(e: Expander, items: seq<Value>, i: nat)
    requires i < |items| && ExpandItems(e, items[..i]).Success? && e.expandTyped(items[i]).Failure?
    ensures ExpandItems(e, items) == Failure(e.expandTyped(items[i]).error)
  {
    if i > 0 {
      assert items[..i][1..] == items[1..][..i - 1];
      ExpandItemsFailure(e, items[1..], i - 1);
    }
  }

  /** The value written for a variable: its typed expansion, except that a
      tuple falls back to the untyped expansion and the items of a list are
      each expanded typed. */
  function ConfigValue(e: Expander, name: string): Result<Value, NemoError> {
    match e.expandTyped(Str(ExpansionStr(name)))
    case Failure(err) => Failure(ExpansionFailed(err))
    case Success(v) =>
      if v.Tuple? then
        match e.expandVar(ExpansionStr(name), true)
        case Success(s) => Success(Str(s))
        case Failure(err) => Failure(ExpansionFailed(err))
      else if v.List? then
        match ExpandItems(e, v.items)
        case Success(xs) => Success(List(xs))
        case Failure(err) => Failure(ExpansionFailed(err))
      else Success(v)
  }

  /** What the configuration holds for a variable is never a tuple: tuples
      become strings, lists keep their length, anything else is written as
      its typed expansion. */
  lemma ConfigValueShape(e: Expander, name: string)
    ensures ConfigValue(e, name).Success? ==> !ConfigValue(e, name).value.Tuple?
    ensures e.expandTyped(Str(ExpansionStr(name))).Success? && e.expandTyped(Str(ExpansionStr(name))).value.Tuple? ==>
      ConfigValue(e, name) == (match e.expandVar(ExpansionStr(name), true)
                               case Success(s) => Success(Str(s))
                               case Failure(err) => Failure(ExpansionFailed(err)))
    ensures e.expandTyped(Str(ExpansionStr(name))).Success? && e.expandTyped(Str(ExpansionStr(name))).value.List? &&
            ConfigValue(e, name).Success? ==>
      ConfigValue(e, name).value.List? &&
      |ConfigValue(e, name).value.items| == |e.expandTyped(Str(ExpansionStr(name))).value.items|
    ensures e.expandTyped(Str(ExpansionStr(name))).Failure? ==>
      ConfigValue(e, name) == Failure(ExpansionFailed(e.expandTyped(Str(ExpansionStr(name))).error))
  {
    var t := e.expandTyped(Str(ExpansionStr(name)));
    if t.Success? && t.value.List? {
      ExpandItemsMeaning(e, t.value.items);
    }
  }

  /** The configuration after a phase that stops at the first escaping
      exception, with that exception. */
  datatype Written = Written(data: map<string, Value>, error: Option<NemoError>)

  /** Setting each dotted variable, in the order the variables are held,
      with force. */
  function SetOptions(data: map<string, Value>, e: Expander, names: seq<string>): Written
    decreases |names|
  {
    if names == [] then Written(data, None)
    else if !IsOptionName(names[0]) then SetOptions(data, e, names[1..])
    else
      match ConfigValue(e, names[0])
      case Failure(err) => Written(data, Some(err))
      case Success(v) => SetOptions(SetPath(data, PathOf(names[0]), v, true), e, names[1..])
  }

  /** Removing each dotted name, in order. */
  function RemoveOptions(data: map<string, Value>, removes: seq<string>): map<string, Value>
    decreases |removes|
  {
    if removes == [] then data
    else RemoveOptions(if IsOptionName(removes[0]) then RemovePath(data, PathOf(removes[0])) else data, removes[1..])
  }

  /** The configuration write_config dumps: the base configuration with the
      dotted variables set and then the dotted names to remove removed. */
  function WriteSpec(data: map<string, Value>, e: Expander, names: seq<string>, removes: seq<string>): Written {
    var w := SetOptions(data, e, names);
    if w.error.Some? then w else Written(RemoveOptions(w.data, removes), None)
  }

  /** The dotted names among the variables. */
  function OptionNames(names: seq<string>): (r: seq<string>)
    ensures forall n :: n in r <==> n in names && IsOptionName(n)
  {
    if names == [] then []
    else (if IsOptionName(names[0]) then [names[0]] else []) + OptionNames(names[1..])
  }

  /** Variables without a dot play no part in the written configuration. */
  lemma {:induction false} UndottedNamesIgnored(data: map<string, Value>, e: Expander, names: seq<string>)
    ensures SetOptions(data, e, names) == SetOptions(data, e, OptionNames(names))
    decreases |names|
  {
    if names != [] {
      if IsOptionName(names[0]) {
        assert OptionNames(names)[0] == names[0];
        assert OptionNames(names)[1..] == OptionNames(names[1..]);
        match ConfigValue(e, names[0])
        case Failure(_) =>
        case Success(v) => UndottedNamesIgnored(SetPath(data, PathOf(names[0]), v, true), e, names[1..]);
      } else {
        assert OptionNames(names) == OptionNames(names[1..]);
        UndottedNamesIgnored(data, e, names[1..]);
      }
    }
  }

  /** Every dotted name to remove is absent from the result, whatever the
      order and whatever came before. */
  lemma {:induction false} RemovedOptionsAbsent(data: map<string, Value>, removes: seq<string>)
    ensures forall r :: r in removes && IsOptionName(r) ==> GetPath(Dict(RemoveOptions(data, removes)), PathOf(r)) == None
    decreases |removes|
  {
    if removes != [] {
      var next := if IsOptionName(removes[0]) then RemovePath(data, PathOf(removes[0])) else data;
      RemovedOptionsAbsent(next, removes[1..]);
      if IsOptionName(removes[0]) {
        RemoveMakesAbsent(data, PathOf(removes[0]));
        StaysAbsent(next, removes[1..], PathOf(removes[0]));
      }
    }
  }

  lemma {:induction false} StaysAbsent(data: map<string, Value>, removes: seq<string>, q: seq<string>)
    requires GetPath(Dict(data), q) == None
    ensures GetPath(Dict(RemoveOptions(data, removes)), q) == None
    decreases |removes|
  {
    if removes != [] {
      if IsOptionName(removes[0]) {
        RemoveKeepsAbsent(data, PathOf(removes[0]), q);
      }
      StaysAbsent(if IsOptionName(removes[0]) then RemovePath(data, PathOf(removes[0])) else data, removes[1..], q);
    }
  }

  /** When nothing escapes, no removed option survives in the written
      configuration, even when a variable set it. */
  lemma WriteRemovesOptions(data: map<string, Value>, e: Expander, names: seq<string>, removes: seq<string>)
    requires WriteSpec(data, e, names, removes).error.None?
    ensures forall r :: r in removes && IsOptionName(r) ==>
      GetPath(Dict(WriteSpec(data, e, names, removes).data), PathOf(r)) == None
  {
    RemovedOptionsAbsent(SetOptions(data, e, names).data, removes);
  }

  /** A dotted variable set last, with no removal, is found at its path with
      the value of its expansion. */
  lemma WriteSetsLastOption(data: map<string, Value>, e: Expander, name: string, v: Value)
    requires IsOptionName(name) && ConfigValue(e, name) == Success(v)
    requires Settable(data, PathOf(name), true)
    ensures WriteSpec(data, e, [name], []) == Written(SetPath(data, PathOf(name), v, true), None)
    ensures GetPath(Dict(WriteSpec(data, e, [name], []).data), PathOf(name)) == Some(v)
  {
    assert [name][0] == name && [name][1..] == [];
    var updated := SetPath(data, PathOf(name), v, true);
    assert SetOptions(data, e, [name]) == SetOptions(updated, e, []) == Written(updated, None);
    assert RemoveOptions(updated, []) == updated;
    GetAfterSet(data, PathOf(name), v, true);
  }

  /** _write_config on the configuration read from the base file (None when
      it does not exist, and then nothing is written); `names` are the
      variables in the order the application holds them. */
  method WriteConfig(base: Option<map<string, Value>>, e: Expander, names: seq<string>, removes: seq<string>)
    returns (r: Option<Written>)
    ensures base.None? ==> r.None?
    ensures base.Some? ==> r == Some(WriteSpec(base.value, e, names, removes))
  {
    if base.None? {
      return None;
    }
    var config := new ConfigData(base.value);
    var i := 0;
    while i < |names|
      invariant 0 <= i <= |names|
      invariant SetOptions(base.value, e, names) == SetOptions(config.data, e, names[i..])
    {
      var name := names[i];
      assert names[i..][1..] == names[i + 1..];
      if IsOptionName(name) {
        var typed := e.expandTyped(Str(ExpansionStr(name)));
        var value: Value;
        if typed.Failure? {
          return Some(Written(config.data, Some(ExpansionFailed(typed.error))));
        } else if typed.value.Tuple? {
          var s := e.expandVar(ExpansionStr(name), true);
          if s.Failure? {
            return Some(Written(config.data, Some(ExpansionFailed(s.error))));
          }
          value := Str(s.value);
        } else if typed.value.List? {
          var items := ExpandListItems(e, typed.value.items);
          if items.Failure? {
            return Some(Written(config.data, Some(ExpansionFailed(items.error))));
          }
          value := List(items.value);
        } else {
          value := typed.value;
        }
        assert ConfigValue(e, name) == Success(value);
        config.SetConfigValue(name, value, true);
      }
      i := i + 1;
    }
    ghost var written := config.data;
    i := 0;
    while i < |removes|
      invariant 0 <= i <= |removes|
      invariant RemoveOptions(written, removes) == RemoveOptions(config.data, removes[i..])
    {
      assert removes[i..][1..] == removes[i + 1..];
      if IsOptionName(removes[i]) {
        config.RemoveConfigValue(removes[i]);
      }
      i := i + 1;
    }
    return Some(Written(config.data, None));
  }

  // ---------------------------------------------------------------------
  // preprocess_log

  const ControlChar: char := '\U{13}'
  const GarbledPair: string := ['\U{96}', '\U{88}']
  const CircumflexA: char := '\U{e2}'

  /** The cleaned log: the control character becomes a line break, and the
      garbled pair and the stray 'â' are dropped. */
  function CleanLog(data: string): string {
    Replace(Replace(Replace(data, [ControlChar], "\n"), GarbledPair, ""), [CircumflexA], "")
  }

  /** The cleaned log holds neither the control character nor 'â'. */
  lemma CleanLogRemoves(data: string)
    ensures ControlChar !in CleanLog(data) && CircumflexA !in CleanLog(data)
  {
    var s1 := Replace(data, [ControlChar], "\n");
    ReplaceCharRemovesIt(data, ControlChar, "\n");
    var s2 := Replace(s1, GarbledPair, "");
    ReplaceKeepsCharOut(s1, GarbledPair, "", ControlChar);
    ReplaceKeepsCharOut(s2, [CircumflexA], "", ControlChar);
    ReplaceCharRemovesIt(s2, CircumflexA, "");
  }

  /** The length of the first line of text, its line break included. */
  function LineLength(text: string): (n: nat)
    requires text != []
    ensures 1 <= n <= |text|
  {
    if text[0] == '\n' || |text| == 1 then 1 else 1 + LineLength(text[1..])
  }

  /** The first line has no line break before its end, and ends in one
      unless it is all of the text. */
  lemma {:induction false} LineLengthShape(text: string)
    requires text != []
    ensures '\n' !in text[..LineLength(text) - 1]
    ensures LineLength(text) < |text| ==> text[LineLength(text) - 1] == '\n'
  {
    if !(text[0] == '\n' || |text| == 1) {
      var n := LineLength(text[1..]);
      LineLengthShape(text[1..]);
      assert text[..n] == [text[0]] + text[1..][..n - 1];
    }
  }

  /** readlines(): the lines of the text, each with its line break, the last
      one without a break when the text does not end in one. */
  function ReadLines(text: string): seq<string>
    decreases |text|
  {
    if text == [] then []
    else
      var n := LineLength(text);
      [text[..n]] + ReadLines(text[n..])
  }

  /** Every line is non-empty with a line break at most at its end, and
      every line but the last ends in one. */
  lemma {:induction false} ReadLinesShape(text: string)
    ensures forall i :: 0 <= i < |ReadLines(text)| ==>
      ReadLines(text)[i] != [] && '\n' !in ReadLines(text)[i][..|ReadLines(text)[i]| - 1]
    ensures forall i :: 0 <= i < |ReadLines(text)| - 1 ==> ReadLines(text)[i][|ReadLines(text)[i]| - 1] == '\n'
    decreases |text|
  {
    if text != [] {
      var n := LineLength(text);
      var rest := ReadLines(text[n..]);
      LineLengthShape(text);
      ReadLinesShape(text[n..]);
      var lines := [text[..n]] + rest;
      assert ReadLines(text) == lines;
      assert text[..n][..n - 1] == text[..n - 1];
      assert rest != [] ==> n < |text|;
      forall i | 0 <= i < |lines|
        ensures lines[i] != [] && '\n' !in lines[i][..|lines[i]| - 1]
      {
        if i > 0 {
          assert lines[i] == rest[i - 1];
        } else {
          assert lines[0] == text[..n];
        }
      }
      forall i | 0 <= i < |lines| - 1
        ensures lines[i][|lines[i]| - 1] == '\n'
      {
        if i > 0 {
          assert lines[i] == rest[i - 1];
        } else {
          assert lines[0] == text[..n] && text[..n][n - 1] == text[n - 1];
        }
      }
    }
  }

  function Concat(xs: seq<string>): string {
    if xs == [] then [] else xs[0] + Concat(xs[1..])
  }

  /** The lines put back together are the text. */
  lemma {:induction false} ReadLinesConcat(text: string)
    ensures Concat(ReadLines(text)) == text
    decreases |text|
  {
    if text != [] {
      var n := LineLength(text);
      ReadLinesConcat(text[n..]);
      ConcatCons(text[..n], ReadLines(text[n..]));
      TakeDrop(text, n);
    }
  }

  lemma ConcatCons(line: string, lines: seq<string>)
    ensures Concat([line] + lines) == line + Concat(lines)
  {
    assert ([line] + lines)[1..] == lines;
  }

  lemma TakeDrop(s: string, n: nat)
    requires n <= |s|
    ensures s[..n] + s[n..] == s
  {
  }

  /** 60 to the power k. */
  function Pow60(k: nat): (p: nat)
    ensures p >= 1
  {
    if k == 0 then 1 else 60 * Pow60(k - 1)
  }

  /** The value of digits in base 60, most significant first. */
  function Base60(ds: seq<int>): int {
    if ds == [] then 0 else 60 * Base60(ds[..|ds| - 1]) + ds[|ds| - 1]
  }

  /** A leading digit is worth its value times 60 to the number of digits
      after it. */
  lemma {:induction false} Base60Prepend(d: int, rest: seq<int>)
    ensures Base60([d] + rest) == d * Pow60(|rest|) + Base60(rest)
    decreases |rest|
  {
    if rest == [] {
      assert ([d] + rest)[..0] == [];
    } else {
      var n := |rest|;
      assert ([d] + rest)[..n] == [d] + rest[..n - 1];
      Base60Prepend(d, rest[..n - 1]);
      assert d * Pow60(n) == 60 * (d * Pow60(n - 1)) by {
        assert Pow60(n) == 60 * Pow60(n - 1);
      }
    }
  }

  /** "12:34" is 754 seconds and "1:02:03" is 3723. */
  lemma Base60Examples()
    ensures Base60([12, 34]) == 754
    ensures Base60([1, 2, 3]) == 3723
  {
    assert [12, 34][..1] == [12];
    assert [1, 2, 3][..2] == [1, 2];
    assert [1, 2][..1] == [1];
    assert [12][..0] == [] && [1][..0] == [];
  }

  /** int() of each part, the last part read first, so that the rightmost
      part int() rejects is the one reported. */
  function ParseParts(parts: seq<string>): (r: Result<seq<int>, NemoError>)
    ensures r.Success? ==> |r.value| == |parts|
  {
    if parts == [] then Success([])
    else
      var rest := ParseParts(parts[1..]);
      if rest.Failure? then rest
      else if ParseInt(parts[0]).None? then Failure(ValueError(parts[0]))
      else Success([ParseInt(parts[0]).value] + rest.value)
  }

  /** The seconds of an elapsed time written as colon-separated parts. */
  function TimestampSeconds(timestamp: string): Result<int, NemoError> {
    var ds := ParseParts(Split(timestamp, ':'));
    if ds.Failure? then Failure(ds.error) else Success(Base60(ds.value))
  }

  /** The loop over the reversed parts with a running multiplier. */
  method FromTimestamp(timestamp: string) returns (r: Result<int, NemoError>)
    ensures r == TimestampSeconds(timestamp)
  {
    var parts := Split(timestamp, ':');
    var partSeconds := 0;
    var mult := 1;
    var i := |parts|;
    ghost var ds: seq<int> := [];
    assert parts[i..] == [];
    while i > 0
      invariant 0 <= i <= |parts|
      invariant ParseParts(parts[i..]) == Success(ds)
      invariant partSeconds == Base60(ds) && mult == Pow60(|parts| - i)
    {
      assert parts[i - 1..][1..] == parts[i..];
      var v := ParseInt(parts[i - 1]);
      if v.None? {
        ParsePartsFails(parts, i - 1);
        return Failure(ValueError(parts[i - 1]));
      }
      Base60Prepend(v.value, ds);
      partSeconds := partSeconds + v.value * mult;
      mult := mult * 60;
      ds := [v.value] + ds;
      i := i - 1;
    }
    assert parts[0..] == parts;
    return Success(partSeconds);
  }

  lemma {:induction false} ParsePartsFails(parts: seq<string>, i: nat)
    requires i < |parts| && ParseParts(parts[i + 1..]).Success? && ParseInt(parts[i]).None?
    ensures ParseParts(parts) == Failure(ValueError(parts[i]))
  {
    assert parts[i..][1..] == parts[i + 1..];
    if i > 0 {
      assert parts[1..][i..] == parts[i + 1..] && parts[1..][i - 1..] == parts[i..];
      ParsePartsFails(parts[1..], i - 1);
    }
  }

  /** The seconds one line contributes: none unless the final-epoch
      pattern matches it; `matcher` gives a matching line's elapsed_time
      group. */
  function LineSeconds(line: string, matcher: string -> Option<string>): Result<int, NemoError> {
    if matcher(line).None? then Success(0) else TimestampSeconds(matcher(line).value)
  }

  /** The rule giving a line's contribution. */
  function SecondsRule(matcher: string -> Option<string>): string -> Result<int, NemoError> {
    line => LineSeconds(line, matcher)
  }

  /** Each line's contribution under a rule, in order. */
  function Contributions(lines: seq<string>, rule: string -> Result<int, NemoError>): (rs: seq<Result<int, NemoError>>)
    ensures |rs| == |lines| && forall i :: 0 <= i < |lines| ==> rs[i] == rule(lines[i])
  {
    seq(|lines|, i requires 0 <= i < |lines| => rule(lines[i]))
  }

  /** The contributions of two runs of lines are those of each run, in order. */
  lemma ContributionsAppend(a: seq<string>, b: seq<string>, rule: string -> Result<int, NemoError>)
    ensures Contributions(a + b, rule) == Contributions(a, rule) + Contributions(b, rule)
  {
    var ra, rb, rab := Contributions(a, rule), Contributions(b, rule), Contributions(a + b, rule);
    forall i | 0 <= i < |rab| ensures rab[i] == (ra + rb)[i] {
      if i < |a| {
        assert (a + b)[i] == a[i];
      } else {
        assert (a + b)[i] == b[i - |a|];
      }
    }
  }

  /** The contribution of each line, in order. */
  function LineResults(lines: seq<string>, matcher: string -> Option<string>): (rs: seq<Result<int, NemoError>>)
    ensures |rs| == |lines| && forall i :: 0 <= i < |lines| ==> rs[i] == LineSeconds(lines[i], matcher)
  {
    Contributions(lines, SecondsRule(matcher))
  }

  /** A running total added to a partial result. */
  function AddTo(acc: int, r: Result<int, NemoError>): Result<int, NemoError> {
    if r.Success? then Success(acc + r.value) else r
  }

  /** The sum of the contributions, or the first failure. */
  function Total(rs: seq<Result<int, NemoError>>): Result<int, NemoError> {
    if rs == [] then Success(0)
    else if rs[0].Failure? then rs[0]
    else AddTo(rs[0].value, Total(rs[1..]))
  }

  /** The elapsed seconds of the lines of a log. */
  function ElapsedSum(lines: seq<string>, matcher: string -> Option<string>): Result<int, NemoError> {
    Total(LineResults(lines, matcher))
  }

  /** Contributions that are all zero total zero. */
  lemma {:induction false} TotalOfZeros(rs: seq<Result<int, NemoError>>)
    requires forall i :: 0 <= i < |rs| ==> rs[i] == Success(0)
    ensures Total(rs) == Success(0)
  {
    if rs != [] {
      TotalOfZeros(rs[1..]);
    }
  }

  /** A log whose lines never match reports zero seconds. */
  lemma NoMatchIsZero(lines: seq<string>, matcher: string -> Option<string>)
    requires forall i :: 0 <= i < |lines| ==> matcher(lines[i]).None?
    ensures ElapsedSum(lines, matcher) == Success(0)
  {
    TotalOfZeros(LineResults(lines, matcher));
  }

  /** The total of two runs of contributions is the sum of their totals. */
  lemma {:induction false} TotalAppend(a: seq<Result<int, NemoError>>, b: seq<Result<int, NemoError>>)
    requires Total(a).Success? && Total(b).Success?
    ensures Total(a + b) == Success(Total(a).value + Total(b).value)
  {
    if a != [] {
      assert (a + b)[0] == a[0] && (a + b)[1..] == a[1..] + b;
      TotalAppend(a[1..], b);
    } else {
      assert a + b == b;
    }
  }

  /** The first failing contribution is the one that escapes. */
  lemma {:induction false} TotalFailure(rs: seq<Result<int, NemoError>>, i: nat)
    requires i < |rs| && rs[i].Failure? && forall j :: 0 <= j < i ==> rs[j].Success?
    ensures Total(rs) == rs[i]
  {
    if i > 0 {
      TotalFailure(rs[1..], i - 1);
    }
  }

  /** The seconds of a log are the seconds of its first part plus those of
      the rest. */
  lemma ElapsedSumAppend(a: seq<string>, b: seq<string>, matcher: string -> Option<string>)
    requires ElapsedSum(a, matcher).Success? && ElapsedSum(b, matcher).Success?
    ensures ElapsedSum(a + b, matcher) == Success(ElapsedSum(a, matcher).value + ElapsedSum(b, matcher).value)
  {
    TotalOfContributionsAppend(a, b, SecondsRule(matcher));
  }

  /** The total under any rule is additive over runs of lines. */
  lemma TotalOfContributionsAppend(a: seq<string>, b: seq<string>, rule: string -> Result<int, NemoError>)
    requires Total(Contributions(a, rule)).Success? && Total(Contributions(b, rule)).Success?
    ensures Total(Contributions(a + b, rule)) ==
      Success(Total(Contributions(a, rule)).value + Total(Contributions(b, rule)).value)
  {
    ContributionsAppend(a, b, rule);
    TotalAppend(Contributions(a, rule), Contributions(b, rule));
  }

  const SecondsPrefix := "Elapsed seconds: "

  /** The text of the elapsed-seconds file. */
  function SecondsReport(n: int): string {
    SecondsPrefix + IntToString(n)
  }

  /** The longest run of digits that starts s. */
  function LeadingDigits(s: string): (d: string)
    ensures |d| <= |s| && d == s[..|d|]
    ensures forall i :: 0 <= i < |d| ==> IsDigit(d[i])
  {
    if s == [] || !IsDigit(s[0]) then [] else [s[0]] + LeadingDigits(s[1..])
  }

  /** The "Final Elapsed Seconds" figure of merit, `Elapsed seconds:
      (?P<seconds>[0-9]+)` matched at the start of the text. */
  function ReadSeconds(text: string): Option<nat> {
    if !StartsWith(text, SecondsPrefix) then None
    else
      var d := LeadingDigits(text[|SecondsPrefix|..]);
      if d == [] then None else Some(DecimalValue(d))
  }

  /** The figure of merit reads the reported seconds back, and finds nothing
      when the sum is negative. */
  lemma ReportReadBack(n: int)
    ensures n >= 0 ==> ReadSeconds(SecondsReport(n)) == Some(n)
    ensures n < 0 ==> ReadSeconds(SecondsReport(n)) == None
  {
    var r := SecondsReport(n);
    assert r[..|SecondsPrefix|] == SecondsPrefix;
    assert r[|SecondsPrefix|..] == IntToString(n);
    if n >= 0 {
      AllDigitsLead(NatToString(n));
    }
  }

  lemma {:induction false} AllDigitsLead(s: string)
    requires forall i :: 0 <= i < |s| ==> IsDigit(s[i])
    ensures LeadingDigits(s) == s
  {
    if s != [] {
      AllDigitsLead(s[1..]);
    }
  }

  /** The files the phase writes: the cleaned log and the seconds report. */
  datatype Preprocessed = Preprocessed(processedLog: string, secondsFile: string)

  /** _preprocess_log on the log's contents (None when there is no log, and
      then nothing is written). */
  function Preprocess(log: Option<string>, matcher: string -> Option<string>): Result<Option<Preprocessed>, NemoError> {
    match log
    case None => Success(None)
    case Some(data) =>
      var cleaned := CleanLog(data);
      var n :- ElapsedSum(ReadLines(cleaned), matcher);
      Success(Some(Preprocessed(cleaned, SecondsReport(n))))
  }

  /** One step of the total from position i: a success is added to the
      running sum, and a failure is the result. */
  lemma TotalStep(rs: seq<Result<int, NemoError>>, i: nat, acc: int, v: Result<int, NemoError>)
    requires i < |rs| && rs[i] == v && Total(rs) == AddTo(acc, Total(rs[i..]))
    ensures v.Success? ==> Total(rs) == AddTo(acc + v.value, Total(rs[i + 1..]))
    ensures v.Failure? ==> Total(rs) == v
  {
    assert rs[i..][0] == rs[i] && rs[i..][1..] == rs[i + 1..];
  }

  /** One step of the loop over the lines: a line the matcher finds a
      timestamp in adds that timestamp's seconds, any other line adds
      nothing. */
  method LineElapsed(line: string, matcher: string -> Option<string>, ghost rule: string -> Result<int, NemoError>)
    returns (s: Result<int, NemoError>)
    requires forall l {:trigger LineSeconds(l, matcher)} :: rule(l) == LineSeconds(l, matcher)
    ensures s == rule(line)
  {
    var m := matcher(line);
    if m.Some? {
      s := FromTimestamp(m.value);
    } else {
      s := Success(0);
    }
    assert s == LineSeconds(line, matcher);
  }

  /** The loop over the lines of the processed log: elapsed_s accumulates
      the seconds of each matching line. `rule` is the seconds a line
      contributes, which the loop works out with the matcher and the
      timestamp conversion. */
  method SumElapsed(lines: seq<string>, matcher: string -> Option<string>, ghost rule: string -> Result<int, NemoError>)
    returns (r: Result<int, NemoError>)
    requires forall l {:trigger LineSeconds(l, matcher)} :: rule(l) == LineSeconds(l, matcher)
    ensures r == Total(Contributions(lines, rule))
  {
    ghost var rs := Contributions(lines, rule);
    var elapsed := 0;
    var i := 0;
    assert rs[0..] == rs;
    while i < |lines|
      invariant 0 <= i <= |lines|
      invariant Total(rs) == AddTo(elapsed, Total(rs[i..]))
    {
      var s := LineElapsed(lines[i], matcher, rule);
      TotalStep(rs, i, elapsed, s);
      if s.Failure? {
        return Failure(s.error);
      }
      elapsed := elapsed + s.value;
      i := i + 1;
    }
    assert rs[i..] == [];
    return Success(elapsed);
  }

  /** The phase on the log's contents: clean it, sum the elapsed times of
      its lines, and report them. */
  method PreprocessLog(log: Option<string>, matcher: string -> Option<string>) returns (r: Result<Option<Preprocessed>, NemoError>)
    ensures r == Preprocess(log, matcher)
  {
    if log.None? {
      return Success(None);
    }
    var cleaned := CleanLog(log.value);
    var elapsed := SumElapsed(ReadLines(cleaned), matcher, SecondsRule(matcher));
    if elapsed.Failure? {
      return Failure(elapsed.error);
    }
    return Success(Some(Preprocessed(cleaned, SecondsReport(elapsed.value))));
  }

  /** The `elapsed_time` group of the final-epoch pattern: `[0-9]+:[0-9]+`. */
  ghost predicate IsElapsedTime(t: string) {
    exists k :: 0 < k < |t| && t[k] == ':' && DigitRun(t[..k]) && DigitRun(t[k + 1..])
  }

  /** A matcher for the final-epoch pattern: every group it returns is an
      elapsed time. */
  ghost predicate FinalEpochMatcher(matcher: string -> Option<string>) {
    forall line :: matcher(line).Some? ==> IsElapsedTime(matcher(line).value)
  }

  /** int() accepts both parts of an elapsed time, so its seconds are a
      non-negative number. */
  lemma ElapsedTimeSeconds(t: string)
    requires IsElapsedTime(t)
    ensures TimestampSeconds(t).Success? && TimestampSeconds(t).value >= 0
  {
    var k :| 0 < k < |t| && t[k] == ':' && DigitRun(t[..k]) && DigitRun(t[k + 1..]);
    assert t == t[..k] + [':'] + t[k + 1..];
    ElapsedTimeParts(t[..k], t[k + 1..]);
    Base60Pair(DecimalValue(t[..k]), DecimalValue(t[k + 1..]));
  }

  /** `MM:SS` is read as the two base-60 digits MM and SS. */
  lemma ElapsedTimeParts(m: string, s: string)
    requires DigitRun(m) && DigitRun(s)
    ensures TimestampSeconds(m + [':'] + s) == Success(Base60([DecimalValue(m), DecimalValue(s)]))
  {
    SplitAroundColon(m, s);
    DigitRunsParse(m, s);
  }

  /** Two runs of digits joined by a colon split back into the two runs. */
  lemma SplitAroundColon(m: string, s: string)
    requires DigitRun(m) && DigitRun(s)
    ensures Split(m + [':'] + s, ':') == [m, s]
  {
    assert ':' !in m && ':' !in s;
    SplitConcat(m, s, ':');
    SplitWithoutSeparator(s, ':');
  }

  /** int() accepts two runs of digits, giving their decimal values. */
  lemma DigitRunsParse(a: string, b: string)
    requires DigitRun(a) && DigitRun(b)
    ensures ParseParts([a, b]) == Success([DecimalValue(a), DecimalValue(b)])
  {
    DigitRunParses(a);
    DigitRunParses(b);
    ParsePartsPair(a, b, DecimalValue(a), DecimalValue(b));
  }

  /** Two parts int() accepts parse to their two values. */
  lemma ParsePartsPair(a: string, b: string, va: int, vb: int)
    requires ParseInt(a) == Some(va) && ParseInt(b) == Some(vb)
    ensures ParseParts([a, b]) == Success([va, vb])
  {
    ParsePartsCons(b, []);
    assert [b] + [] == [b] && [vb] + [] == [vb];
    ParsePartsCons(a, [b]);
    assert [a] + [b] == [a, b] && [va] + [vb] == [va, vb];
  }

  /** A part int() accepts in front of parts it accepts adds its value in front. */
  lemma ParsePartsCons(part: string, rest: seq<string>)
    requires ParseParts(rest).Success? && ParseInt(part).Some?
    ensures ParseParts([part] + rest) == Success([ParseInt(part).value] + ParseParts(rest).value)
  {
    assert ([part] + rest)[0] == part && ([part] + rest)[1..] == rest;
  }

  /** Two base-60 digits: minutes and seconds. */
  lemma Base60Pair(m: int, s: int)
    ensures Base60([m, s]) == 60 * m + s
  {
    assert [m, s][..1] == [m] && [m][..0] == [];
    assert Base60([m]) == m;
  }

  /** Contributions that are all non-negative numbers total a non-negative
      number. */
  lemma {:induction false} TotalOfNonNegatives(rs: seq<Result<int, NemoError>>)
    requires forall i :: 0 <= i < |rs| ==> rs[i].Success? && rs[i].value >= 0
    ensures Total(rs).Success? && Total(rs).value >= 0
  {
    if rs != [] {
      TotalOfNonNegatives(rs[1..]);
    }
  }

  /** Under the final-epoch pattern no line's timestamp is rejected, and the
      elapsed seconds of a log are never negative. */
  lemma ElapsedSumSucceeds(lines: seq<string>, matcher: string -> Option<string>)
    requires FinalEpochMatcher(matcher)
    ensures ElapsedSum(lines, matcher).Success? && ElapsedSum(lines, matcher).value >= 0
  {
    var rs := LineResults(lines, matcher);
    forall i | 0 <= i < |rs| ensures rs[i].Success? && rs[i].value >= 0 {
      if matcher(lines[i]).Some? {
        ElapsedTimeSeconds(matcher(lines[i]).value);
      }
    }
    TotalOfNonNegatives(rs);
  }

  /** What the phase promises on an existing log: it succeeds, the cleaned
      log holds no control character and is kept whole by `readlines()`,
      and the seconds file reads back as the sum of the matched elapsed
      times. */
  lemma PreprocessReport(data: string, matcher: string -> Option<string>)
    requires FinalEpochMatcher(matcher)
    ensures Preprocess(Some(data), matcher).Success? && Preprocess(Some(data), matcher).value.Some?
    ensures var p := Preprocess(Some(data), matcher).value.value;
      && ControlChar !in p.processedLog
      && Concat(ReadLines(p.processedLog)) == CleanLog(data)
      && ReadSeconds(p.secondsFile) == Some(ElapsedSum(ReadLines(CleanLog(data)), matcher).value)
  {
    ElapsedSumSucceeds(ReadLines(CleanLog(data)), matcher);
    CleanLogRemoves(data);
    ReadLinesConcat(CleanLog(data));
    ReportReadBack(ElapsedSum(ReadLines(CleanLog(data)), matcher).value);
  }
}
