/** The part of an application instance that the modelled phases use: its
    expander and its variable store (`self.variables`), which
    `define_variable` updates in place. */
module Application {
  import opened Wrappers
  import opened Values
  import opened Expansion

  /** A declared variable (ramble.workload.WorkloadVariable, which is not
      part of this model beyond these four attributes). */
  datatype WorkloadVariable = WorkloadVariable(
    name: string,
    default: Value,
    description: string,
    values: Option<seq<Value>>)

  class Application {
    var expander: Expander
    var variables: map<string, Value>

    constructor(expander: Expander, variables: map<string, Value>)
      ensures this.expander == expander && this.variables == variables
    {
      this.expander := expander;
      this.variables := variables;
    }

    /** define_variable(name, value): the name now holds the value; every
        other variable keeps its definition. */
    method DefineVariable(name: string, value: Value)
      modifies this`variables
      ensures variables == old(variables)[name := value]
    {
      variables := variables[name := value];
    }

    /** Defines each default whose name is not yet defined, leaving every
        existing definition as it was (the `if name not in self.variables:
        self.define_variable(name, default)` loops). */
    method DefineMissing(defaults: map<string, Value>)
      modifies this`variables
      ensures variables == WithDefaults(old(variables), defaults)
    {
      var todo := defaults.Keys;
      while todo != {}
        invariant todo <= defaults.Keys
        invariant variables == WithDefaults(old(variables), RestrictKeys(defaults, defaults.Keys - todo))
        decreases todo
      {
        var k :| k in todo;
        DefineMissingStep(old(variables), defaults, defaults.Keys - todo, k);
        if k !in variables {
          DefineVariable(k, defaults[k]);
        }
        assert defaults.Keys - (todo - {k}) == (defaults.Keys - todo) + {k};
        todo := todo - {k};
      }
      RestrictToAllKeys(defaults);
    }
  }

  /** Defining one more default when its name is missing extends the
      defaults already applied by that one. */
  lemma DefineMissingStep(vars: map<string, Value>, defaults: map<string, Value>, done: set<string>, k: string)
    requires k in defaults && k !in done
    ensures var current := WithDefaults(vars, RestrictKeys(defaults, done));
      (if k !in current then current[k := defaults[k]] else current) ==
      WithDefaults(vars, RestrictKeys(defaults, done + {k}))
  {
  }

  /** Restricting a map to all of its keys leaves it as it is. */
  lemma RestrictToAllKeys(m: map<string, Value>)
    ensures RestrictKeys(m, m.Keys) == m
  {
  }

  function RestrictKeys(m: map<string, Value>, ks: set<string>): (r: map<string, Value>)
    ensures r.Keys == m.Keys * ks
    ensures forall k :: k in r ==> r[k] == m[k]
  {
    map k | k in m && k in ks :: m[k]
  }

  /** The store after defining the defaults that are missing: names already
      defined keep their value, the others take their default. */
  function WithDefaults(vars: map<string, Value>, defaults: map<string, Value>): (r: map<string, Value>)
    ensures r.Keys == vars.Keys + defaults.Keys
    ensures forall k :: k in vars ==> r[k] == vars[k]
    ensures forall k :: k in defaults && k !in vars ==> r[k] == defaults[k]
  {
    defaults + vars
  }
}
