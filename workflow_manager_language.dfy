/** The directive language of workflow managers: workflow_manager_variable
    declares a variable of the manager. A directive call produces a
    definition; applying it stores the variable in the manager's wm_vars
    under its name, replacing any earlier declaration of that name. */
module WorkflowManagerLanguage {
  import opened Wrappers
  import opened Values
  import opened Application
  import opened WorkflowManager

  /** The closure the directive returns (_define_wm_variable), given by
      the variable it stores. */
  datatype WmVariableDefinition = DefineWmVariable(variable: WorkloadVariable)

  /** workflow_manager_variable(name, default, description, values=None). */
  function WorkflowManagerVariable(name: string, default: Value, description: string,
                                   values: Option<seq<Value>> := None): WmVariableDefinition
  {
    DefineWmVariable(WorkloadVariable(name, default, description, values))
  }

  /** The declarations after applying a sequence of definitions in order. */
  function Declared(vars: map<string, WorkloadVariable>, defs: seq<WmVariableDefinition>): map<string, WorkloadVariable> {
    if defs == [] then vars
    else Declared(vars, defs[..|defs| - 1])[defs[|defs| - 1].variable.name := defs[|defs| - 1].variable]
  }

  /** Every declaration is stored under its own name. */
  predicate KeyedByName(vars: map<string, WorkloadVariable>) {
    forall k :: k in vars ==> vars[k].name == k
  }

  /** _define_wm_variable(wm): stores the variable under its name and leaves
      every other declaration and the rest of the manager as they were. */
  method ApplyDefinition(wm: WorkflowManagerBase, def: WmVariableDefinition)
    modifies wm`wmVars
    ensures wm.wmVars == old(wm.wmVars)[def.variable.name := def.variable]
  {
    wm.wmVars := wm.wmVars[def.variable.name := def.variable];
  }

  /** Applies the definitions of a class body, in declaration order. */
  method ApplyDefinitions(wm: WorkflowManagerBase, defs: seq<WmVariableDefinition>)
    modifies wm`wmVars
    ensures wm.wmVars == Declared(old(wm.wmVars), defs)
  {
    for i := 0 to |defs|
      invariant wm.wmVars == Declared(old(wm.wmVars), defs[..i])
    {
      assert defs[..i + 1][..i] == defs[..i];
      ApplyDefinition(wm, defs[i]);
    }
    assert defs[..|defs|] == defs;
  }

  /** The names declared are the earlier ones plus the names of the
      definitions. */
  lemma {:induction false} DeclaredKeys(vars: map<string, WorkloadVariable>, defs: seq<WmVariableDefinition>)
    ensures Declared(vars, defs).Keys == vars.Keys + set i | 0 <= i < |defs| :: defs[i].variable.name
  {
    if defs != [] {
      var n := |defs| - 1;
      DeclaredKeys(vars, defs[..n]);
      var front := set i | 0 <= i < n :: defs[..n][i].variable.name;
      assert front == set i | 0 <= i < n :: defs[i].variable.name;
      assert (set i | 0 <= i < |defs| :: defs[i].variable.name) == front + {defs[n].variable.name};
    }
  }

  /** Names no definition mentions keep their declaration. */
  lemma {:induction false} DeclaredKeepsOthers(vars: map<string, WorkloadVariable>, defs: seq<WmVariableDefinition>)
    ensures forall k :: k in vars && (forall i :: 0 <= i < |defs| ==> defs[i].variable.name != k) ==>
      k in Declared(vars, defs) && Declared(vars, defs)[k] == vars[k]
  {
    if defs != [] {
      var n := |defs| - 1;
      DeclaredKeepsOthers(vars, defs[..n]);
      forall k | k in vars && (forall i :: 0 <= i < |defs| ==> defs[i].variable.name != k)
        ensures k in Declared(vars, defs) && Declared(vars, defs)[k] == vars[k]
      {
        assert forall i :: 0 <= i < n ==> defs[..n][i] == defs[i];
      }
    }
  }

  /** Last declaration wins: a name ends up with the variable of the last
      definition that declares it. */
  lemma {:induction false} LastDeclarationWins(vars: map<string, WorkloadVariable>, defs: seq<WmVariableDefinition>, i: nat)
    requires i < |defs|
    requires forall j :: i < j < |defs| ==> defs[j].variable.name != defs[i].variable.name
    ensures defs[i].variable.name in Declared(vars, defs)
    ensures Declared(vars, defs)[defs[i].variable.name] == defs[i].variable
  {
    var n := |defs| - 1;
    if i < n {
      LastDeclarationWins(vars, defs[..n], i);
    }
  }

  /** Applying directives keeps every declaration stored under its own name. */
  lemma {:induction false} DeclaredKeyedByName(vars: map<string, WorkloadVariable>, defs: seq<WmVariableDefinition>)
    requires KeyedByName(vars)
    ensures KeyedByName(Declared(vars, defs))
  {
    if defs != [] {
      DeclaredKeyedByName(vars, defs[..|defs| - 1]);
    }
  }

  /** A definition made by the directive declares exactly the variable named
      in the call, with the given default, description and suggested values. */
  lemma DirectiveDeclares(vars: map<string, WorkloadVariable>, name: string, default: Value,
                          description: string, values: Option<seq<Value>>)
    ensures Declared(vars, [WorkflowManagerVariable(name, default, description, values)]) ==
      vars[name := WorkloadVariable(name, default, description, values)]
    ensures Declared(vars, [WorkflowManagerVariable(name, default, description)])[name].values == None
  {
    assert [WorkflowManagerVariable(name, default, description, values)][..0] == [];
    assert [WorkflowManagerVariable(name, default, description)][..0] == [];
  }
}
