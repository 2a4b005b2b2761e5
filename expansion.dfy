/** The interface of the variable expander, which is not part of this model.
    An expander is given by what it renders: each template string either
    renders to a string or fails with an ExpanderError, and the typed
    variant renders a value to a typed value. Whether an undefined
    reference is passed through is an argument, as in the source. */
module Expansion {
  import opened Wrappers
  import opened Values

  /** The failures of expansion; callers that catch ExpanderError catch all of them. */
  datatype ExpanderError =
    | UndefinedVariable(name: string)
    | CyclicExpansion(name: string)
    | OtherExpansionError(message: string)

  datatype Expander = Expander(
    /** expand_var(template, allow_passthrough=...) */
    expandVar: (string, bool) -> Result<string, ExpanderError>,
    /** expand_var(value, typed=True) */
    expandTyped: Value -> Result<Value, ExpanderError>,
    /** expander.workload_name */
    workloadName: string)

  /** expansion_str(name): the reference token for a variable name. */
  function ExpansionStr(name: string): (r: string)
    ensures |r| == |name| + 2 && r[0] == '{' && r[|r| - 1] == '}' && r[1..|r| - 1] == name
  {
    "{" + name + "}"
  }

  /** expand_var_name(name, allow_passthrough=...): expansion of the
      reference token of the name. */
  function ExpandVarName(e: Expander, name: string, allowPassthrough: bool): Result<string, ExpanderError> {
    e.expandVar(ExpansionStr(name), allowPassthrough)
  }
}
