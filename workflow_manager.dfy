/** The workflow-manager base class: the adapter between an experiment and
    an external batch scheduler (or none). It keeps the file it was defined
    in, a back-reference to the application instance it serves, and its
    declared variables; it renders optional templates best-effort. */
module WorkflowManager {
  import opened Wrappers
  import opened Expansion
  import opened Application

  /** The workspace, as far as a status query looks at it. */
  datatype Workspace = Workspace(dryRun: bool)

  /** The normalised experiment statuses that scheduler tokens map into
      (the members of experiment_status this model uses). */
  datatype ExperimentStatus = Unknown | Setup | Running | Complete | Cancelled

  /** What conditional_expand keeps of one template: its rendering with
      passthrough disabled, when that succeeds and is not empty. */
  function Kept(e: Expander, template: string): seq<string> {
    match e.expandVar(template, false)
    case Success(s) => if s != "" then [s] else []
    case Failure(_) => []
  }

  /** The template renders, with passthrough disabled, to a non-empty string. */
  predicate RendersNonEmpty(e: Expander, template: string) {
    e.expandVar(template, false).Success? && e.expandVar(template, false).value != ""
  }

  /** The list conditional_expand returns: the renderings, in template order,
      of the templates that render without error to a non-empty string. */
  function Rendered(e: Expander, templates: seq<string>): seq<string> {
    if templates == [] then []
    else Rendered(e, templates[..|templates| - 1]) + Kept(e, templates[|templates| - 1])
  }

  class WorkflowManagerBase {
    /** The class attribute `name`; None for the base class. */
    const name: Option<string>
    const filePath: string
    var appInst: Application?
    /** wm_vars: the variables declared with workflow_manager_variable. */
    var wmVars: map<string, WorkloadVariable>

    /** __init__(file_path): no application bound yet. The base class has no
        runner (its `runner` is None); see the Slurm manager for one that has. */
    constructor(name: Option<string>, filePath: string)
      ensures this.name == name && this.filePath == filePath
      ensures appInst == null && wmVars == map[]
    {
      this.name := name;
      this.filePath := filePath;
      appInst := null;
      wmVars := map[];
    }

    /** set_application: binds the back-reference and changes nothing else. */
    method SetApplication(app: Application)
      modifies this`appInst
      ensures appInst == app
    {
      appInst := app;
    }

    /** get_status of the base class: no scheduler, so no status, whatever
        the workspace. */
    function GetStatus(workspace: Workspace): (status: Option<ExperimentStatus>)
      ensures status == None
    {
      None
    }

    /** conditional_expand(templates): best-effort rendering; a template
        whose expansion fails is skipped and the failure goes no further. */
    method ConditionalExpand(templates: seq<string>) returns (expanded: seq<string>)
      requires appInst != null
      ensures expanded == Rendered(appInst.expander, templates)
    {
      var expander := appInst.expander;
      expanded := [];
      for i := 0 to |templates|
        invariant expanded == Rendered(expander, templates[..i])
      {
        assert templates[..i + 1][..i] == templates[..i];
        match expander.expandVar(templates[i], false) {
          case Success(rendered) =>
            if rendered != "" {
              expanded := expanded + [rendered];
            }
          case Failure(_) =>
        }
      }
      assert templates[..|templates|] == templates;
    }

    /** copy(): a new instance of the same class for the same file, with no
        application bound and nothing shared with this one. */
    method Copy() returns (c: WorkflowManagerBase)
      ensures fresh(c)
      ensures c.name == name && c.filePath == filePath
      ensures c.appInst == null && c.wmVars == map[]
    {
      c := new WorkflowManagerBase(name, filePath);
    }

    /** __str__: the class attribute `name`. */
    function Describe(): Option<string> {
      name
    }
  }

  // -----------------------------------------------------------------------
  // Properties of conditional_expand

  /** Every rendering kept is non-empty, there are never more renderings than
      templates, and no templates give no renderings. */
  lemma {:induction false} RenderedBounds(e: Expander, templates: seq<string>)
    ensures |Rendered(e, templates)| <= |templates|
    ensures forall j :: 0 <= j < |Rendered(e, templates)| ==> Rendered(e, templates)[j] != ""
    ensures templates == [] ==> Rendered(e, templates) == []
  {
    if templates != [] {
      RenderedBounds(e, templates[..|templates| - 1]);
    }
  }

  /** Rendering a concatenation renders each part. */
  lemma {:induction false} RenderedAppend(e: Expander, xs: seq<string>, ys: seq<string>)
    ensures Rendered(e, xs + ys) == Rendered(e, xs) + Rendered(e, ys)
    decreases |ys|
  {
    if ys == [] {
      assert xs + ys == xs;
    } else {
      var n := |ys| - 1;
      assert (xs + ys)[..|xs + ys| - 1] == xs + ys[..n];
      RenderedAppend(e, xs, ys[..n]);
    }
  }

  /** The result is the subsequence of renderings of exactly those templates
      that render to a non-empty string: idx lists their positions, in
      increasing order. */
  lemma {:induction false} RenderedIsOrderedSelection(e: Expander, templates: seq<string>) returns (idx: seq<nat>)
    ensures |idx| == |Rendered(e, templates)|
    ensures forall j :: 0 <= j < |idx| ==>
      idx[j] < |templates| && e.expandVar(templates[idx[j]], false) == Success(Rendered(e, templates)[j])
    ensures forall j, k :: 0 <= j < k < |idx| ==> idx[j] < idx[k]
    ensures forall i :: 0 <= i < |templates| ==> (RendersNonEmpty(e, templates[i]) <==> i in idx)
  {
    if templates == [] {
      idx := [];
    } else {
      var n := |templates| - 1;
      var init := templates[..n];
      var prev := RenderedIsOrderedSelection(e, init);
      assert forall i :: 0 <= i < n ==> init[i] == templates[i];
      if RendersNonEmpty(e, templates[n]) {
        idx := prev + [n];
      } else {
        idx := prev;
      }
    }
  }

  /** A template whose expansion fails is dropped without affecting the
      renderings of the others. */
  lemma FailingTemplateIsDropped(e: Expander, xs: seq<string>, t: string, ys: seq<string>)
    requires e.expandVar(t, false).Failure?
    ensures Rendered(e, xs + [t] + ys) == Rendered(e, xs + ys)
  {
    assert Rendered(e, xs + [t]) == Rendered(e, xs) by {
      assert (xs + [t])[..|xs|] == xs;
    }
    RenderedAppend(e, xs + [t], ys);
    RenderedAppend(e, xs, ys);
  }

  /** Only the passthrough-disabled expansions matter: two expanders that
      agree on them give the same result, whatever passthrough would do. */
  lemma {:induction false} RenderedUsesStrictExpansion(e1: Expander, e2: Expander, templates: seq<string>)
    requires forall t :: t in templates ==> e1.expandVar(t, false) == e2.expandVar(t, false)
    ensures Rendered(e1, templates) == Rendered(e2, templates)
  {
    if templates != [] {
      var n := |templates| - 1;
      assert templates[n] in templates;
      assert forall t :: t in templates[..n] ==> t in templates;
      RenderedUsesStrictExpansion(e1, e2, templates[..n]);
    }
  }

  /** The example of a defined and an undefined reference: only the defined
      one's rendering survives, even when passthrough would have rendered
      the undefined one. */
  lemma UndefinedReferenceDropped(e: Expander)
    requires e.expandVar("{defined}", false) == Success("ok")
    requires e.expandVar("{undefined}", false) == Failure(UndefinedVariable("undefined"))
    requires e.expandVar("{undefined}", true) == Success("{undefined}")
    ensures Rendered(e, ["{defined}", "{undefined}"]) == ["ok"]
  {
    var ts := ["{defined}", "{undefined}"];
    assert ts[..1] == ["{defined}"];
    assert ["{defined}"][..0] == [];
    assert Rendered(e, ["{defined}"]) == Rendered(e, []) + Kept(e, "{defined}") == ["ok"];
    assert Rendered(e, ts) == Rendered(e, ts[..1]) + Kept(e, "{undefined}");
  }
}
