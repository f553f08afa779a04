/** `parse_plan_steps`: turning a parsed architect plan into the steps a run expands into. */
module PlanExpansion {
  import opened Prelude
  import opened WorkflowGraph
  import opened WorkflowSearch

  datatype PlanStep = PlanStep(
    id: string,
    prompt: string,
    dependsOn: seq<string>,
    role: Role,
    adapter: Option<string>,
    requestedNodeId: Option<string>,
    retryable: Option<bool>,
    maxAttempts: Option<nat>)

  datatype PlanError = EmptyPlan | ParseFailure(detail: string) | NoSteps | BadGraph(dag: DagError)

  function ToStep(p: PlanStep): Step {
    Step(p.id, p.prompt, p.dependsOn, p.role, p.adapter, p.requestedNodeId, None, p.retryable, p.maxAttempts, Some(false))
  }

  /** `s` carries over everything the plan states, inherits the base commit and produces no further plan. */
  predicate Carries(p: PlanStep, s: Step) {
    && s.id == p.id && s.prompt == p.prompt && s.dependsOn == p.dependsOn && s.role == p.role
    && s.adapter == p.adapter && s.requestedNodeId == p.requestedNodeId
    && s.retryable == p.retryable && s.maxAttempts == p.maxAttempts
    && s.baseCommit == None
    && s.expandable == Some(false)
  }

  function Expand(plan: seq<PlanStep>): (steps: seq<Step>)
    ensures |steps| == |plan| && forall i :: 0 <= i < |plan| ==> Carries(plan[i], steps[i])
  {
    seq(|plan|, i requires 0 <= i < |plan| => ToStep(plan[i]))
  }

  /** `blank` is whether the text is empty after trimming; `parsed` is what the YAML or JSON reader made of it. */
  method ParsePlanSteps(blank: bool, parsed: Result<seq<PlanStep>, string>) returns (r: Result<seq<Step>, PlanError>)
    ensures r.Ok? <==> !blank && parsed.Ok? && parsed.value != [] && WellFormed(Expand(parsed.value))
    ensures r.Ok? ==> parsed.Ok? && |r.value| == |parsed.value|
                      && forall i :: 0 <= i < |r.value| ==> Carries(parsed.value[i], r.value[i])
    ensures r.Ok? ==> WellFormed(r.value) && NeverStuck(r.value)
    ensures blank ==> r == Err(EmptyPlan)
    ensures !blank && parsed.Err? ==> r == Err(ParseFailure(parsed.error))
    ensures !blank && parsed == Ok([]) ==> r == Err(NoSteps)
    ensures !blank && parsed.Ok? && parsed.value != [] && !WellFormed(Expand(parsed.value)) ==>
              r.Err? && r.error.BadGraph? && Diagnoses(Expand(parsed.value), r.error.dag)
  {
    if blank {
      return Err(EmptyPlan);
    }
    if parsed.Err? {
      return Err(ParseFailure(parsed.error));
    }
    if parsed.value == [] {
      return Err(NoSteps);
    }
    var steps := Expand(parsed.value);
    var verdict, _, _, _ := ValidateDag(steps);
    if verdict.Fail? {
      return Err(BadGraph(verdict.error));
    }
    return Ok(steps);
  }

  /** A run starts ready steps one after another. */
  ghost predicate Schedule(steps: seq<Step>, run: seq<string>) {
    forall k :: 0 <= k < |run| ==> StartsReady(steps, run[..k], run[k])
  }

  ghost predicate StartsReady(steps: seq<Step>, done: seq<string>, n: string) {
    exists s :: s in steps && s.id == n && Ready(s, Elems(done))
  }

  /** A run repeats nothing, and either has started every step or can start another. */
  lemma RunsComplete(steps: seq<Step>, run: seq<string>)
    requires NeverStuck(steps) && Schedule(steps, run)
    ensures Distinct(run) && |run| <= |Ids(steps)|
    ensures Elems(run) == Ids(steps) || exists s :: s in steps && Schedule(steps, run + [s.id])
  {
    RunDistinct(steps, run);
    if Elems(run) != Ids(steps) {
      assert Elems(run) < Ids(steps);
      var s :| s in steps && Ready(s, Elems(run));
      var run' := run + [s.id];
      forall k | 0 <= k < |run'|
        ensures StartsReady(steps, run'[..k], run'[k])
      {
        assert run'[..k] == if k < |run| then run[..k] else run;
      }
    }
  }

  lemma SchedulePrefix(steps: seq<Step>, run: seq<string>, k: nat)
    requires Schedule(steps, run) && k <= |run|
    ensures Schedule(steps, run[..k])
  {
    forall j | 0 <= j < k
      ensures StartsReady(steps, run[..k][..j], run[..k][j])
    {
      assert run[..k][..j] == run[..j];
    }
  }

  lemma {:induction false} RunDistinct(steps: seq<Step>, run: seq<string>)
    requires Schedule(steps, run)
    ensures Distinct(run) && Elems(run) <= Ids(steps) && |Elems(run)| == |run| <= |Ids(steps)|
  {
    if run != [] {
      var k := |run| - 1;
      SchedulePrefix(steps, run, k);
      RunDistinct(steps, run[..k]);
      assert StartsReady(steps, run[..k], run[k]);
      assert run[k] !in Elems(run[..k]) && run[k] in Ids(steps);
      DistinctSnoc(run[..k], run[k]);
      assert run == run[..k] + [run[k]];
    }
    SubsetSize(Elems(run), Ids(steps));
  }

  lemma {:induction false} SubsetSize(a: set<string>, b: set<string>)
    requires a <= b
    ensures |a| <= |b|
  {
    if x :| x in a {
      SubsetSize(a - {x}, b - {x});
    }
  }
}
