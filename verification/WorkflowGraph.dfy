/** The workflow step graph: what a well-formed graph is, independently of any search. */
module WorkflowGraph {
  import opened Prelude

  datatype Role = Architect | Worker | Reviewer | Integrator | Verifier | Collector

  datatype Step = Step(
    id: string,
    prompt: string,
    dependsOn: seq<string>,
    role: Role,
    adapter: Option<string>,
    requestedNodeId: Option<string>,
    baseCommit: Option<string>,
    retryable: Option<bool>,
    maxAttempts: Option<nat>,
    expandable: Option<bool>)

  predicate UniqueIds(steps: seq<Step>) {
    forall i, j :: 0 <= i < j < |steps| ==> steps[i].id != steps[j].id
  }

  function Ids(steps: seq<Step>): set<string> {
    set s | s in steps :: s.id
  }

  /** The j-th dependency listed by step i names another, existing step. */
  predicate GoodRef(steps: seq<Step>, i: nat, j: nat)
    requires i < |steps| && j < |steps[i].dependsOn|
  {
    steps[i].dependsOn[j] != steps[i].id && steps[i].dependsOn[j] in Ids(steps)
  }

  ghost predicate RefsOk(steps: seq<Step>) {
    forall i, j :: 0 <= i < |steps| && 0 <= j < |steps[i].dependsOn| ==> GoodRef(steps, i, j)
  }

  /** Every reference read before position (i, j) in listing order is good. */
  ghost predicate RefsOkBefore(steps: seq<Step>, i: nat, j: nat) {
    forall p, q ::
      0 <= p < |steps| && 0 <= q < |steps[p].dependsOn| && (p < i || (p == i && q < j)) ==> GoodRef(steps, p, q)
  }

  /** `order` lists every step id once, each after everything it depends on. */
  ghost predicate TopologicalOrder(steps: seq<Step>, order: seq<string>) {
    && Distinct(order)
    && (forall n :: n in order <==> n in Ids(steps))
    && (forall k, i :: 0 <= k < |order| && 0 <= i < |steps| && steps[i].id == order[k] ==>
          forall d :: d in steps[i].dependsOn ==> d in order[..k])
  }

  ghost predicate Acyclic(steps: seq<Step>) {
    exists order :: TopologicalOrder(steps, order)
  }

  ghost predicate WellFormed(steps: seq<Step>) {
    UniqueIds(steps) && RefsOk(steps) && Acyclic(steps)
  }

  ghost predicate Edge(steps: seq<Step>, a: string, b: string) {
    exists i :: 0 <= i < |steps| && steps[i].id == a && b in steps[i].dependsOn
  }

  /** A closed walk along dependency edges. */
  ghost predicate IsCycle(steps: seq<Step>, p: seq<string>) {
    && |p| >= 2
    && p[0] == p[|p| - 1]
    && forall k :: 0 <= k < |p| - 1 ==> Edge(steps, p[k], p[k + 1])
  }

  /** `s` may start once everything in `finished` has finished. */
  predicate Ready(s: Step, finished: set<string>) {
    s.id !in finished && forall d :: d in s.dependsOn ==> d in finished
  }

  /** Whatever set of steps has finished, short of all of them, some step may start. */
  ghost predicate NeverStuck(steps: seq<Step>) {
    forall finished: set<string> :: finished < Ids(steps) ==> exists s :: s in steps && Ready(s, finished)
  }

  /** A walk stays inside the part of a topological order that precedes its start. */
  lemma {:induction false} WalkDescends(steps: seq<Step>, order: seq<string>, p: seq<string>, k: nat)
    requires TopologicalOrder(steps, order)
    requires |p| >= 2 && forall k :: 0 <= k < |p| - 1 ==> Edge(steps, p[k], p[k + 1])
    requires k < |order| && order[k] == p[0]
    ensures p[|p| - 1] in order[..k]
  {
    assert Edge(steps, p[0], p[1]);
    assert p[1] in order[..k];
    if |p| > 2 {
      var k' :| 0 <= k' < k && order[k'] == p[1];
      var q := p[1..];
      forall j | 0 <= j < |q| - 1
        ensures Edge(steps, q[j], q[j + 1])
      {
        assert Edge(steps, p[j + 1], p[j + 2]);
      }
      WalkDescends(steps, order, q, k');
      assert order[..k'] <= order[..k];
    }
  }

  lemma CycleExcludesOrder(steps: seq<Step>, p: seq<string>)
    requires IsCycle(steps, p)
    ensures !Acyclic(steps)
  {
    if order :| TopologicalOrder(steps, order) {
      assert Edge(steps, p[0], p[1]);
      assert p[0] in Ids(steps);
      var k :| 0 <= k < |order| && order[k] == p[0];
      WalkDescends(steps, order, p, k);
    }
  }

  /** A topological order means a run can always make progress. */
  lemma OrderNeverStuck(steps: seq<Step>)
    requires Acyclic(steps)
    ensures NeverStuck(steps)
  {
    var order :| TopologicalOrder(steps, order);
    forall finished: set<string> | finished < Ids(steps)
      ensures exists s :: s in steps && Ready(s, finished)
    {
      var n :| n in Ids(steps) && n !in finished;
      var k := FirstUnfinished(order, finished, n);
      assert order[k] in Ids(steps);
      var i :| 0 <= i < |steps| && steps[i].id == order[k];
      assert Ready(steps[i], finished);
    }
  }

  lemma FirstUnfinished(order: seq<string>, finished: set<string>, n: string) returns (k: nat)
    requires n in order && n !in finished
    ensures k < |order| && order[k] !in finished && forall m :: m in order[..k] ==> m in finished
  {
    k := 0;
    while order[k] in finished
      invariant k < |order|
      invariant forall m :: m in order[..k] ==> m in finished
      invariant exists j :: k <= j < |order| && order[j] == n
      decreases |order| - k
    {
      assert order[..k + 1] == order[..k] + [order[k]];
      k := k + 1;
    }
  }

  /** Conversely, a graph on which no run can get stuck has a topological order. */
  lemma StuckFreeHasOrder(steps: seq<Step>)
    requires UniqueIds(steps) && NeverStuck(steps)
    ensures Acyclic(steps)
  {
    var order := ScheduleFrom(steps, []);
  }

  /** Being a well-formed graph is the same as never deadlocking, over unique ids and good references. */
  lemma WellFormedIsStuckFree(steps: seq<Step>)
    ensures WellFormed(steps) <==> UniqueIds(steps) && RefsOk(steps) && NeverStuck(steps)
  {
    if WellFormed(steps) {
      OrderNeverStuck(steps);
    }
    if UniqueIds(steps) && NeverStuck(steps) {
      StuckFreeHasOrder(steps);
    }
  }

  ghost predicate PartialOrder(steps: seq<Step>, order: seq<string>) {
    && Distinct(order)
    && (forall n :: n in order ==> n in Ids(steps))
    && (forall k, i :: 0 <= k < |order| && 0 <= i < |steps| && steps[i].id == order[k] ==>
          forall d :: d in steps[i].dependsOn ==> d in order[..k])
  }

  lemma {:induction false} ScheduleFrom(steps: seq<Step>, done: seq<string>) returns (order: seq<string>)
    requires UniqueIds(steps) && NeverStuck(steps) && PartialOrder(steps, done)
    ensures TopologicalOrder(steps, order)
    decreases Ids(steps) - set n | n in done
  {
    var finished := set n | n in done;
    if finished == Ids(steps) {
      order := done;
      assert forall n :: n in order <==> n in finished;
    } else {
      assert finished < Ids(steps);
      var s :| s in steps && Ready(s, finished);
      var next := done + [s.id];
      forall k, i | 0 <= k < |next| && 0 <= i < |steps| && steps[i].id == next[k]
        ensures forall d :: d in steps[i].dependsOn ==> d in next[..k]
      {
        if k < |done| {
          assert next[..k] == done[..k];
        } else {
          assert next[..k] == done;
          assert steps[i] == s;
        }
      }
      assert (set n | n in next) == finished + {s.id};
      order := ScheduleFrom(steps, next);
    }
  }
}
