/** `validate_dag`: the explicit-stack three-colour search, exact for `WellFormed`. */
module WorkflowSearch {
  import opened Prelude
  import opened WorkflowGraph

  datatype DagError =
    | DuplicateId(id: string)
    | SelfDependency(id: string)
    | UnknownDependency(dep: string, step: string)
    | CycleVia(node: string, next: string)

  type Adjacency = map<string, seq<string>>

  /** A frame is a step id and the index of the next dependency to look at. */
  datatype Frame = Frame(id: string, at: nat)

  const WHITE: nat := 0
  const GRAY: nat := 1
  const BLACK: nat := 2

  function ColorOf(color: map<string, nat>, n: string): nat {
    if n in color then color[n] else WHITE
  }

  ghost predicate Describes(adj: Adjacency, steps: seq<Step>) {
    && adj.Keys == Ids(steps)
    && forall i :: 0 <= i < |steps| ==> adj[steps[i].id] == steps[i].dependsOn
  }

  ghost predicate Closed(adj: Adjacency) {
    forall n, d :: n in adj && d in adj[n] ==> d in adj
  }

  /** Each frame names a known step and points into its dependency list. */
  ghost predicate FramesOk(adj: Adjacency, stack: seq<Frame>) {
    forall k :: 0 <= k < |stack| ==> stack[k].id in adj && stack[k].at <= |adj[stack[k].id]|
  }

  /** The frame above frame k is the dependency frame k moved past last. */
  ghost predicate LinkedAt(adj: Adjacency, stack: seq<Frame>, k: nat)
    requires FramesOk(adj, stack) && k + 1 < |stack|
  {
    stack[k].at >= 1 && adj[stack[k].id][stack[k].at - 1] == stack[k + 1].id
  }

  /** The frames form a dependency path without repetition. */
  ghost predicate StackOk(adj: Adjacency, stack: seq<Frame>) {
    && FramesOk(adj, stack)
    && (forall k {:trigger LinkedAt(adj, stack, k)} :: 0 <= k < |stack| - 1 ==> LinkedAt(adj, stack, k))
    && (forall i, j :: 0 <= i < j < |stack| ==> stack[i].id != stack[j].id)
  }

  /** `order` lists the finished steps, each after all its dependencies. */
  ghost predicate OrderOk(adj: Adjacency, order: seq<string>) {
    && Distinct(order)
    && (forall k :: 0 <= k < |order| ==> order[k] in adj)
    && (forall k, d :: 0 <= k < |order| && d in adj[order[k]] ==> d in order[..k])
  }

  ghost predicate OnStack(stack: seq<Frame>, n: string) {
    exists k :: 0 <= k < |stack| && stack[k].id == n
  }

  ghost predicate Entered(stack: seq<Frame>, n: string) {
    exists k :: 0 <= k < |stack| && stack[k].id == n && stack[k].at > 0
  }

  /** Gray is exactly "on the stack and entered"; black is exactly "finished". */
  ghost predicate ColorsOk(color: map<string, nat>, stack: seq<Frame>, order: seq<string>) {
    forall n :: ColorOkAt(color, stack, order, n)
  }

  ghost predicate ColorOkAt(color: map<string, nat>, stack: seq<Frame>, order: seq<string>, n: string) {
    && (ColorOf(color, n) == GRAY <==> Entered(stack, n))
    && (ColorOf(color, n) == BLACK <==> n in order)
    && ColorOf(color, n) <= BLACK
  }

  /** Dependencies already passed by a frame are finished, save the one being explored above it. */
  ghost predicate PassedOk(adj: Adjacency, stack: seq<Frame>, order: seq<string>)
    requires StackOk(adj, stack)
  {
    && (forall k :: 0 <= k < |stack| ==> stack[k].id !in order)
    && (forall k, j :: 0 <= k < |stack| && 0 <= j < stack[k].at && (k < |stack| - 1 ==> j < stack[k].at - 1) ==>
          adj[stack[k].id][j] in order)
  }

  ghost predicate Inv(adj: Adjacency, color: map<string, nat>, stack: seq<Frame>, order: seq<string>) {
    StackOk(adj, stack) && OrderOk(adj, order) && ColorsOk(color, stack, order) && PassedOk(adj, stack, order)
  }

  /** Entering the top frame turns it gray, whatever white frame is put above it. */
  lemma ColorsAdvance(color: map<string, nat>, stack: seq<Frame>, order: seq<string>, above: seq<Frame>)
    requires ColorsOk(color, stack, order) && |stack| > 0 && stack[|stack| - 1].id !in order
    requires forall k :: 0 <= k < |above| ==> above[k].at == 0
    ensures var m := |stack| - 1;
      ColorsOk(color[stack[m].id := GRAY], stack[m := Frame(stack[m].id, stack[m].at + 1)] + above, order)
  {
    var m := |stack| - 1;
    var n := stack[m].id;
    var stack' := stack[m := Frame(n, stack[m].at + 1)] + above;
    var color' := color[n := GRAY];
    assert stack'[m].id == n && stack'[m].at > 0;
    forall x
      ensures ColorOkAt(color', stack', order, x)
    {
      assert ColorOkAt(color, stack, order, x);
      if k :| 0 <= k < |stack| && stack[k].id == x && stack[k].at > 0 {
        assert stack'[k].id == x && stack'[k].at > 0;
      }
    }
  }

  lemma InvSkip(adj: Adjacency, color: map<string, nat>, stack: seq<Frame>, order: seq<string>, n: string, i: nat)
    requires Inv(adj, color, stack, order)
    requires |stack| > 0 && stack[|stack| - 1] == Frame(n, i) && i < |adj[n]|
    requires ColorOf(color[n := GRAY], adj[n][i]) == BLACK
    ensures Inv(adj, color[n := GRAY], stack[|stack| - 1 := Frame(n, i + 1)], order)
  {
    ColorsAdvance(color, stack, order, []);
    assert stack[|stack| - 1 := Frame(n, i + 1)] + [] == stack[|stack| - 1 := Frame(n, i + 1)];
    assert ColorOkAt(color, stack, order, adj[n][i]);
    var stack' := stack[|stack| - 1 := Frame(n, i + 1)];
    forall k | 0 <= k < |stack'| - 1
      ensures LinkedAt(adj, stack', k)
    {
      assert LinkedAt(adj, stack, k);
    }
  }

  /** A white dependency is neither finished nor on the stack. */
  lemma WhiteIsNew(adj: Adjacency, color: map<string, nat>, stack: seq<Frame>, order: seq<string>, n: string, i: nat)
    requires Inv(adj, color, stack, order)
    requires |stack| > 0 && stack[|stack| - 1] == Frame(n, i) && i < |adj[n]|
    requires ColorOf(color[n := GRAY], adj[n][i]) == WHITE
    ensures !OnStack(stack, adj[n][i]) && adj[n][i] !in order
  {
    var next := adj[n][i];
    forall k | 0 <= k < |stack| - 1
      ensures stack[k].at > 0
    {
      assert LinkedAt(adj, stack, k);
    }
    assert OnStack(stack, next) ==> Entered(stack, next);
    assert ColorOkAt(color, stack, order, next);
  }

  lemma InvPush(adj: Adjacency, color: map<string, nat>, stack: seq<Frame>, order: seq<string>, n: string, i: nat)
    requires Inv(adj, color, stack, order) && Closed(adj)
    requires |stack| > 0 && stack[|stack| - 1] == Frame(n, i) && i < |adj[n]|
    requires ColorOf(color[n := GRAY], adj[n][i]) == WHITE
    ensures Inv(adj, color[n := GRAY], stack[|stack| - 1 := Frame(n, i + 1)] + [Frame(adj[n][i], 0)], order)
  {
    ColorsAdvance(color, stack, order, [Frame(adj[n][i], 0)]);
    WhiteIsNew(adj, color, stack, order, n, i);
    PushKeepsStack(adj, stack, order, n, i);
  }

  lemma PushKeepsStack(adj: Adjacency, stack: seq<Frame>, order: seq<string>, n: string, i: nat)
    requires StackOk(adj, stack) && PassedOk(adj, stack, order) && Closed(adj)
    requires |stack| > 0 && stack[|stack| - 1] == Frame(n, i) && i < |adj[n]|
    requires !OnStack(stack, adj[n][i]) && adj[n][i] !in order
    ensures var stack' := stack[|stack| - 1 := Frame(n, i + 1)] + [Frame(adj[n][i], 0)];
      StackOk(adj, stack') && PassedOk(adj, stack', order)
  {
    var m := |stack| - 1;
    var stack' := stack[m := Frame(n, i + 1)] + [Frame(adj[n][i], 0)];
    assert adj[n][i] in adj;
    forall k | 0 <= k < |stack'| - 1
      ensures LinkedAt(adj, stack', k)
    {
      assert k < m ==> LinkedAt(adj, stack, k);
    }
  }

  lemma InvPop(adj: Adjacency, color: map<string, nat>, stack: seq<Frame>, order: seq<string>, n: string)
    requires Inv(adj, color, stack, order)
    requires |stack| > 0 && stack[|stack| - 1].id == n && stack[|stack| - 1].at == |adj[n]|
    ensures Inv(adj, color[n := BLACK], stack[..|stack| - 1], order + [n])
  {
    var m := |stack| - 1;
    var stack', order', color' := stack[..m], order + [n], color[n := BLACK];
    forall x
      ensures ColorOkAt(color', stack', order', x)
    {
      assert ColorOkAt(color, stack, order, x);
      if k :| 0 <= k < |stack| && stack[k].id == x && stack[k].at > 0 && x != n {
        assert stack'[k].id == x && stack'[k].at > 0;
      }
    }
    forall k | 0 <= k < |stack'| - 1
      ensures LinkedAt(adj, stack', k)
    {
      assert LinkedAt(adj, stack, k);
    }
    assert m > 0 ==> LinkedAt(adj, stack, m - 1);
    forall k, d | 0 <= k < |order'| && d in adj[order'[k]]
      ensures d in order'[..k]
    {
      assert order'[..k] == if k < |order| then order[..k] else order;
      if k == |order| {
        var j :| 0 <= j < |adj[n]| && adj[n][j] == d;
        assert adj[stack[m].id][j] in order;
      }
    }
  }

  function Names(stack: seq<Frame>): (r: seq<string>)
    ensures |r| == |stack| && forall k :: 0 <= k < |stack| ==> r[k] == stack[k].id
  {
    seq(|stack|, k requires 0 <= k < |stack| => stack[k].id)
  }

  /** Meeting a gray step closes a walk: the frames from it to the top, and back. */
  lemma GrayClosesCycle(steps: seq<Step>, adj: Adjacency, stack: seq<Frame>, n: string, i: nat, k: nat)
    requires Describes(adj, steps) && StackOk(adj, stack)
    requires |stack| > 0 && stack[|stack| - 1] == Frame(n, i) && i < |adj[n]|
    requires k < |stack| && stack[k].id == adj[n][i]
    ensures IsCycle(steps, Names(stack[k..]) + [adj[n][i]])
  {
    var p := Names(stack[k..]) + [adj[n][i]];
    forall j | 0 <= j < |p| - 1
      ensures Edge(steps, p[j], p[j + 1])
    {
      assert k + j + 1 < |stack| ==> LinkedAt(adj, stack, k + j);
      assert p[j] in Ids(steps) && p[j + 1] in adj[p[j]];
      var s :| 0 <= s < |steps| && steps[s].id == p[j];
    }
  }

  /** The inner iterations a full search makes: one per step and one per listed dependency. */
  function Limits(steps: seq<Step>): (r: seq<nat>)
    ensures |r| == |steps| && forall i :: 0 <= i < |steps| ==> r[i] == 1 + |steps[i].dependsOn|
  {
    seq(|steps|, i requires 0 <= i < |steps| => 1 + |steps[i].dependsOn|)
  }

  function Work(steps: seq<Step>): nat {
    Sum(Limits(steps))
  }

  /** Iterations spent so far on one step. */
  ghost predicate Spent(s: Step, stack: seq<Frame>, order: seq<string>, spent: nat) {
    if s.id in order then spent == 1 + |s.dependsOn|
    else if OnStack(stack, s.id) then exists k :: 0 <= k < |stack| && stack[k] == Frame(s.id, spent)
    else spent == 0
  }

  ghost predicate Accounts(steps: seq<Step>, stack: seq<Frame>, order: seq<string>, spent: seq<nat>) {
    |spent| == |steps| && forall i :: 0 <= i < |steps| ==> Spent(steps[i], stack, order, spent[i])
  }

  lemma SpentBounded(steps: seq<Step>, adj: Adjacency, stack: seq<Frame>, order: seq<string>, spent: seq<nat>)
    requires Describes(adj, steps) && FramesOk(adj, stack) && Accounts(steps, stack, order, spent)
    ensures Sum(spent) <= Work(steps)
  {
    SumPointwise(spent, Limits(steps));
  }

  function AdjacencyOf(steps: seq<Step>): (adj: Adjacency)
    requires UniqueIds(steps)
    ensures Describes(adj, steps)
  {
    map s | s in steps :: s.id := s.dependsOn
  }

  lemma StepOf(steps: seq<Step>, n: string) returns (i: nat)
    requires n in Ids(steps)
    ensures i < |steps| && steps[i].id == n
  {
    var s :| s in steps && s.id == n;
    i :| 0 <= i < |steps| && steps[i] == s;
  }

  /** The top frame moves past one dependency, perhaps with one new frame above it. */
  ghost predicate Advances(stack: seq<Frame>, stack': seq<Frame>, order: seq<string>) {
    && 0 < |stack| <= |stack'| <= |stack| + 1
    && (forall k :: 0 <= k < |stack| - 1 ==> stack'[k] == stack[k])
    && stack'[|stack| - 1] == Frame(stack[|stack| - 1].id, stack[|stack| - 1].at + 1)
    && (|stack'| > |stack| ==>
          stack'[|stack|].at == 0 && !OnStack(stack, stack'[|stack|].id) && stack'[|stack|].id !in order)
  }

  /** Looking at one more dependency of the top frame costs one iteration. */
  lemma SpendEdge(steps: seq<Step>, stack: seq<Frame>, order: seq<string>, spent: seq<nat>, stack': seq<Frame>)
      returns (spent': seq<nat>)
    requires UniqueIds(steps) && |stack| > 0 && Accounts(steps, stack, order, spent)
    requires forall j, k :: 0 <= j < k < |stack| ==> stack[j].id != stack[k].id
    requires stack[|stack| - 1].id in Ids(steps) && stack[|stack| - 1].id !in order
    requires Advances(stack, stack', order)
    ensures Accounts(steps, stack', order, spent')
    ensures Sum(spent') == Sum(spent) + 1
  {
    var m := |stack| - 1;
    var Frame(n, i) := stack[m];
    var s := StepOf(steps, n);
    assert OnStack(stack, n) && spent[s] == i;
    spent' := spent[s := i + 1];
    SumUpdate(spent, s, i + 1);
    forall t | 0 <= t < |steps|
      ensures Spent(steps[t], stack', order, spent'[t])
    {
      assert Spent(steps[t], stack, order, spent[t]);
      SpentElsewhere(stack, stack', steps[t], order, spent[t], spent'[t], n);
    }
  }

  /** A step's account only depends on its own frame. */
  lemma SpentElsewhere(stack: seq<Frame>, stack': seq<Frame>, s: Step, order: seq<string>, was: nat, now: nat, n: string)
    requires Advances(stack, stack', order) && stack[|stack| - 1].id == n
    requires Spent(s, stack, order, was) && n !in order
    requires if s.id == n then now == stack[|stack| - 1].at + 1 else now == was
    ensures Spent(s, stack', order, now)
  {
    var m := |stack| - 1;
    if s.id !in order {
      if s.id == n {
        assert stack'[m] == Frame(n, now);
      } else if OnStack(stack, s.id) {
        var k :| 0 <= k < |stack| && stack[k] == Frame(s.id, was);
        assert stack'[k] == stack[k];
      } else if OnStack(stack', s.id) {
        var k :| 0 <= k < |stack'| && stack'[k].id == s.id;
        assert k == |stack|;
      }
    }
  }

  /** Finishing the top frame costs one iteration. */
  lemma SpendPop(steps: seq<Step>, stack: seq<Frame>, order: seq<string>, spent: seq<nat>) returns (spent': seq<nat>)
    requires UniqueIds(steps) && |stack| > 0 && Accounts(steps, stack, order, spent)
    requires forall j, k :: 0 <= j < k < |stack| ==> stack[j].id != stack[k].id
    requires stack[|stack| - 1].id in Ids(steps) && stack[|stack| - 1].id !in order
    requires forall s :: s in steps && s.id == stack[|stack| - 1].id ==> stack[|stack| - 1].at == |s.dependsOn|
    ensures Accounts(steps, stack[..|stack| - 1], order + [stack[|stack| - 1].id], spent')
    ensures Sum(spent') == Sum(spent) + 1
  {
    var m := |stack| - 1;
    var Frame(n, i) := stack[m];
    var s := StepOf(steps, n);
    assert OnStack(stack, n) && spent[s] == i;
    spent' := spent[s := 1 + i];
    SumUpdate(spent, s, 1 + i);
    assert steps[s] in steps;
    forall t | 0 <= t < |steps|
      ensures Spent(steps[t], stack[..m], order + [n], spent'[t])
    {
      assert Spent(steps[t], stack, order, spent[t]);
      if t != s && steps[t].id !in order && OnStack(stack, steps[t].id) {
        var k :| 0 <= k < |stack| && stack[k] == Frame(steps[t].id, spent[t]);
        assert stack[..m][k] == stack[k];
      }
    }
  }

  /** Every id scanned so far is new, or the first repeat is reported. */
  method CheckIds(steps: seq<Step>) returns (r: Outcome<DagError>)
    ensures r.Pass? <==> UniqueIds(steps)
    ensures r.Fail? ==> exists i :: 0 <= i < |steps| && r.error == DuplicateId(steps[i].id)
                                  && UniqueIds(steps[..i]) && steps[i].id in Ids(steps[..i])
  {
    var ids: set<string> := {};
    for i := 0 to |steps|
      invariant ids == Ids(steps[..i]) && UniqueIds(steps[..i])
    {
      assert steps[..i + 1] == steps[..i] + [steps[i]];
      if steps[i].id in ids {
        return Fail(DuplicateId(steps[i].id));
      }
      ids := ids + {steps[i].id};
    }
    assert steps[..|steps|] == steps;
    return Pass;
  }

  /** The j-th dependency of step i is the first bad one in listing order, and `e` says what is wrong with it. */
  ghost predicate BadRefAt(steps: seq<Step>, i: nat, j: nat, e: DagError) {
    && i < |steps| && j < |steps[i].dependsOn| && RefsOkBefore(steps, i, j)
    && var dep := steps[i].dependsOn[j];
    || (dep == steps[i].id && e == SelfDependency(dep))
    || (dep != steps[i].id && dep !in Ids(steps) && e == UnknownDependency(dep, steps[i].id))
  }

  method CheckRefs(steps: seq<Step>) returns (r: Outcome<DagError>)
    ensures r.Pass? <==> RefsOk(steps)
    ensures r.Fail? ==> exists i, j :: BadRefAt(steps, i, j, r.error)
  {
    var known := Ids(steps);
    for i := 0 to |steps|
      invariant RefsOkBefore(steps, i, 0)
    {
      for j := 0 to |steps[i].dependsOn|
        invariant RefsOkBefore(steps, i, j)
      {
        var dep := steps[i].dependsOn[j];
        if dep == steps[i].id {
          assert !GoodRef(steps, i, j);
          assert BadRefAt(steps, i, j, SelfDependency(steps[i].id));
          return Fail(SelfDependency(steps[i].id));
        }
        if dep !in known {
          assert !GoodRef(steps, i, j);
          assert BadRefAt(steps, i, j, UnknownDependency(dep, steps[i].id));
          return Fail(UnknownDependency(dep, steps[i].id));
        }
      }
    }
    return Pass;
  }

  ghost predicate PushedOk(stack: seq<Frame>, order: seq<string>, pushed: seq<string>) {
    Distinct(pushed) && forall n :: n in pushed <==> n in order || OnStack(stack, n)
  }

  /** A reported cycle is a real one, closed by the reported edge. */
  ghost predicate Exhibits(steps: seq<Step>, cycle: seq<string>, e: DagError) {
    e.CycleVia? && IsCycle(steps, cycle) && cycle[|cycle| - 2] == e.node && cycle[|cycle| - 1] == e.next
  }

  /** Everything the search keeps true between two inner iterations. */
  ghost predicate Searching(steps: seq<Step>, adj: Adjacency, color: map<string, nat>, stack: seq<Frame>,
                            order: seq<string>, pushed: seq<string>, spent: seq<nat>) {
    && UniqueIds(steps) && Describes(adj, steps) && Closed(adj)
    && Inv(adj, color, stack, order) && PushedOk(stack, order, pushed) && Accounts(steps, stack, order, spent)
  }

  /** `root` has been reached, and nothing finished earlier is lost. */
  ghost predicate Covers(stack: seq<Frame>, order: seq<string>, order0: seq<string>, root: string) {
    (root in order || OnStack(stack, root)) && forall n :: n in order0 ==> n in order
  }

  lemma StepToGray(steps: seq<Step>, adj: Adjacency, color: map<string, nat>, stack: seq<Frame>,
                   order: seq<string>, n: string, i: nat)
      returns (cycle: seq<string>)
    requires Describes(adj, steps) && StackOk(adj, stack) && ColorsOk(color, stack, order)
    requires |stack| > 0 && stack[|stack| - 1] == Frame(n, i) && i < |adj[n]|
    requires ColorOf(color[n := GRAY], adj[n][i]) == GRAY
    ensures Exhibits(steps, cycle, CycleVia(n, adj[n][i]))
  {
    var k := FindFrame(color, stack, order, adj[n][i]);
    cycle := Names(stack[k..]) + [adj[n][i]];
    GrayClosesCycle(steps, adj, stack, n, i, k);
  }

  lemma SpendLast(steps: seq<Step>, adj: Adjacency, stack: seq<Frame>, order: seq<string>, spent: seq<nat>)
      returns (spent': seq<nat>)
    requires UniqueIds(steps) && Describes(adj, steps) && StackOk(adj, stack) && PassedOk(adj, stack, order)
    requires Accounts(steps, stack, order, spent)
    requires |stack| > 0 && stack[|stack| - 1].at < |adj[stack[|stack| - 1].id]|
    ensures Sum(spent') == Sum(spent) + 1 <= Work(steps)
  {
    var m := |stack| - 1;
    var stack' := stack[m := Frame(stack[m].id, stack[m].at + 1)];
    spent' := SpendEdge(steps, stack, order, spent, stack');
    SpentBounded(steps, adj, stack', order, spent');
  }

  lemma StepToWhite(steps: seq<Step>, adj: Adjacency, color: map<string, nat>, stack: seq<Frame>,
                    order: seq<string>, pushed: seq<string>, spent: seq<nat>, n: string, i: nat,
                    order0: seq<string>, root: string)
      returns (spent': seq<nat>)
    requires Searching(steps, adj, color, stack, order, pushed, spent) && Covers(stack, order, order0, root)
    requires |stack| > 0 && stack[|stack| - 1] == Frame(n, i) && i < |adj[n]|
    requires ColorOf(color[n := GRAY], adj[n][i]) == WHITE
    ensures var stack' := stack[|stack| - 1 := Frame(n, i + 1)] + [Frame(adj[n][i], 0)];
      && Searching(steps, adj, color[n := GRAY], stack', order, pushed + [adj[n][i]], spent')
      && Covers(stack', order, order0, root)
    ensures Sum(spent') == Sum(spent) + 1 <= Work(steps)
  {
    var stack' := stack[|stack| - 1 := Frame(n, i + 1)] + [Frame(adj[n][i], 0)];
    InvPush(adj, color, stack, order, n, i);
    WhiteIsNew(adj, color, stack, order, n, i);
    spent' := SpendEdge(steps, stack, order, spent, stack');
    PushKeeps(stack, stack', order, pushed, root);
    SpentBounded(steps, adj, stack', order, spent');
  }

  lemma StepToBlack(steps: seq<Step>, adj: Adjacency, color: map<string, nat>, stack: seq<Frame>,
                    order: seq<string>, pushed: seq<string>, spent: seq<nat>, n: string, i: nat,
                    order0: seq<string>, root: string)
      returns (spent': seq<nat>)
    requires Searching(steps, adj, color, stack, order, pushed, spent) && Covers(stack, order, order0, root)
    requires |stack| > 0 && stack[|stack| - 1] == Frame(n, i) && i < |adj[n]|
    requires ColorOf(color[n := GRAY], adj[n][i]) !in {WHITE, GRAY}
    ensures var stack' := stack[|stack| - 1 := Frame(n, i + 1)];
      && Searching(steps, adj, color[n := GRAY], stack', order, pushed, spent')
      && Covers(stack', order, order0, root)
    ensures Sum(spent') == Sum(spent) + 1 <= Work(steps)
  {
    var stack' := stack[|stack| - 1 := Frame(n, i + 1)];
    assert ColorOkAt(color, stack, order, adj[n][i]);
    InvSkip(adj, color, stack, order, n, i);
    spent' := SpendEdge(steps, stack, order, spent, stack');
    EdgeKeeps(stack, stack', order, pushed);
    SpentBounded(steps, adj, stack', order, spent');
  }

  lemma StepOut(steps: seq<Step>, adj: Adjacency, color: map<string, nat>, stack: seq<Frame>,
                order: seq<string>, pushed: seq<string>, spent: seq<nat>, n: string,
                order0: seq<string>, root: string)
      returns (spent': seq<nat>)
    requires Searching(steps, adj, color, stack, order, pushed, spent) && Covers(stack, order, order0, root)
    requires |stack| > 0 && stack[|stack| - 1].id == n && stack[|stack| - 1].at == |adj[n]|
    ensures Searching(steps, adj, color[n := BLACK], stack[..|stack| - 1], order + [n], pushed, spent')
    ensures Covers(stack[..|stack| - 1], order + [n], order0, root)
    ensures Sum(spent') == Sum(spent) + 1 <= Work(steps)
  {
    InvPop(adj, color, stack, order, n);
    PopDeps(steps, adj, n);
    spent' := SpendPop(steps, stack, order, spent);
    PopKeeps(stack, order, pushed);
    SpentBounded(steps, adj, stack[..|stack| - 1], order + [n], spent');
  }

  /** One inner iteration, with a frame on the stack. */
  method Turn(ghost steps: seq<Step>, adj: Adjacency, color0: map<string, nat>, stack0: seq<Frame>,
              ghost order0: seq<string>, ghost pushed0: seq<string>, ghost spent0: seq<nat>,
              ghost early: seq<string>, ghost root: string)
      returns (r: Outcome<DagError>, color: map<string, nat>, stack: seq<Frame>,
               ghost order: seq<string>, ghost pushed: seq<string>, ghost spent: seq<nat>, ghost cycle: seq<string>)
    requires |stack0| > 0 && Searching(steps, adj, color0, stack0, order0, pushed0, spent0)
    requires Covers(stack0, order0, early, root)
    ensures Sum(spent) == Sum(spent0) + 1 <= Work(steps)
    ensures r.Pass? ==> Searching(steps, adj, color, stack, order, pushed, spent) && Covers(stack, order, early, root)
    ensures r.Fail? ==> Exhibits(steps, cycle, r.error) && pushed == pushed0
  {
    r, color, stack, order, pushed, cycle := Pass, color0, stack0, order0, pushed0, [];
    var m := |stack| - 1;
    var Frame(node, i) := stack[m];
    TopFrame(adj, color, stack, order);
    var deps := adj[node];
    if i == 0 {
      color := color[node := GRAY];
    }
    assert color == color0[node := GRAY];
    if i < |deps| {
      r, stack, pushed, spent, cycle := Visit(steps, adj, color0, color, stack0, order0, pushed0, spent0, node, i, early, root);
    } else {
      spent := StepOut(steps, adj, color0, stack0, order0, pushed0, spent0, node, early, root);
      assert color[node := BLACK] == color0[node := BLACK];
      color := color[node := BLACK];
      stack := stack[..m];
      order := order + [node];
    }
  }

  /** The next dependency of the step on top, by its colour. */
  method Visit(ghost steps: seq<Step>, adj: Adjacency, ghost color0: map<string, nat>, color: map<string, nat>, stack0: seq<Frame>,
               ghost order: seq<string>, ghost pushed0: seq<string>, ghost spent0: seq<nat>, node: string, i: nat,
               ghost early: seq<string>, ghost root: string)
      returns (r: Outcome<DagError>, stack: seq<Frame>, ghost pushed: seq<string>, ghost spent: seq<nat>, ghost cycle: seq<string>)
    requires |stack0| > 0 && Searching(steps, adj, color0, stack0, order, pushed0, spent0)
    requires Covers(stack0, order, early, root) && color == color0[node := GRAY]
    requires stack0[|stack0| - 1] == Frame(node, i) && node in adj && i < |adj[node]|
    ensures Sum(spent) == Sum(spent0) + 1 <= Work(steps)
    ensures r.Pass? ==> Searching(steps, adj, color, stack, order, pushed, spent) && Covers(stack, order, early, root)
    ensures r.Fail? ==> Exhibits(steps, cycle, r.error) && pushed == pushed0
  {
    r, stack, pushed, cycle := Pass, stack0, pushed0, [];
    var m := |stack| - 1;
    var next := adj[node][i];
    var c := ColorOf(color, next);
    if c == GRAY {
      cycle := StepToGray(steps, adj, color0, stack0, order, node, i);
      spent := SpendLast(steps, adj, stack0, order, spent0);
      r := Fail(CycleVia(node, next));
    } else if c == WHITE {
      spent := StepToWhite(steps, adj, color0, stack0, order, pushed0, spent0, node, i, early, root);
      stack := stack[m := Frame(node, i + 1)] + [Frame(next, 0)];
      pushed := pushed + [next];
    } else {
      spent := StepToBlack(steps, adj, color0, stack0, order, pushed0, spent0, node, i, early, root);
      stack := stack[m := Frame(node, i + 1)];
    }
  }

  /** One depth-first descent from a white step, until its stack is empty or a cycle is met. */
  method Descend(ghost steps: seq<Step>, adj: Adjacency, root: string, color0: map<string, nat>,
                 ghost order0: seq<string>, ghost pushed0: seq<string>, ghost spent0: seq<nat>)
      returns (r: Outcome<DagError>, color: map<string, nat>,
               ghost order: seq<string>, ghost pushed: seq<string>, ghost spent: seq<nat>,
               ghost iterations: nat, ghost cycle: seq<string>)
    requires root in adj && ColorOf(color0, root) == WHITE
    requires Searching(steps, adj, color0, [], order0, pushed0, spent0)
    ensures Distinct(pushed) && (forall n :: n in pushed ==> n in Ids(steps))
    ensures iterations + Sum(spent0) == Sum(spent) <= Work(steps)
    ensures r.Pass? ==> Searching(steps, adj, color, [], order, pushed, spent) && Covers([], order, order0, root)
    ensures r.Fail? ==> Exhibits(steps, cycle, r.error)
  {
    r, color, order, pushed, spent, iterations, cycle := Pass, color0, order0, pushed0 + [root], spent0, 0, [];
    var stack: seq<Frame> := [Frame(root, 0)];
    DescendStart(steps, adj, root, color0, order0, pushed0, spent0);
    while |stack| > 0
      invariant Searching(steps, adj, color, stack, order, pushed, spent) && Covers(stack, order, order0, root)
      invariant iterations + Sum(spent0) == Sum(spent) <= Work(steps)
      decreases Work(steps) - Sum(spent)
    {
      iterations := iterations + 1;
      PushedKnown(steps, adj, color, stack, order, pushed);
      r, color, stack, order, pushed, spent, cycle :=
        Turn(steps, adj, color, stack, order, pushed, spent, order0, root);
      if r.Fail? {
        return;
      }
    }
    assert stack == [];
    PushedKnown(steps, adj, color, stack, order, pushed);
    r := Pass;
  }

  lemma PushedKnown(steps: seq<Step>, adj: Adjacency, color: map<string, nat>, stack: seq<Frame>,
                    order: seq<string>, pushed: seq<string>)
    requires Describes(adj, steps) && Inv(adj, color, stack, order) && PushedOk(stack, order, pushed)
    ensures Distinct(pushed) && forall n :: n in pushed ==> n in Ids(steps)
  {
  }

  /** The top frame is a known step, and is gray already once it has been entered. */
  lemma TopFrame(adj: Adjacency, color: map<string, nat>, stack: seq<Frame>, order: seq<string>)
    requires Inv(adj, color, stack, order) && |stack| > 0
    ensures var Frame(n, i) := stack[|stack| - 1]; n in adj && i <= |adj[n]| && (i > 0 ==> color[n := GRAY] == color)
  {
    var Frame(n, i) := stack[|stack| - 1];
    if i > 0 {
      assert ColorOkAt(color, stack, order, n);
      assert Entered(stack, n);
    }
  }

  lemma DescendStart(steps: seq<Step>, adj: Adjacency, root: string, color: map<string, nat>,
                     order: seq<string>, pushed: seq<string>, spent: seq<nat>)
    requires Searching(steps, adj, color, [], order, pushed, spent) && root in adj && ColorOf(color, root) == WHITE
    ensures Searching(steps, adj, color, [Frame(root, 0)], order, pushed + [root], spent)
    ensures Covers([Frame(root, 0)], order, order, root)
    ensures Sum(spent) <= Work(steps)
  {
    var stack: seq<Frame> := [Frame(root, 0)];
    assert ColorOkAt(color, [], order, root);
    assert stack[0].id == root;
    forall n
      ensures OnStack(stack, n) <==> n == root
      ensures ColorOkAt(color, stack, order, n)
    {
      assert ColorOkAt(color, [], order, n);
    }
    forall t | 0 <= t < |steps|
      ensures Spent(steps[t], stack, order, spent[t])
    {
      assert Spent(steps[t], [], order, spent[t]);
      assert steps[t].id == root ==> stack[0] == Frame(steps[t].id, spent[t]);
    }
    SpentBounded(steps, adj, stack, order, spent);
  }

  /** A step found gray is on the stack: entered before, or the top frame itself. */
  lemma FindFrame(color: map<string, nat>, stack: seq<Frame>, order: seq<string>, next: string) returns (k: nat)
    requires ColorsOk(color, stack, order) && |stack| > 0
    requires ColorOf(color[stack[|stack| - 1].id := GRAY], next) == GRAY
    ensures k < |stack| && stack[k].id == next
  {
    if next == stack[|stack| - 1].id {
      k := |stack| - 1;
    } else {
      assert ColorOkAt(color, stack, order, next);
      k :| 0 <= k < |stack| && stack[k].id == next;
    }
  }

  lemma EdgeKeeps(stack0: seq<Frame>, stack: seq<Frame>, order: seq<string>, pushed: seq<string>)
    requires |stack| == |stack0| && forall k :: 0 <= k < |stack| ==> stack[k].id == stack0[k].id
    requires PushedOk(stack0, order, pushed)
    ensures PushedOk(stack, order, pushed)
    ensures forall n :: OnStack(stack, n) <==> OnStack(stack0, n)
  {
    forall n
      ensures OnStack(stack, n) <==> OnStack(stack0, n)
    {
      if k :| 0 <= k < |stack| && stack[k].id == n {
        assert stack0[k].id == n;
      }
      if k :| 0 <= k < |stack0| && stack0[k].id == n {
        assert stack[k].id == n;
      }
    }
  }

  lemma PushKeeps(stack0: seq<Frame>, stack: seq<Frame>, order: seq<string>, pushed: seq<string>, root: string)
    requires |stack| == |stack0| + 1 && forall k :: 0 <= k < |stack0| ==> stack[k].id == stack0[k].id
    requires PushedOk(stack0, order, pushed)
    requires !OnStack(stack0, stack[|stack0|].id) && stack[|stack0|].id !in order
    ensures PushedOk(stack, order, pushed + [stack[|stack0|].id])
    ensures OnStack(stack0, root) ==> OnStack(stack, root)
  {
    forall n
      ensures OnStack(stack, n) <==> OnStack(stack0, n) || n == stack[|stack0|].id
    {
      if k :| 0 <= k < |stack| && stack[k].id == n {
        assert k < |stack0| ==> stack0[k].id == n;
      }
      if k :| 0 <= k < |stack0| && stack0[k].id == n {
        assert stack[k].id == n;
      }
    }
  }

  lemma PopKeeps(stack: seq<Frame>, order: seq<string>, pushed: seq<string>)
    requires |stack| > 0 && PushedOk(stack, order, pushed)
    ensures PushedOk(stack[..|stack| - 1], order + [stack[|stack| - 1].id], pushed)
    ensures forall n :: OnStack(stack, n) ==> OnStack(stack[..|stack| - 1], n) || n == stack[|stack| - 1].id
  {
    var rest := stack[..|stack| - 1];
    forall n
      ensures OnStack(stack, n) <==> OnStack(rest, n) || n == stack[|stack| - 1].id
    {
      if k :| 0 <= k < |stack| && stack[k].id == n {
        assert k < |rest| ==> rest[k].id == n;
      }
      if k :| 0 <= k < |rest| && rest[k].id == n {
        assert stack[k].id == n;
      }
    }
  }

  lemma PopDeps(steps: seq<Step>, adj: Adjacency, node: string)
    requires Describes(adj, steps) && node in adj
    ensures forall s :: s in steps && s.id == node ==> |adj[node]| == |s.dependsOn|
  {
  }

  lemma SearchStart(steps: seq<Step>)
    requires UniqueIds(steps) && RefsOk(steps)
    ensures Searching(steps, AdjacencyOf(steps), map[], [], [], [], seq(|steps|, i => 0))
    ensures Sum(seq(|steps|, i => 0)) == 0
  {
    SumZero(|steps|);
    var adj := AdjacencyOf(steps);
    forall n, d | n in adj && d in adj[n]
      ensures d in adj
    {
      var i := StepOf(steps, n);
      var j :| 0 <= j < |steps[i].dependsOn| && steps[i].dependsOn[j] == d;
      assert GoodRef(steps, i, j);
    }
    forall n
      ensures ColorOkAt(map[], [], [], n)
    {
    }
  }

  /** With every step finished, the finishing order is topological and every iteration is accounted for. */
  lemma SearchDone(steps: seq<Step>, adj: Adjacency, color: map<string, nat>,
                   order: seq<string>, pushed: seq<string>, spent: seq<nat>)
    requires Searching(steps, adj, color, [], order, pushed, spent)
    requires forall i :: 0 <= i < |steps| ==> steps[i].id in order
    ensures TopologicalOrder(steps, order) && Sum(spent) == Work(steps)
  {
    forall i | 0 <= i < |steps|
      ensures spent[i] == Limits(steps)[i]
    {
      assert Spent(steps[i], [], order, spent[i]);
    }
    assert spent == Limits(steps);
  }

  /** The depth-first search proper. */
  method Search(steps: seq<Step>)
      returns (r: Outcome<DagError>, ghost pushed: seq<string>, ghost iterations: nat, ghost cycle: seq<string>)
    requires UniqueIds(steps) && RefsOk(steps)
    ensures r.Pass? <==> Acyclic(steps)
    ensures r.Pass? ==> iterations == Work(steps)
    ensures r.Fail? ==> Exhibits(steps, cycle, r.error)
    ensures iterations <= Work(steps)
    ensures Distinct(pushed) && forall n :: n in pushed ==> n in Ids(steps)
  {
    var adj := AdjacencyOf(steps);
    var color: map<string, nat> := map[];
    ghost var order: seq<string> := [];
    ghost var spent: seq<nat> := seq(|steps|, i => 0);
    SearchStart(steps);
    pushed, iterations, cycle := [], 0, [];
    for s := 0 to |steps|
      invariant Searching(steps, adj, color, [], order, pushed, spent)
      invariant forall i :: 0 <= i < s ==> steps[i].id in order
      invariant iterations == Sum(spent)
    {
      if ColorOf(color, steps[s].id) != WHITE {
        WasFinished(color, order, steps[s].id);
        continue;
      }
      assert steps[s] in steps;
      ghost var more;
      r, color, order, pushed, spent, more, cycle := Descend(steps, adj, steps[s].id, color, order, pushed, spent);
      iterations := iterations + more;
      if r.Fail? {
        CycleExcludesOrder(steps, cycle);
        return;
      }
      CoversEmpty(order, steps[s].id);
    }
    SearchDone(steps, adj, color, order, pushed, spent);
    PushedKnown(steps, adj, color, [], order, pushed);
    r := Pass;
  }

  lemma WasFinished(color: map<string, nat>, order: seq<string>, n: string)
    requires ColorsOk(color, [], order) && ColorOf(color, n) != WHITE
    ensures n in order
  {
    assert ColorOkAt(color, [], order, n);
  }

  lemma CoversEmpty(order: seq<string>, root: string)
    requires root in order || OnStack([], root)
    ensures root in order
  {
  }

  /** What an error says is true of the steps: the first repeated id, the first bad reference, or a cycle closed by the edge named. */
  ghost predicate Diagnoses(steps: seq<Step>, e: DagError) {
    match e
    case DuplicateId(id) =>
      exists i :: 0 <= i < |steps| && id == steps[i].id && UniqueIds(steps[..i]) && id in Ids(steps[..i])
    case SelfDependency(_) => UniqueIds(steps) && exists i, j :: BadRefAt(steps, i, j, e)
    case UnknownDependency(_, _) => UniqueIds(steps) && exists i, j :: BadRefAt(steps, i, j, e)
    case CycleVia(_, _) => UniqueIds(steps) && RefsOk(steps) && exists cycle :: Exhibits(steps, cycle, e)
  }

  /** A step and each of its dependencies, each once. */
  lemma {:induction false} WorkCounts(steps: seq<Step>)
    ensures Work(steps) == |steps| + Sum(seq(|steps|, i requires 0 <= i < |steps| => |steps[i].dependsOn|))
  {
    if steps != [] {
      var deps := seq(|steps|, i requires 0 <= i < |steps| => |steps[i].dependsOn|);
      var rest := steps[1..];
      assert Limits(steps)[1..] == Limits(rest);
      assert deps[1..] == seq(|rest|, i requires 0 <= i < |rest| => |rest[i].dependsOn|);
      WorkCounts(rest);
    }
  }

  /** `validate_dag`. */
  method ValidateDag(steps: seq<Step>)
      returns (r: Outcome<DagError>, ghost pushed: seq<string>, ghost iterations: nat, ghost cycle: seq<string>)
    ensures r.Pass? <==> WellFormed(steps)
    ensures r.Pass? ==> NeverStuck(steps)
    ensures r.Fail? ==> Diagnoses(steps, r.error)
    ensures r.Fail? && r.error.DuplicateId? <==> !UniqueIds(steps)
    ensures r.Fail? && (r.error.SelfDependency? || r.error.UnknownDependency?) <==> UniqueIds(steps) && !RefsOk(steps)
    ensures r.Fail? && r.error.CycleVia? <==> UniqueIds(steps) && RefsOk(steps) && !Acyclic(steps)
    ensures r.Fail? && r.error.CycleVia? ==> Exhibits(steps, cycle, r.error)
    ensures iterations <= Work(steps) && (r.Pass? ==> iterations == Work(steps))
    ensures Distinct(pushed) && forall n :: n in pushed ==> n in Ids(steps)
  {
    pushed, iterations, cycle := [], 0, [];
    r := CheckIds(steps);
    if r.Fail? {
      return;
    }
    r := CheckRefs(steps);
    if r.Fail? {
      return;
    }
    r, pushed, iterations, cycle := Search(steps);
    if r.Pass? {
      OrderNeverStuck(steps);
    }
  }
}
