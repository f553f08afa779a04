/** The task state machine, over single transitions and over whole runs. */
module TaskMachine {
  import opened Prelude

  datatype Status = Queued | Assigned | Running | Validating | Succeeded | Failed | Cancelled

  datatype Transition = Assign | Start | BeginValidate | Succeed | Fail | Cancel | Retry | NodeLost

  function Next(s: Status, t: Transition): Option<Status> {
    match (s, t)
    case (Queued, Assign) => Some(Assigned)
    case (Queued, Cancel) => Some(Cancelled)
    case (Queued, NodeLost) => Some(Failed)
    case (Assigned, Start) => Some(Running)
    case (Assigned, Cancel) => Some(Cancelled)
    case (Assigned, Retry) => Some(Queued)
    case (Assigned, NodeLost) => Some(Failed)
    case (Running, BeginValidate) => Some(Validating)
    case (Running, Succeed) => Some(Succeeded)
    case (Running, Fail) => Some(Failed)
    case (Running, Cancel) => Some(Cancelled)
    case (Running, NodeLost) => Some(Failed)
    case (Validating, Succeed) => Some(Succeeded)
    case (Validating, Fail) => Some(Failed)
    case (Validating, Cancel) => Some(Cancelled)
    case (Validating, NodeLost) => Some(Failed)
    case (Failed, Retry) => Some(Queued)
    case (Cancelled, Retry) => Some(Queued)
    case _ => None
  }

  /** Where each transition is accepted. */
  function From(t: Transition): set<Status> {
    match t
    case Assign => {Queued}
    case Start => {Assigned}
    case BeginValidate => {Running}
    case Succeed => {Running, Validating}
    case Fail => {Running, Validating}
    case Cancel => {Queued, Assigned, Running, Validating}
    case Retry => {Assigned, Failed, Cancelled}
    case NodeLost => {Queued, Assigned, Running, Validating}
  }

  /** Where it leads, from wherever it is accepted. */
  function To(t: Transition): Status {
    match t
    case Assign => Assigned
    case Start => Running
    case BeginValidate => Validating
    case Succeed => Succeeded
    case Fail => Failed
    case Cancel => Cancelled
    case Retry => Queued
    case NodeLost => Failed
  }

  /** The same machine read by transition: a transition's target does not depend on where it is taken. */
  lemma ReadByTransition(s: Status, t: Transition)
    ensures Next(s, t) == if s in From(t) then Some(To(t)) else None
  {
  }

  /** The status after a run, if every transition of it is accepted. */
  function Run(s: Status, run: seq<Transition>): Option<Status>
    decreases |run|
  {
    if run == [] then Some(s)
    else
      var n := Next(s, run[0]);
      if n.None? then None else Run(n.value, run[1..])
  }

  function Count(run: seq<Transition>, t: Transition): nat {
    if run == [] then 0 else (if run[0] == t then 1 else 0) + Count(run[1..], t)
  }

  /** Transitions left before the next retry is needed. */
  function Budget(s: Status): nat {
    match s
    case Queued => 4
    case Assigned => 3
    case Running => 2
    case Validating => 1
    case _ => 0
  }

  function MayAssign(s: Status): nat {
    if s.Queued? then 1 else 0
  }

  /** Each retry buys at most five transitions and one assignment; success is final. */
  lemma {:induction false} RunBounded(s: Status, run: seq<Transition>)
    requires Run(s, run).Some?
    ensures |run| <= 5 * Count(run, Retry) + Budget(s)
    ensures Count(run, Assign) <= Count(run, Retry) + MayAssign(s)
    ensures s.Succeeded? ==> run == []
    decreases |run|
  {
    if run != [] {
      RunBounded(Next(s, run[0]).value, run[1..]);
    }
  }

  const FAILED_ROUND: seq<Transition> := [Assign, Start, BeginValidate, Transition.Fail, Retry]
  const LAST_ROUND: seq<Transition> := [Assign, Start, BeginValidate, Succeed]

  /** A run that fails validation and retries `n` times, then succeeds. */
  function LongestRun(n: nat): seq<Transition> {
    if n == 0 then LAST_ROUND else FAILED_ROUND + LongestRun(n - 1)
  }

  lemma {:induction false} RunAppend(s: Status, a: seq<Transition>, b: seq<Transition>)
    requires Run(s, a).Some?
    ensures Run(s, a + b) == Run(Run(s, a).value, b)
    decreases |a|
  {
    if a == [] {
      assert a + b == b;
    } else {
      assert (a + b)[1..] == a[1..] + b;
      RunAppend(Next(s, a[0]).value, a[1..], b);
    }
  }

  lemma {:induction false} CountAppend(a: seq<Transition>, b: seq<Transition>, t: Transition)
    ensures Count(a + b, t) == Count(a, t) + Count(b, t)
  {
    if a == [] {
      assert a + b == b;
    } else {
      assert (a + b)[1..] == a[1..] + b;
      CountAppend(a[1..], b, t);
    }
  }

  lemma RunCons(s: Status, t: Transition, run: seq<Transition>)
    requires Next(s, t).Some?
    ensures Run(s, [t] + run) == Run(Next(s, t).value, run)
    ensures Count([t] + run, Retry) == Count(run, Retry) + (if t.Retry? then 1 else 0)
    ensures Count([t] + run, Assign) == Count(run, Assign) + (if t.Assign? then 1 else 0)
  {
    assert ([t] + run)[1..] == run;
  }

  lemma OneRound()
    ensures Run(Queued, FAILED_ROUND) == Some(Queued)
    ensures Count(FAILED_ROUND, Retry) == 1 && Count(FAILED_ROUND, Assign) == 1
    ensures Run(Queued, LAST_ROUND) == Some(Succeeded)
    ensures Count(LAST_ROUND, Retry) == 0 && Count(LAST_ROUND, Assign) == 1
  {
    Rounds(Transition.Fail, [Retry]);
    RunCons(Failed, Retry, []);
    assert FAILED_ROUND == [Assign] + ([Start] + ([BeginValidate] + ([Transition.Fail] + [Retry])));
    assert [Retry] + [] == [Retry];
    Rounds(Succeed, []);
    assert LAST_ROUND == [Assign] + ([Start] + ([BeginValidate] + ([Succeed] + [])));
  }

  lemma Rounds(verdict: Transition, run: seq<Transition>)
    requires verdict.Fail? || verdict.Succeed?
    ensures var whole := [Assign] + ([Start] + ([BeginValidate] + ([verdict] + run)));
      && Run(Queued, whole) == Run(Next(Validating, verdict).value, run)
      && Count(whole, Retry) == Count(run, Retry) && Count(whole, Assign) == Count(run, Assign) + 1
  {
    var r1 := [verdict] + run;
    var r2 := [BeginValidate] + r1;
    var r3 := [Start] + r2;
    RunCons(Validating, verdict, run);
    RunCons(Running, BeginValidate, r1);
    RunCons(Assigned, Start, r2);
    RunCons(Queued, Assign, r3);
  }

  /** The bounds are reached, for every number of retries. */
  lemma {:induction false} BoundsAreTight(n: nat)
    ensures Run(Queued, LongestRun(n)) == Some(Succeeded)
    ensures |LongestRun(n)| == 5 * n + 4 && Count(LongestRun(n), Retry) == n && Count(LongestRun(n), Assign) == n + 1
  {
    OneRound();
    if n > 0 {
      BoundsAreTight(n - 1);
      RunAppend(Queued, FAILED_ROUND, LongestRun(n - 1));
      CountAppend(FAILED_ROUND, LongestRun(n - 1), Retry);
      CountAppend(FAILED_ROUND, LongestRun(n - 1), Assign);
    }
  }
}

/** The attempt state machine, and attempts as part of a task's run. */
module AttemptMachine {
  import opened Prelude
  import TaskMachine

  datatype Status = Assigned | Running | Validating | Succeeded | Failed | Cancelled | Lost

  datatype Transition = Start | BeginValidate | Succeed | Fail | Cancel | NodeLost

  function Next(s: Status, t: Transition): Option<Status> {
    match (s, t)
    case (Assigned, Start) => Some(Running)
    case (Assigned, Cancel) => Some(Cancelled)
    case (Assigned, NodeLost) => Some(Lost)
    case (Running, BeginValidate) => Some(Validating)
    case (Running, Succeed) => Some(Succeeded)
    case (Running, Fail) => Some(Failed)
    case (Running, Cancel) => Some(Cancelled)
    case (Running, NodeLost) => Some(Lost)
    case (Validating, Succeed) => Some(Succeeded)
    case (Validating, Fail) => Some(Failed)
    case (Validating, Cancel) => Some(Cancelled)
    case (Validating, NodeLost) => Some(Lost)
    case _ => None
  }

  function Run(s: Status, run: seq<Transition>): Option<Status>
    decreases |run|
  {
    if run == [] then Some(s)
    else
      var n := Next(s, run[0]);
      if n.None? then None else Run(n.value, run[1..])
  }

  /** Where each transition is accepted, and where it leads. */
  function From(t: Transition): set<Status> {
    match t
    case Start => {Assigned}
    case BeginValidate => {Running}
    case Succeed => {Running, Validating}
    case Fail => {Running, Validating}
    case Cancel => {Assigned, Running, Validating}
    case NodeLost => {Assigned, Running, Validating}
  }

  function To(t: Transition): Status {
    match t
    case Start => Running
    case BeginValidate => Validating
    case Succeed => Succeeded
    case Fail => Failed
    case Cancel => Cancelled
    case NodeLost => Lost
  }

  lemma ReadByTransition(s: Status, t: Transition)
    ensures Next(s, t) == if s in From(t) then Some(To(t)) else None
  {
  }

  /** A run ends where its last transition leads; so it ends lost exactly if the node was lost last. */
  lemma {:induction false} EndsByLast(s: Status, run: seq<Transition>)
    requires run != [] && Run(s, run).Some?
    ensures Run(s, run) == Some(To(run[|run| - 1]))
    ensures Run(s, run) == Some(Lost) <==> run[|run| - 1] == NodeLost
    decreases |run|
  {
    ReadByTransition(s, run[0]);
    if |run| > 1 {
      EndsByLast(Next(s, run[0]).value, run[1..]);
    }
  }

  /** A lost attempt is a failed task. */
  function TaskView(s: Status): TaskMachine.Status {
    match s
    case Assigned => TaskMachine.Assigned
    case Running => TaskMachine.Running
    case Validating => TaskMachine.Validating
    case Succeeded => TaskMachine.Succeeded
    case Failed => TaskMachine.Failed
    case Cancelled => TaskMachine.Cancelled
    case Lost => TaskMachine.Failed
  }

  function TaskStep(t: Transition): TaskMachine.Transition {
    match t
    case Start => TaskMachine.Start
    case BeginValidate => TaskMachine.BeginValidate
    case Succeed => TaskMachine.Succeed
    case Fail => TaskMachine.Fail
    case Cancel => TaskMachine.Cancel
    case NodeLost => TaskMachine.NodeLost
  }

  function TaskSteps(run: seq<Transition>): seq<TaskMachine.Transition> {
    if run == [] then [] else [TaskStep(run[0])] + TaskSteps(run[1..])
  }

  /** The task machine accepts exactly the attempt runs, and ends where the attempt does. */
  lemma {:induction false} ReplaysAsTask(s: Status, run: seq<Transition>)
    ensures Run(s, run).Some? <==> TaskMachine.Run(TaskView(s), TaskSteps(run)).Some?
    ensures Run(s, run).Some? ==> TaskMachine.Run(TaskView(s), TaskSteps(run)) == Some(TaskView(Run(s, run).value))
    decreases |run|
  {
    if run != [] {
      assert TaskSteps(run)[0] == TaskStep(run[0]) && TaskSteps(run)[1..] == TaskSteps(run[1..]);
      var n := Next(s, run[0]);
      if n.Some? {
        ReplaysAsTask(n.value, run[1..]);
      }
    }
  }

  /** How many transitions an attempt can still make. */
  function Budget(s: Status): nat {
    match s
    case Assigned => 3
    case Running => 2
    case Validating => 1
    case _ => 0
  }

  lemma {:induction false} RunBounded(s: Status, run: seq<Transition>)
    requires Run(s, run).Some?
    ensures |run| <= Budget(s) <= 3
    decreases |run|
  {
    if run != [] {
      RunBounded(Next(s, run[0]).value, run[1..]);
    }
  }
}
