/** The router as the object the tasks share: each method is one critical section of the source. */
module RouterObject {
  import opened Prelude
  import opened Codec
  import opened Router
  import opened RouterRuns

  /** Part of the map has been drained: exactly the calls taken out of it have been failed. */
  ghost predicate Draining(s0: State, calls: seq<Call>, pending: map<Id, nat>) {
    && KeysOk(s0) && |calls| == |s0.calls|
    && (forall key :: key in pending ==> key in s0.pending && pending[key] == s0.pending[key])
    && (forall i :: 0 <= i < |calls| ==>
          calls[i] == if Listed(s0, i) && KeyOf(i) !in pending then Fill(s0.calls[i], TRANSPORT_CLOSED) else s0.calls[i])
  }

  lemma DrainOne(s0: State, calls: seq<Call>, pending: map<Id, nat>, id: Id)
    requires Draining(s0, calls, pending) && id in pending
    ensures pending[id] < |calls|
    ensures Draining(s0, calls[pending[id] := Fill(calls[pending[id]], TRANSPORT_CLOSED)], pending - {id})
  {
    var i, rest := pending[id], pending - {id};
    forall j | 0 <= j < |calls|
      ensures Listed(s0, j) && KeyOf(j) !in rest <==> (Listed(s0, j) && KeyOf(j) !in pending) || j == i
    {
      if Listed(s0, j) && KeyOf(j) == id {
        assert j == i;
      }
    }
  }

  lemma DrainShrinks(pending: map<Id, nat>, id: Id)
    requires id in pending
    ensures |pending - {id}| < |pending|
  {
    var rest := pending - {id};
    assert pending == rest[id := pending[id]] && id !in rest;
    assert |pending| == |rest| + 1;
  }

  lemma DrainedAll(s0: State, calls: seq<Call>)
    requires Draining(s0, calls, map[])
    ensures calls == Drain(s0).calls
  {
  }

  /** One more event. */
  lemma RunNext(role: Role, t: seq<Event>, e: Event)
    ensures Run(role, t + [e]) == Next(Run(role, t), e)
  {
    assert (t + [e])[..|t|] == t;
  }

  /** A filled slot holds the first answer to its call since its registration, or the first close. */
  lemma SlotIsOwn(role: Role, t: seq<Event>, i: nat)
    requires i < |Run(role, t).calls| && Run(role, t).calls[i].slot.Some?
    ensures ItsAnswer(role, i, t, Run(role, t).calls[i].slot.value)
  {
    Isolation(role, t, i);
    TrackedRun(role, i, t, LostIn(role, t, i));
  }

  /** A call is cut off only by one with the same id. */
  lemma CutIsLost(role: Role, t: seq<Event>, i: nat)
    requires i < |Run(role, t).calls| && Run(role, t).calls[i].cut
    ensures PlaceLost(role, i, t)
  {
    Isolation(role, t, i);
    TrackedRun(role, i, t, LostIn(role, t, i));
  }

  lemma StillListed(role: Role, t: seq<Event>, i: nat)
    requires i < |Run(role, t).calls| && Run(role, t).calls[i].phase.Awaiting?
    ensures Listed(Run(role, t), i) <==> Run(role, t).calls[i].slot.None? && !Run(role, t).calls[i].cut
  {
    Isolation(role, t, i);
    SoloOkRun(role, i, t, LostIn(role, t, i));
  }

  /** What the receiver of a call's one-shot yields, if anything. */
  function PollOf(c: Call): Option<Router.Outcome> {
    if c.slot.Some? then Some(Answered(c.slot.value)) else if c.cut then Some(CutOff) else None
  }

  /**
   * The first response that bears the call's key since its registration, or a client's first close; a
   * failure only if another call was given the same id; and nothing while the call is still in the map.
   */
  ghost predicate Yields(role: Role, t: seq<Event>, i: nat, s: State, r: Option<Router.Outcome>) {
    match r
    case None => Listed(s, i)
    case Some(CutOff) => PlaceLost(role, i, t)
    case Some(Answered(m)) => ItsAnswer(role, i, t, m)
    case Some(SendFailed) => false
  }

  lemma PollMeans(role: Role, t: seq<Event>, i: nat, s: State)
    requires s == Run(role, t) && i < |s.calls| && s.calls[i].phase.Awaiting?
    ensures Yields(role, t, i, s, PollOf(s.calls[i]))
  {
    StillListed(role, t, i);
    if s.calls[i].slot.Some? {
      SlotIsOwn(role, t, i);
    } else if s.calls[i].cut {
      CutIsLost(role, t, i);
    }
  }

  /** Nobody is left waiting. */
  ghost predicate AllEnded(s: State) {
    forall i :: 0 <= i < |s.calls| && !s.calls[i].phase.Allocated? ==>
      s.calls[i].phase.Done? || s.calls[i].slot.Some? || s.calls[i].cut
  }

  lemma DrainAnswersAll(t: seq<Event>)
    requires !Run(Client, t).closed
    ensures AllEnded(Run(Client, t + [Close]))
  {
    var s, s' := Run(Client, t), Run(Client, t + [Close]);
    RunNext(Client, t, Close);
    forall i | 0 <= i < |s'.calls| && !s'.calls[i].phase.Allocated?
      ensures s'.calls[i].phase.Done? || s'.calls[i].slot.Some? || s'.calls[i].cut
    {
      ClientDrainFailsAll(t, [], i);
      assert t + [Close] + [] == t + [Close];
    }
  }

  class RouterCell {
    const role: Role
    var calls: seq<Call>
    var pending: map<Id, nat>
    var closed: bool
    var forwarded: seq<Message>

    /** The steps taken so far, by all tasks, in the order their critical sections ran. */
    ghost var history: seq<Event>

    ghost function View(): State
      reads this
    {
      State(role, calls, pending, closed, forwarded)
    }

    /** The shared state is that of a run of the machine, so every guarantee about runs is one about the object. */
    ghost predicate Valid()
      reads this
    {
      View() == Run(role, history)
    }

    constructor (role: Role)
      ensures Valid() && this.role == role && View() == Init(role) && history == []
    {
      this.role, calls, pending, closed, forwarded := role, [], map[], false, [];
      history := [];
    }

    /** `fetch_add` on the counter; the call number stands for the id taken. */
    method Take() returns (call: nat)
      requires Valid()
      modifies this`calls, this`history
      ensures Valid() && history == old(history) + [Allocate] && call == old(|calls|) < |calls|
    {
      RunNext(role, history, Allocate);
      call := |calls|;
      calls := calls + [Call(Allocated, None, false)];
      history := history + [Allocate];
    }

    /** Takes the entry under an id out of the map; its sender is dropped. */
    method Discard(id: Id)
      requires KeysOk(View())
      modifies this`calls, this`pending
      ensures View() == Evict(old(View()), id)
    {
      if id in pending {
        var i := pending[id];
        calls := calls[i := Cut(calls[i])];
      }
      pending := pending - {id};
    }

    /** The insert under the lock; an entry under the same id is replaced. */
    method Enlist(call: nat)
      requires Valid() && call < |calls| && calls[call].phase.Allocated?
      modifies this`calls, this`pending, this`history
      ensures Valid() && history == old(history) + [Register(call)] && call < |calls|
      ensures calls[call].phase.Registered? && Listed(View(), call)
    {
      RunNext(role, history, Register(call));
      KeysOkRun(role, history);
      Discard(KeyOf(call));
      pending := pending[KeyOf(call) := call];
      calls := calls[call := calls[call].(phase := Registered)];
      history := history + [Register(call)];
    }

    /** The end of `send`: on failure a client also clears the entry under its id. */
    method Sent(call: nat, ok: bool)
      requires Valid() && call < |calls| && calls[call].phase.Registered?
      modifies this`calls, this`pending, this`history
      ensures Valid() && history == old(history) + [if ok then SendOk(call) else SendFail(call)] && call < |calls|
      ensures calls[call].phase == if ok then Awaiting else Done(SendFailed)
    {
      RunNext(role, history, if ok then SendOk(call) else SendFail(call));
      KeysOkRun(role, history);
      calls := calls[call := calls[call].(phase := if ok then Awaiting else Done(SendFailed))];
      if !ok && role.Client? {
        Discard(KeyOf(call));
      }
      history := history + [if ok then SendOk(call) else SendFail(call)];
    }

    /** One decoded frame in the read loop; a response that names no issued call changes nothing. */
    method Receive(v: Json)
      requires Valid() && !closed
      modifies this`calls, this`pending, this`forwarded, this`history
      ensures Valid() && history == old(history) + [Inbound(v)]
      ensures Decode(v).Ok? && Decode(v).value.Response? && !NamesCall(v, |calls|) ==> View() == old(View())
    {
      RunNext(role, history, Inbound(v));
      KeysOkRun(role, history);
      if Decode(v).Ok? && Decode(v).value.Response? && !NamesCall(v, |calls|) {
        StrayResponseIgnored(role, history, v);
      }
      history := history + [Inbound(v)];
      var d := Decode(v);
      if d.Err? {
        return;
      }
      var m := d.value;
      if m.Response? {
        if m.id in pending {
          var i := pending[m.id];
          pending := pending - {m.id};
          calls := calls[i := Fill(calls[i], m)];
        }
      } else {
        forwarded := forwarded + [m];
      }
    }

    /** Fails one entry of the map and takes it out. */
    method DrainEntry(ghost s0: State)
      requires Draining(s0, calls, pending) && pending != map[]
      modifies this`calls, this`pending
      ensures Draining(s0, calls, pending) && |pending| < old(|pending|)
    {
      var id :| id in pending;
      var i := pending[id];
      DrainOne(s0, calls, pending, id);
      DrainShrinks(pending, id);
      pending := pending - {id};
      calls := calls[i := Fill(calls[i], TRANSPORT_CLOSED)];
    }

    /** Fails every entry of the map and empties it. */
    method DrainPending()
      requires KeysOk(View())
      modifies this`calls, this`pending
      ensures Draining(old(View()), calls, map[]) && pending == map[]
    {
      ghost var s0 := View();
      while pending != map[]
        invariant Draining(s0, calls, pending)
        decreases |pending|
      {
        DrainEntry(s0);
      }
    }

    /** The reader stops: a client drains the map, and no call registered so far is left waiting; a server only stops reading. */
    method Stop()
      requires Valid() && !closed
      modifies this`calls, this`pending, this`closed, this`history
      ensures Valid() && closed && history == old(history) + [Close]
      ensures role.Client? ==> AllEnded(View()) && pending == map[]
      ensures role.Server? ==> calls == old(calls) && pending == old(pending)
    {
      RunNext(role, history, Close);
      if role.Client? {
        KeysOkRun(role, history);
        DrainPending();
        DrainedAll(old(View()), calls);
        DrainAnswersAll(history);
      }
      closed := true;
      history := history + [Close];
    }

    /** The receiver of a call's one-shot is polled. */
    method Poll(call: nat) returns (r: Option<Router.Outcome>)
      requires Valid() && call < |calls| && calls[call].phase.Awaiting?
      modifies this`calls, this`history
      ensures Valid() && history == old(history) + [Wake(call)] && call < |calls|
      ensures Yields(role, old(history), call, old(View()), r)
      ensures calls[call].phase == if r.Some? then Done(r.value) else Awaiting
    {
      RunNext(role, history, Wake(call));
      PollMeans(role, history, call, View());
      r := PollOf(calls[call]);
      if r.Some? {
        calls := calls[call := calls[call].(phase := Done(r.value))];
      }
      history := history + [Wake(call)];
    }

    /** Whatever critical sections run in between, a call that has returned keeps its outcome. */
    twostate lemma ReturnsOnce(call: nat)
      requires old(Valid()) && Valid() && old(history) <= history && call < old(|calls|) && old(calls[call].phase.Done?)
      ensures call < |calls| && calls[call].phase == old(calls[call].phase)
    {
      var t := old(history);
      assert history == t + history[|t|..];
      EndsAtMostOnce(role, t, history[|t|..], call);
    }
  }
}
