/** What every run of the router guarantees to each call, derived from the calls' isolation. */
module RouterRuns {
  import opened Prelude
  import opened Codec
  import opened Router

  /** A call is listed exactly while it may still be answered; a server also keeps a call whose send failed. */
  ghost predicate SoloOk(role: Role, c: Solo) {
    && (c.slot.Some? ==> !c.cut)
    && match c.phase
       case None => !c.listed && c.slot.None? && !c.cut
       case Some(Allocated) => !c.listed && c.slot.None? && !c.cut
       case Some(Registered) => c.listed <==> c.slot.None? && !c.cut
       case Some(Awaiting) => c.listed <==> c.slot.None? && !c.cut
       case Some(Done(SendFailed)) => role.Client? || c.slot.Some? || c.cut ==> !c.listed
       case Some(Done(CutOff)) => !c.listed && c.cut
       case Some(Done(Answered(m))) => !c.listed && c.slot == Some(m)
  }

  lemma SoloOkNext(role: Role, i: nat, c: Solo, e: Event)
    requires SoloOk(role, c) && (c.phase.None? <==> c.issued <= i)
    ensures var c' := SoloNext(role, i, c, e); SoloOk(role, c') && (c'.phase.None? <==> c'.issued <= i)
  {
  }

  lemma SoloOkCut(role: Role, i: nat, c: Solo)
    requires SoloOk(role, c) && (c.phase.None? <==> c.issued <= i)
    ensures var c' := SoloCut(c); SoloOk(role, c') && (c'.phase.None? <==> c'.issued <= i)
  {
  }

  lemma {:induction false} SoloOkRun(role: Role, i: nat, t: seq<Event>, lost: nat -> bool)
    ensures var c := SoloRun(role, i, t, lost); SoloOk(role, c) && (c.phase.None? <==> c.issued <= i)
  {
    if t != [] {
      var t0 := t[..|t| - 1];
      SoloOkRun(role, i, t0, lost);
      var c := SoloRun(role, i, t0, lost);
      SoloOkNext(role, i, c, t[|t| - 1]);
      SoloOkCut(role, i, SoloNext(role, i, c, t[|t| - 1]));
    }
  }

  /** The calls a client has issued split exactly: not yet registered, pending, answered or cut off but not returned, returned. */
  lemma IssuedSplit(t: seq<Event>, i: nat)
    requires i < |Run(Client, t).calls|
    ensures var s := Run(Client, t); var c := s.calls[i];
      Listed(s, i) <==> !c.phase.Allocated? && !c.phase.Done? && c.slot.None? && !c.cut
    ensures forall key :: key in Run(Client, t).pending ==>
              exists j :: 0 <= j < |Run(Client, t).calls| && key == KeyOf(j) && Listed(Run(Client, t), j)
  {
    KeysOkRun(Client, t);
    Isolation(Client, t, i);
    SoloOkRun(Client, i, t, LostIn(Client, t, i));
    var s := Run(Client, t);
    forall key | key in s.pending
      ensures exists j :: 0 <= j < |s.calls| && key == KeyOf(j) && Listed(s, j)
    {
      assert Listed(s, s.pending[key]);
    }
  }

  /** A server files calls the same way, except that a call whose send failed stays listed until a stray answer removes it. */
  lemma ServerSplit(t: seq<Event>, i: nat)
    requires i < |Run(Server, t).calls|
    ensures var s := Run(Server, t); var c := s.calls[i];
      && (c.phase.Registered? || c.phase.Awaiting? ==> (Listed(s, i) <==> c.slot.None? && !c.cut))
      && (c.phase.Allocated? || (c.phase.Done? && !c.phase.outcome.SendFailed?) ==> !Listed(s, i))
      && (c.phase.Registered? && Listed(s, i) ==>
            Listed(Next(s, SendFail(i)), i) && Next(s, SendFail(i)).calls[i].phase == Done(SendFailed))
  {
    KeysOkRun(Server, t);
    Isolation(Server, t, i);
    SoloOkRun(Server, i, t, LostIn(Server, t, i));
  }

  // ----- each call ends at most once ----------------------------------------------------------

  /** What a later state of a call keeps of an earlier one. */
  predicate Keeps(c: Solo, c': Solo) {
    && (IsDone(c) ==> c'.phase == c.phase)
    && (c.slot.Some? ==> c'.slot == c.slot)
    && (c.cut ==> c'.cut)
    && (c.closed ==> c'.closed)
    && c.issued <= c'.issued
    && (c.phase.Some? ==> c'.phase.Some?)
    && (Entered(c) ==> Entered(c'))
  }

  /** The call has been registered. */
  predicate Entered(c: Solo) {
    c.phase.Some? && !c.phase.value.Allocated?
  }

  lemma KeepsNext(role: Role, i: nat, c: Solo, e: Event, evicted: bool)
    requires SoloOk(role, c) && (c.phase.None? <==> c.issued <= i)
    ensures Keeps(c, SoloStep(role, i, c, e, evicted))
  {
  }

  lemma {:induction false} SoloSettled(role: Role, i: nat, t: seq<Event>, u: seq<Event>, lost: nat -> bool)
    ensures Keeps(SoloRun(role, i, t, lost), SoloRun(role, i, t + u, lost))
  {
    if u == [] {
      assert t + u == t;
    } else {
      var u0, e := u[..|u| - 1], u[|u| - 1];
      SoloSettled(role, i, t, u0, lost);
      assert t + u == (t + u0) + [e];
      var evicted := SoloLast(role, i, t + u0, e, lost);
      SoloOkRun(role, i, t + u0, lost);
      KeepsNext(role, i, SoloRun(role, i, t + u0, lost), e, evicted);
    }
  }

  /** A returned call keeps its outcome, and a filled slot its message, whatever happens next. */
  lemma EndsAtMostOnce(role: Role, t: seq<Event>, u: seq<Event>, i: nat)
    requires i < |Run(role, t).calls|
    ensures i < |Run(role, t + u).calls|
    ensures Run(role, t).calls[i].phase.Done? ==> Run(role, t + u).calls[i].phase == Run(role, t).calls[i].phase
    ensures Run(role, t).calls[i].slot.Some? ==> Run(role, t + u).calls[i].slot == Run(role, t).calls[i].slot
  {
    IsolationPrefix(role, t, u, i);
    Isolation(role, t + u, i);
    SoloSettled(role, i, t, u, LostIn(role, t + u, i));
  }

  // ----- and only with what belongs to it -----------------------------------------------------

  /** Event `e` ends the wait of a listed call `i` with message `m`. */
  predicate Delivers(role: Role, i: nat, e: Event, m: Message) {
    || (e.Inbound? && Answers(e.v, i) && m == Decode(e.v).value)
    || (role.Client? && e.Close? && m == TRANSPORT_CLOSED)
  }

  predicate Interrupts(i: nat, e: Event) {
    e.Close? || (e.Inbound? && Answers(e.v, i))
  }

  /** Event r is where call `i` entered the pending map. */
  ghost predicate RegisteredAt(role: Role, i: nat, t: seq<Event>, r: nat, lost: nat -> bool) {
    r < |t| && t[r] == Register(i) && SoloRun(role, i, t[..r], lost).phase == Some(Allocated)
  }

  /** `m` came from the first answer to call `i`, or the first close, after the call was registered. */
  ghost predicate DeliveredBy(role: Role, i: nat, t: seq<Event>, m: Message, r: nat, j: nat, lost: nat -> bool) {
    && r < j < |t| && RegisteredAt(role, i, t, r, lost) && Delivers(role, i, t[j], m)
    && (forall k :: r < k < j ==> !Interrupts(i, t[k]))
    && (forall k :: 0 <= k < j ==> !t[k].Close?)
  }

  ghost predicate WaitingSince(role: Role, i: nat, t: seq<Event>, r: nat, lost: nat -> bool) {
    RegisteredAt(role, i, t, r, lost) && forall k :: r < k < |t| ==> !Interrupts(i, t[k])
  }

  ghost predicate CloseTracked(role: Role, i: nat, t: seq<Event>, lost: nat -> bool) {
    SoloRun(role, i, t, lost).closed <==> exists k :: 0 <= k < |t| && t[k].Close?
  }

  ghost predicate WaitTracked(role: Role, i: nat, t: seq<Event>, lost: nat -> bool) {
    SoloRun(role, i, t, lost).listed && !SoloRun(role, i, t, lost).closed ==> exists r :: WaitingSince(role, i, t, r, lost)
  }

  ghost predicate SlotTracked(role: Role, i: nat, t: seq<Event>, lost: nat -> bool) {
    SoloRun(role, i, t, lost).slot.Some? ==> exists r, j :: DeliveredBy(role, i, t, SoloRun(role, i, t, lost).slot.value, r, j, lost)
  }

  ghost predicate CutTracked(role: Role, i: nat, t: seq<Event>, lost: nat -> bool) {
    SoloRun(role, i, t, lost).cut ==> exists k: nat :: k < |t| && lost(k)
  }

  ghost predicate FailTracked(role: Role, i: nat, t: seq<Event>, lost: nat -> bool) {
    SoloRun(role, i, t, lost).phase == Some(Done(SendFailed)) ==> SendFail(i) in t
  }

  lemma RegisteredAtExtends(role: Role, i: nat, t: seq<Event>, e: Event, r: nat, lost: nat -> bool)
    requires RegisteredAt(role, i, t, r, lost)
    ensures RegisteredAt(role, i, t + [e], r, lost)
  {
    assert (t + [e])[..r] == t[..r];
  }

  /** The last step of a run, as one of the call. */
  lemma SoloLast(role: Role, i: nat, t: seq<Event>, e: Event, lost: nat -> bool) returns (evicted: bool)
    ensures SoloRun(role, i, t + [e], lost) == SoloStep(role, i, SoloRun(role, i, t, lost), e, evicted)
    ensures evicted ==> lost(|t|)
    ensures (t + [e])[..|t|] == t && (t + [e])[|t|] == e
  {
    assert (t + [e])[..|t|] == t;
    evicted := lost(|t|);
  }

  lemma CloseTrackedNext(role: Role, i: nat, t: seq<Event>, e: Event, lost: nat -> bool)
    requires CloseTracked(role, i, t, lost)
    ensures CloseTracked(role, i, t + [e], lost)
  {
    var t' := t + [e];
    var evicted := SoloLast(role, i, t, e, lost);
    if k :| 0 <= k < |t| && t[k].Close? {
      assert t'[k].Close?;
    }
  }

  lemma WaitTrackedNext(role: Role, i: nat, t: seq<Event>, e: Event, lost: nat -> bool)
    requires WaitTracked(role, i, t, lost)
    ensures WaitTracked(role, i, t + [e], lost)
  {
    var t' := t + [e];
    var evicted := SoloLast(role, i, t, e, lost);
    var c, c' := SoloRun(role, i, t, lost), SoloRun(role, i, t', lost);
    if c'.listed && !c'.closed {
      if c.listed {
        var r :| WaitingSince(role, i, t, r, lost);
        RegisteredAtExtends(role, i, t, e, r, lost);
        assert WaitingSince(role, i, t', r, lost);
      } else {
        assert WaitingSince(role, i, t', |t|, lost);
      }
    }
  }

  lemma SlotTrackedNext(role: Role, i: nat, t: seq<Event>, e: Event, lost: nat -> bool)
    requires CloseTracked(role, i, t, lost) && WaitTracked(role, i, t, lost) && SlotTracked(role, i, t, lost)
    requires SoloOk(role, SoloRun(role, i, t, lost))
    ensures SlotTracked(role, i, t + [e], lost)
  {
    var t' := t + [e];
    var evicted := SoloLast(role, i, t, e, lost);
    var c, c' := SoloRun(role, i, t, lost), SoloRun(role, i, t', lost);
    if c.slot.Some? {
      var r, j :| DeliveredBy(role, i, t, c.slot.value, r, j, lost);
      RegisteredAtExtends(role, i, t, e, r, lost);
      assert DeliveredBy(role, i, t', c.slot.value, r, j, lost);
    } else if c'.slot.Some? {
      var r :| WaitingSince(role, i, t, r, lost);
      RegisteredAtExtends(role, i, t, e, r, lost);
      assert DeliveredBy(role, i, t', c'.slot.value, r, |t|, lost);
    }
  }

  lemma CutTrackedNext(role: Role, i: nat, t: seq<Event>, e: Event, lost: nat -> bool)
    requires CutTracked(role, i, t, lost)
    ensures CutTracked(role, i, t + [e], lost)
  {
    var t' := t + [e];
    var evicted := SoloLast(role, i, t, e, lost);
    if SoloRun(role, i, t, lost).cut {
      var k: nat :| k < |t| && lost(k);
      assert k < |t'| && lost(k);
    } else if SoloRun(role, i, t', lost).cut {
      assert |t| < |t'| && lost(|t|);
    }
  }

  lemma FailTrackedNext(role: Role, i: nat, t: seq<Event>, e: Event, lost: nat -> bool)
    requires FailTracked(role, i, t, lost)
    ensures FailTracked(role, i, t + [e], lost)
  {
    var evicted := SoloLast(role, i, t, e, lost);
  }

  lemma {:induction false} TrackedRun(role: Role, i: nat, t: seq<Event>, lost: nat -> bool)
    ensures CloseTracked(role, i, t, lost) && WaitTracked(role, i, t, lost) && SlotTracked(role, i, t, lost)
    ensures CutTracked(role, i, t, lost) && FailTracked(role, i, t, lost)
  {
    if t != [] {
      var t0, e := t[..|t| - 1], t[|t| - 1];
      TrackedRun(role, i, t0, lost);
      SoloOkRun(role, i, t0, lost);
      assert t == t0 + [e];
      CloseTrackedNext(role, i, t0, e, lost);
      WaitTrackedNext(role, i, t0, e, lost);
      SlotTrackedNext(role, i, t0, e, lost);
      CutTrackedNext(role, i, t0, e, lost);
      FailTrackedNext(role, i, t0, e, lost);
    }
  }

  /** `m` came from the first answer to call `i`, or the first close, since it was registered. */
  ghost predicate ItsAnswer(role: Role, i: nat, t: seq<Event>, m: Message) {
    exists r, j :: DeliveredBy(role, i, t, m, r, j, LostIn(role, t, i))
  }

  /** Somewhere in the run a call with the same id took the place of call `i`. */
  ghost predicate PlaceLost(role: Role, i: nat, t: seq<Event>) {
    exists k: nat :: k < |t| && LostIn(role, t, i)(k)
  }

  /**
   * A call returns only with its own send error, with the first response that bears its key after it
   * was registered, with the transport-closed answer of a client's first close, or because a later call
   * was given the same id and took its place.
   */
  lemma EndsWithItsOwn(role: Role, t: seq<Event>, i: nat)
    requires i < |Run(role, t).calls| && Run(role, t).calls[i].phase.Done?
    ensures match Run(role, t).calls[i].phase.outcome
            case SendFailed => SendFail(i) in t
            case Answered(m) => ItsAnswer(role, i, t, m)
            case CutOff => PlaceLost(role, i, t)
  {
    Isolation(role, t, i);
    SoloOkRun(role, i, t, LostIn(role, t, i));
    TrackedRun(role, i, t, LostIn(role, t, i));
  }

  lemma {:induction false} CallsGrow(role: Role, t: seq<Event>, k: nat)
    requires k <= |t|
    ensures |Run(role, t[..k]).calls| <= |Run(role, t).calls|
  {
    if k == |t| {
      assert t[..k] == t;
    } else {
      var t0 := t[..|t| - 1];
      CallsGrow(role, t0, k);
      assert t0[..k] == t[..k];
      KeysOkRun(role, t0);
      KeysOkNext(Run(role, t0), t[|t| - 1]);
    }
  }

  lemma NothingLostBelowWrap(role: Role, t: seq<Event>, i: nat, k: nat)
    requires i < |Run(role, t).calls| <= TWO_64
    ensures !LostIn(role, t, i)(k)
  {
    if k < |t| {
      CallsGrow(role, t, k);
      NoTwinsBelowWrap(Run(role, t[..k]), t[k], i);
    }
  }

  /** No call is cut off before 2^64 calls have been issued. */
  lemma NeverCutBelowWrap(role: Role, t: seq<Event>, i: nat)
    requires i < |Run(role, t).calls| <= TWO_64
    ensures !Run(role, t).calls[i].cut
    ensures Run(role, t).calls[i].phase.Done? ==> !Run(role, t).calls[i].phase.outcome.CutOff?
  {
    var lost := LostIn(role, t, i);
    Isolation(role, t, i);
    SoloOkRun(role, i, t, lost);
    SoloNeverCut(role, i, t, lost);
  }

  lemma SoloNeverCut(role: Role, i: nat, t: seq<Event>, lost: nat -> bool)
    requires i < |Run(role, t).calls| <= TWO_64 && lost == LostIn(role, t, i)
    ensures !SoloRun(role, i, t, lost).cut
  {
    TrackedRun(role, i, t, lost);
    if SoloRun(role, i, t, lost).cut {
      var k: nat :| k < |t| && lost(k);
      NothingLostBelowWrap(role, t, i, k);
    }
  }

  lemma TwinRegisters(s: State, i: nat, j: nat, s': State)
    requires KeysOk(s) && Listed(s, i) && j < |s.calls| && s.calls[j].phase.Allocated? && Twins(i, j) && s' == Next(s, Register(j))
    ensures Project(s', i) == SoloCut(Project(s, i)) && Listed(s', j)
  {
    RegisterProjects(s, j, i);
    RegisterProjects(s, j, j);
  }

  lemma CutMeans(s: State, s': State, i: nat)
    requires i < |s.calls| && Listed(s, i) && s.calls[i].phase.Awaiting? && s.calls[i].slot.None?
    requires Project(s', i) == SoloCut(Project(s, i))
    ensures !Listed(s', i) && i < |s'.calls| && Next(s', Wake(i)).calls[i].phase == Done(CutOff)
  {
    WokenCut(s', i);
  }

  /**
   * After that it happens: when a call is given the id of one that waits - the next such call comes 2^64
   * calls later - it takes its entry, and the waiting one returns empty-handed.
   */
  lemma ReusedIdCutsOff(s: State, i: nat, j: nat, s': State)
    requires KeysOk(s) && i < |s.calls| && Listed(s, i) && s.calls[i].phase.Awaiting? && s.calls[i].slot.None?
    requires Twins(i, j) && j < |s.calls| && s.calls[j].phase.Allocated? && s' == Next(s, Register(j))
    ensures Listed(s', j) && !Listed(s', i) && i < |s'.calls| && Next(s', Wake(i)).calls[i].phase == Done(CutOff)
  {
    TwinRegisters(s, i, j, s');
    CutMeans(s, s', i);
  }

  lemma WokenCut(s: State, i: nat)
    requires i < |s.calls| && s.calls[i].phase.Awaiting? && s.calls[i].slot.None? && s.calls[i].cut
    ensures Next(s, Wake(i)).calls[i].phase == Done(CutOff)
  {
  }

  /** Still waiting: listed with an empty slot, or given up by its own sender, or cut off. */
  predicate Waits(c: Solo) {
    !c.closed && (c.phase == Some(Done(SendFailed)) || c.cut || (c.listed && c.slot.None?))
  }

  lemma RegisterWaits(role: Role, i: nat, c: Solo)
    requires SoloOk(role, c) && c.phase == Some(Allocated) && !c.closed
    ensures Waits(SoloNext(role, i, c, Register(i)))
  {
  }

  lemma WaitsOn(role: Role, i: nat, c: Solo, e: Event, evicted: bool)
    requires SoloOk(role, c) && Waits(c) && (c.phase.None? <==> c.issued <= i) && !Interrupts(i, e)
    ensures Waits(SoloStep(role, i, c, e, evicted))
  {
  }

  /** Between registration and the first answer or close, a call stays listed unless its send failed or it was cut off. */
  lemma {:induction false} StaysListed(role: Role, i: nat, t: seq<Event>, r: nat, j: nat, lost: nat -> bool)
    requires RegisteredAt(role, i, t, r, lost) && r < j <= |t|
    requires (forall k :: r < k < j ==> !Interrupts(i, t[k])) && (forall k :: 0 <= k < j ==> !t[k].Close?)
    ensures Waits(SoloRun(role, i, t[..j], lost))
    decreases j
  {
    var t0, e := t[..j - 1], t[j - 1];
    assert t[..j] == t0 + [e];
    var evicted := SoloLast(role, i, t0, e, lost);
    SoloOkRun(role, i, t0, lost);
    if j - 1 > r {
      StaysListed(role, i, t, r, j - 1, lost);
      WaitsOn(role, i, SoloRun(role, i, t0, lost), e, evicted);
    } else {
      TrackedRun(role, i, t0, lost);
      RegisterWaits(role, i, SoloRun(role, i, t0, lost));
    }
  }

  lemma AnswerFills(role: Role, i: nat, c: Solo, e: Event, m: Message)
    requires SoloOk(role, c) && Waits(c) && Delivers(role, i, e, m)
    ensures forall evicted :: var c' := SoloStep(role, i, c, e, evicted);
              c'.slot == Some(m) || c'.cut || c'.phase == Some(Done(SendFailed))
  {
  }

  lemma SoloAnswered(role: Role, i: nat, t: seq<Event>, m: Message, r: nat, j: nat, lost: nat -> bool)
    requires DeliveredBy(role, i, t, m, r, j, lost)
    ensures var c := SoloRun(role, i, t[..j + 1], lost); c.slot == Some(m) || c.cut || c.phase == Some(Done(SendFailed))
  {
    StaysListed(role, i, t, r, j, lost);
    assert t[..j + 1] == t[..j] + [t[j]];
    var evicted := SoloLast(role, i, t[..j], t[j], lost);
    SoloOkRun(role, i, t[..j], lost);
    AnswerFills(role, i, SoloRun(role, i, t[..j], lost), t[j], m);
  }

  /** The message has reached the call, unless it had given up or lost its place. */
  predicate Reached(c: Solo, m: Message) {
    c.slot == Some(m) || c.cut || c.phase == Some(Done(SendFailed))
  }

  lemma SoloReached(role: Role, i: nat, t: seq<Event>, m: Message, r: nat, j: nat, lost: nat -> bool)
    requires DeliveredBy(role, i, t, m, r, j, lost)
    ensures Reached(SoloRun(role, i, t, lost), m)
  {
    var t1, t2 := t[..j + 1], t[j + 1..];
    SoloAnswered(role, i, t, m, r, j, lost);
    SoloSettled(role, i, t1, t2, lost);
    assert t1 + t2 == t;
  }

  /** Conversely no answer is lost: the first answer, or the drain, fills the slot of a call that was sent and not cut off. */
  lemma AnswerReachesItsCall(role: Role, t: seq<Event>, i: nat, m: Message, r: nat, j: nat)
    requires i < |Run(role, t).calls| && DeliveredBy(role, i, t, m, r, j, LostIn(role, t, i))
    ensures var c := Run(role, t).calls[i]; c.slot == Some(m) || c.cut || c.phase == Done(SendFailed)
  {
    Isolation(role, t, i);
    SoloReached(role, i, t, m, r, j, LostIn(role, t, i));
  }

  // ----- the close ----------------------------------------------------------------------------

  /** What the steps after the reader has stopped leave of a call. */
  predicate LeftAlone(c: Solo, c': Solo) {
    && c'.closed && c'.slot == c.slot
    && (Entered(c) && !c.listed ==> !c'.listed)
    && (c.slot.None? && IsDone(c') && c'.phase.value.outcome.Answered? ==> c'.phase == c.phase)
  }

  lemma LeftAloneNext(role: Role, i: nat, c0: Solo, c: Solo, e: Event, evicted: bool)
    requires SoloOk(role, c0) && SoloOk(role, c) && LeftAlone(c0, c) && Keeps(c0, c) && (c.phase.None? <==> c.issued <= i)
    ensures LeftAlone(c0, SoloStep(role, i, c, e, evicted))
  {
  }

  lemma LeftAloneLast(role: Role, i: nat, c0: Solo, t: seq<Event>, e: Event, lost: nat -> bool)
    requires SoloOk(role, c0) && LeftAlone(c0, SoloRun(role, i, t, lost)) && Keeps(c0, SoloRun(role, i, t, lost))
    ensures LeftAlone(c0, SoloRun(role, i, t + [e], lost))
  {
    SoloOkRun(role, i, t, lost);
    var evicted := SoloLast(role, i, t, e, lost);
    LeftAloneNext(role, i, c0, SoloRun(role, i, t, lost), e, evicted);
  }

  lemma {:induction false} SoloAfterClose(role: Role, i: nat, t: seq<Event>, u: seq<Event>, lost: nat -> bool)
    requires SoloRun(role, i, t, lost).closed
    ensures LeftAlone(SoloRun(role, i, t, lost), SoloRun(role, i, t + u, lost))
  {
    if u == [] {
      assert t + u == t;
    } else {
      var u0 := u[..|u| - 1];
      SoloAfterClose(role, i, t, u0, lost);
      SoloSettled(role, i, t, u0, lost);
      SoloOkRun(role, i, t, lost);
      LeftAloneLast(role, i, SoloRun(role, i, t, lost), t + u0, u[|u| - 1], lost);
      assert t + u == (t + u0) + [u[|u| - 1]];
    }
  }

  /** The drain takes a registered call out of the map, with an answer if it was in it. */
  lemma Drained(c: Solo, i: nat)
    requires SoloOk(Client, c) && !c.closed && Entered(c)
    ensures forall evicted :: var c' := SoloStep(Client, i, c, Close, evicted);
      && c'.closed && !c'.listed && c'.phase == c.phase && (IsDone(c') || c'.slot.Some? || c'.cut)
      && (c.listed ==> c'.slot == Some(TRANSPORT_CLOSED))
  {
  }

  /** A registered call before and after the drain. */
  ghost predicate Released(c: Solo, c': Solo) {
    && SoloOk(Client, c') && !c'.listed && Entered(c')
    && (IsDone(c') || c'.slot.Some? || c'.cut) && (c.listed ==> c'.slot == Some(TRANSPORT_CLOSED))
  }

  lemma SoloDrained(i: nat, t: seq<Event>, u: seq<Event>, lost: nat -> bool)
    requires var c := SoloRun(Client, i, t, lost); !c.closed && Entered(c)
    ensures Released(SoloRun(Client, i, t, lost), SoloRun(Client, i, t + [Close] + u, lost))
  {
    var t1 := t + [Close];
    SoloOkRun(Client, i, t, lost);
    var evicted := SoloLast(Client, i, t, Close, lost);
    Drained(SoloRun(Client, i, t, lost), i);
    SoloAfterClose(Client, i, t1, u, lost);
    SoloSettled(Client, i, t1, u, lost);
    SoloOkRun(Client, i, t1 + u, lost);
  }

  /** Call `i` has ended, or has what ends it, and waking it returns it. */
  ghost predicate Ended(s: State, i: nat) {
    && i < |s.calls| && !Listed(s, i)
    && (s.calls[i].phase.Done? || s.calls[i].slot.Some? || s.calls[i].cut)
    && (s.calls[i].phase.Awaiting? ==> Next(s, Wake(i)).calls[i].phase.Done?)
  }

  lemma ReleasedEnds(s: State, i: nat, c: Solo)
    requires Released(c, Project(s, i))
    ensures Ended(s, i)
  {
  }

  /** The client's drain leaves no call registered before it pending. */
  lemma ClientDrainFailsAll(t: seq<Event>, u: seq<Event>, i: nat)
    requires !Run(Client, t).closed && i < |Run(Client, t).calls| && !Run(Client, t).calls[i].phase.Allocated?
    ensures var s := Run(Client, t + [Close] + u);
      Ended(s, i) && (Listed(Run(Client, t), i) ==> s.calls[i].slot == Some(TRANSPORT_CLOSED))
  {
    var lost := LostIn(Client, t + [Close] + u, i);
    assert t + ([Close] + u) == t + [Close] + u;
    IsolationPrefix(Client, t, [Close] + u, i);
    SoloDrained(i, t, u, lost);
    Isolation(Client, t + [Close] + u, i);
    ReleasedEnds(Run(Client, t + [Close] + u), i, SoloRun(Client, i, t, lost));
  }

  /**
   * The other side of that guarantee: once the reader has stopped, a call with an empty slot is never
   * answered. On a client these are the calls registered after the drain; on a server, which never
   * drains, all calls in flight. Only their own send error, or the loss of their id, can still end them.
   */
  lemma UnansweredAfterClose(role: Role, t: seq<Event>, u: seq<Event>, i: nat)
    requires Run(role, t).closed && i < |Run(role, t + u).calls|
    requires i < |Run(role, t).calls| ==> Run(role, t).calls[i].slot.None?
    ensures var c := Run(role, t + u).calls[i];
      c.slot.None? && (c.phase.Done? ==> c.phase.outcome.SendFailed? || c.phase.outcome.CutOff?)
  {
    var lost := LostIn(role, t + u, i);
    IsolationPrefix(role, t, u, i);
    Isolation(role, t + u, i);
    SoloOkRun(role, i, t, lost);
    SoloOkRun(role, i, t + u, lost);
    SoloAfterClose(role, i, t, u, lost);
  }

  // ----- what a peer cannot do ----------------------------------------------------------------

  /** The id of `v` is read as the number of an issued call. */
  predicate NamesCall(v: Json, issued: nat) {
    v.Obj? && IdField(v.fields).IdNum? && (IdField(v.fields).n - 1) % TWO_64 < issued
  }

  /** Before the counter has wrapped to 0, that takes a whole number in range: a missing, textual or fractional id names no call. */
  lemma OnlyWholeNumbersName(v: Json, issued: nat)
    requires issued < TWO_64
    ensures NamesCall(v, issued) <==>
            && v.Obj? && "id" in v.fields && v.fields["id"].Num? && v.fields["id"].number.Int?
            && FitsI64(v.fields["id"].number.n) && 1 <= v.fields["id"].number.n % TWO_64 <= issued
  {
  }

  lemma KeyNumber(i: nat)
    ensures (KeyOf(i).n - 1) % TWO_64 <= i
  {
  }

  lemma DecodedId(v: Json)
    requires Decode(v).Ok? && Decode(v).value.Response?
    ensures v.Obj? && Decode(v).value.id == IdField(v.fields)
  {
  }

  /** A peer request or notification is handed on and touches no call, even if its id equals a pending key. */
  lemma PeerTrafficIsSeparate(s: State, v: Json)
    requires Decode(v).Ok? && !Decode(v).value.Response? && !s.closed
    ensures Next(s, Inbound(v)) == s.(forwarded := s.forwarded + [Decode(v).value])
  {
  }

  /** A response whose id names no issued call changes nothing. */
  lemma StrayResponseIgnored(role: Role, t: seq<Event>, v: Json)
    requires Decode(v).Ok? && Decode(v).value.Response? && !NamesCall(v, |Run(role, t).calls|)
    ensures Next(Run(role, t), Inbound(v)) == Run(role, t)
  {
    var s := Run(role, t);
    KeysOkRun(role, t);
    DecodedId(v);
    if Decode(v).value.id in s.pending {
      KeyNumber(s.pending[Decode(v).value.id]);
    }
  }

  // ----- what the caller gets -----------------------------------------------------------------

  /** What `request` returns. */
  datatype Returned = Value(v: Json) | RpcFailed(error: RpcError) | UnexpectedShape | ChannelClosed | NotSent

  function ReturnedBy(out: Router.Outcome): Returned {
    match out
    case SendFailed => NotSent
    case CutOff => ChannelClosed
    case Answered(m) =>
      if !m.Response? then UnexpectedShape
      else if m.result.Ok? then Value(m.result.value)
      else RpcFailed(m.result.error)
  }

  /** The id of a JSON object is read as the number n. */
  predicate IdReads(o: map<string, Json>, n: I64) {
    && "id" in o && o["id"].Num?
    && (o["id"].number == Int(n) || (n == 0 && !(o["id"].number.Int? && FitsI64(o["id"].number.n))))
  }

  /** A JSON-RPC response object that bears the number of call `i`. */
  predicate RespondsTo(v: Json, i: nat) {
    && v.Obj? && "jsonrpc" in v.fields && v.fields["jsonrpc"] == Str("2.0")
    && !("method" in v.fields && v.fields["method"].Str?)
    && IdReads(v.fields, KeyOf(i).n)
  }

  predicate CarriesResult(v: Json, i: nat, x: Json) {
    RespondsTo(v, i) && "error" !in v.fields && "result" in v.fields && v.fields["result"] == x
  }

  predicate CarriesError(v: Json, i: nat, e: RpcError) {
    RespondsTo(v, i) && "error" in v.fields && ErrorFromValue(v.fields["error"]) == Some(e)
  }

  /** A peer's answer to call `i` is a response object with its number and a result or a readable error, and nothing else is. */
  lemma AnswersExactly(v: Json, i: nat)
    ensures Answers(v, i) <==>
            RespondsTo(v, i) && if "error" in v.fields then ErrorFromValue(v.fields["error"]).Some? else "result" in v.fields
  {
    if Answers(v, i) {
      DecodedId(v);
    }
  }

  /** What a peer's answer makes `request` return: its result, or its error. */
  lemma ResultGives(v: Json, i: nat, x: Json)
    requires CarriesResult(v, i, x)
    ensures Answers(v, i) && ReturnedBy(Answered(Decode(v).value)) == Value(x)
  {
  }

  lemma ErrorGives(v: Json, i: nat, e: RpcError)
    requires CarriesError(v, i, e)
    ensures Answers(v, i) && ReturnedBy(Answered(Decode(v).value)) == RpcFailed(e)
  {
  }

  /** On a client, a close makes it fail with the transport-closed error. */
  lemma ClosedGives()
    ensures ReturnedBy(Answered(TRANSPORT_CLOSED)) == RpcFailed(RpcError(-32000, "transport closed", None))
  {
  }

  ghost predicate GotResult(t: seq<Event>, i: nat, x: Json) {
    exists k :: 0 <= k < |t| && t[k].Inbound? && CarriesResult(t[k].v, i, x)
  }

  ghost predicate GotError(t: seq<Event>, i: nat, e: RpcError) {
    exists k :: 0 <= k < |t| && t[k].Inbound? && CarriesError(t[k].v, i, e)
  }

  ghost predicate SawClose(t: seq<Event>) {
    exists k :: 0 <= k < |t| && t[k].Close?
  }

  /** Where what a call returned came from. */
  ghost predicate CameFrom(role: Role, t: seq<Event>, i: nat, r: Returned) {
    && (r.Value? ==> GotResult(t, i, r.v))
    && (r.RpcFailed? ==>
          GotError(t, i, r.error) || (role.Client? && SawClose(t) && r.error == RpcError(-32000, "transport closed", None)))
    && !r.UnexpectedShape?
    && (r.ChannelClosed? ==> PlaceLost(role, i, t))
    && (r.NotSent? ==> SendFail(i) in t)
  }

  /** What one event that ends a wait makes the call return. */
  lemma EventGives(role: Role, i: nat, e: Event, m: Message)
    requires Delivers(role, i, e, m)
    ensures var r := ReturnedBy(Answered(m));
      if e.Inbound? then (r.Value? && CarriesResult(e.v, i, r.v)) || (r.RpcFailed? && CarriesError(e.v, i, r.error))
      else role.Client? && e.Close? && r == RpcFailed(RpcError(-32000, "transport closed", None))
  {
    if e.Inbound? {
      var v := e.v;
      AnswersExactly(v, i);
      if "error" in v.fields {
        ErrorGives(v, i, ErrorFromValue(v.fields["error"]).value);
      } else {
        ResultGives(v, i, v.fields["result"]);
      }
    } else {
      ClosedGives();
    }
  }

  lemma EventCame(role: Role, t: seq<Event>, i: nat, k: nat, r: Returned)
    requires k < |t|
    requires if t[k].Inbound? then (r.Value? && CarriesResult(t[k].v, i, r.v)) || (r.RpcFailed? && CarriesError(t[k].v, i, r.error))
             else role.Client? && t[k].Close? && r == RpcFailed(RpcError(-32000, "transport closed", None))
    ensures CameFrom(role, t, i, r)
  {
  }

  lemma AnswerEvent(role: Role, i: nat, t: seq<Event>, m: Message) returns (k: nat)
    requires ItsAnswer(role, i, t, m)
    ensures k < |t| && Delivers(role, i, t[k], m)
  {
    var r, j :| DeliveredBy(role, i, t, m, r, j, LostIn(role, t, i));
    k := j;
  }

  lemma EventExplains(role: Role, i: nat, t: seq<Event>, m: Message, k: nat)
    requires k < |t| && Delivers(role, i, t[k], m)
    ensures CameFrom(role, t, i, ReturnedBy(Answered(m)))
  {
    EventGives(role, i, t[k], m);
    EventCame(role, t, i, k, ReturnedBy(Answered(m)));
  }

  /**
   * What a call returns with, in terms of what came in: a result or an error only from a response object
   * that bears its number, or - on a client - the transport-closed error after a close.
   */
  lemma ReturnsWhatCame(role: Role, t: seq<Event>, i: nat)
    requires i < |Run(role, t).calls| && Run(role, t).calls[i].phase.Done?
    ensures CameFrom(role, t, i, ReturnedBy(Run(role, t).calls[i].phase.outcome))
  {
    EndsWithItsOwn(role, t, i);
    var out := Run(role, t).calls[i].phase.outcome;
    if out.Answered? {
      var k := AnswerEvent(role, i, t, out.m);
      EventExplains(role, i, t, out.m, k);
    }
  }

  /** Waking a call with a filled slot returns what is in it. */
  lemma WokenReturns(s: State, i: nat, m: Message)
    requires i < |s.calls| && s.calls[i].phase.Awaiting? && s.calls[i].slot == Some(m)
    ensures Next(s, Wake(i)).calls[i].phase == Done(Answered(m))
  {
  }

  /** A client's call that was in the map when the transport closed fails with that error, unless its send already had. */
  lemma CloseFailsCall(t: seq<Event>, u: seq<Event>, i: nat)
    requires !Run(Client, t).closed && i < |Run(Client, t).calls| && Listed(Run(Client, t), i)
    ensures var s := Run(Client, t + [Close] + u);
      && i < |s.calls|
      && (s.calls[i].phase.Done? ==>
            ReturnedBy(s.calls[i].phase.outcome) in {NotSent, RpcFailed(RpcError(-32000, "transport closed", None))})
      && (s.calls[i].phase.Awaiting? ==>
            && Next(s, Wake(i)).calls[i].phase.Done?
            && ReturnedBy(Next(s, Wake(i)).calls[i].phase.outcome) == RpcFailed(RpcError(-32000, "transport closed", None)))
  {
    KeysOkRun(Client, t);
    ClientDrainFailsAll(t, u, i);
    var s := Run(Client, t + [Close] + u);
    ClosedGives();
    if s.calls[i].phase.Awaiting? {
      WokenReturns(s, i, TRANSPORT_CLOSED);
    } else if s.calls[i].phase.Done? {
      SlotReturned(Client, t + [Close] + u, i);
    }
  }

  /** A call that returned with its slot filled returned what is in it, or its own send error. */
  lemma SlotReturned(role: Role, t: seq<Event>, i: nat)
    requires i < |Run(role, t).calls| && Run(role, t).calls[i].phase.Done? && Run(role, t).calls[i].slot.Some?
    ensures var c := Run(role, t).calls[i]; c.phase.outcome.SendFailed? || c.phase.outcome == Answered(c.slot.value)
  {
    Isolation(role, t, i);
    SoloOkRun(role, i, t, LostIn(role, t, i));
  }

  /** And a result that comes in first is what a waiting call returns. */
  lemma ResultReturned(role: Role, t: seq<Event>, i: nat, x: Json, r: nat, j: nat)
    requires i < |Run(role, t).calls| && j < |t| && t[j].Inbound? && CarriesResult(t[j].v, i, x)
    requires DeliveredBy(role, i, t, Decode(t[j].v).value, r, j, LostIn(role, t, i))
    ensures var s := Run(role, t);
      s.calls[i].phase.Awaiting? && !s.calls[i].cut ==>
        Next(s, Wake(i)).calls[i].phase.Done? && ReturnedBy(Next(s, Wake(i)).calls[i].phase.outcome) == Value(x)
  {
    var s := Run(role, t);
    AnswerReachesItsCall(role, t, i, Decode(t[j].v).value, r, j);
    ResultGives(t[j].v, i, x);
    if s.calls[i].phase.Awaiting? && !s.calls[i].cut {
      WokenReturns(s, i, Decode(t[j].v).value);
    }
  }
}
