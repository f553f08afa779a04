/** The ACP request router of both peers as a step machine over every interleaving. */
module Router {
  import opened Prelude
  import opened Codec

  /** The client drains its pending map when the reader stops; the server does not. */
  datatype Role = Client | Server

  /** What a `request` call returns with: an answer, its send error, or the loss of its one-shot's sender. */
  datatype Outcome = Answered(m: Message) | SendFailed | CutOff

  /** Where a `request` call stands: id taken, registered and sending, sent and waiting, returned. */
  datatype Phase = Allocated | Registered | Awaiting | Done(outcome: Outcome)

  /** One `request` call, its one-shot slot, and whether the sender of that was dropped unused. */
  datatype Call = Call(phase: Phase, slot: Option<Message>, cut: bool)

  datatype State = State(
    role: Role,
    calls: seq<Call>,
    pending: map<Id, nat>,
    closed: bool,
    forwarded: seq<Message>)

  datatype Event =
    | Allocate
    | Register(call: nat)
    | SendOk(call: nat)
    | SendFail(call: nat)
    | Inbound(v: Json)
    | Close
    | Wake(call: nat)

  /** What the drain hands to every call still registered. */
  const TRANSPORT_CLOSED: Message :=
    Response(IdNull, Err(RpcError(-32000, "transport closed", None)))

  /** The u64 counter starts at 1, wraps, and is cast to i64. */
  function KeyOf(call: nat): Id {
    var u := (call + 1) % TWO_64;
    IdNum(if u < 0x8000_0000_0000_0000 then u else u - TWO_64)
  }

  function Init(role: Role): State {
    State(role, [], map[], false, [])
  }

  function SetPhase(s: State, i: nat, p: Phase): State
    requires i < |s.calls|
  {
    s.(calls := s.calls[i := s.calls[i].(phase := p)])
  }

  /** Sending on a one-shot whose receiver has returned is lost. */
  function Fill(c: Call, m: Message): Call {
    if c.phase.Done? then c else c.(slot := Some(m))
  }

  /** A dropped sender is noticed by a receiver that still waits. */
  function Cut(c: Call): Call {
    if c.phase.Done? then c else c.(cut := true)
  }

  /** Whoever is filed under an id loses its entry, and the sender in it. */
  function Evict(s: State, id: Id): State {
    if id in s.pending && s.pending[id] < |s.calls|
    then s.(calls := s.calls[s.pending[id] := Cut(s.calls[s.pending[id]])], pending := Without(s.pending, id))
    else s.(pending := Without(s.pending, id))
  }

  function Without(pending: map<Id, nat>, id: Id): map<Id, nat> {
    pending - {id}
  }

  function Route(s: State, m: Message): State {
    if !m.Response? then s.(forwarded := s.forwarded + [m])
    else if m.id in s.pending && s.pending[m.id] < |s.calls| then
      var i := s.pending[m.id];
      s.(calls := s.calls[i := Fill(s.calls[i], m)], pending := Without(s.pending, m.id))
    else s
  }

  predicate Listed(s: State, i: nat) {
    KeyOf(i) in s.pending && s.pending[KeyOf(i)] == i
  }

  function Drain(s: State): State {
    s.(calls := seq(|s.calls|, i requires 0 <= i < |s.calls| =>
                      if Listed(s, i) then Fill(s.calls[i], TRANSPORT_CLOSED) else s.calls[i]),
       pending := map[])
  }

  /** One atomic step; an event that cannot happen in `s` leaves it unchanged. */
  function Next(s: State, e: Event): State {
    match e
    case Allocate =>
      s.(calls := s.calls + [Call(Allocated, None, false)])
    case Register(i) =>
      if i < |s.calls| && s.calls[i].phase.Allocated?
      then
        var s' := SetPhase(Evict(s, KeyOf(i)), i, Registered);
        s'.(pending := s'.pending[KeyOf(i) := i])
      else s
    case SendOk(i) =>
      if i < |s.calls| && s.calls[i].phase.Registered? then SetPhase(s, i, Awaiting) else s
    case SendFail(i) =>
      if i < |s.calls| && s.calls[i].phase.Registered? then
        var s' := SetPhase(s, i, Done(SendFailed));
        if s.role.Client? then Evict(s', KeyOf(i)) else s'
      else s
    case Inbound(v) =>
      if !s.closed && Decode(v).Ok? then Route(s, Decode(v).value) else s
    case Close =>
      if s.closed then s else (if s.role.Client? then Drain(s) else s).(closed := true)
    case Wake(i) =>
      if i < |s.calls| && s.calls[i].phase.Awaiting? && s.calls[i].slot.Some?
      then SetPhase(s, i, Done(Answered(s.calls[i].slot.value)))
      else if i < |s.calls| && s.calls[i].phase.Awaiting? && s.calls[i].cut then SetPhase(s, i, Done(CutOff))
      else s
  }

  /** The state after a whole run of events. */
  function Run(role: Role, t: seq<Event>): State {
    if t == [] then Init(role) else Next(Run(role, t[..|t| - 1]), t[|t| - 1])
  }

  /** Keys are the call numbers modulo the counter's width, so they are distinct until it wraps. */
  lemma KeysCollideOnlyOnWrap(i: nat, j: nat)
    ensures KeyOf(i) == KeyOf(j) <==> (i + 1) % TWO_64 == (j + 1) % TWO_64
    ensures i < TWO_64 && j < TWO_64 ==> (KeyOf(i) == KeyOf(j) <==> i == j)
    ensures i + 1 < TWO_64 ==> KeyOf(i) != IdNum(0)
  {
  }

  /** Every entry of the shared map is filed under its own call's key. */
  ghost predicate KeysOk(s: State) {
    forall key :: key in s.pending ==>
      && s.pending[key] < |s.calls| && key == KeyOf(s.pending[key])
      && !s.calls[s.pending[key]].phase.Allocated?
  }

  lemma KeysOkPhase(s: State, i: nat, p: Phase)
    requires KeysOk(s) && i < |s.calls| && !p.Allocated?
    ensures KeysOk(SetPhase(s, i, p))
  {
  }

  lemma KeysOkEvict(s: State, id: Id)
    requires KeysOk(s)
    ensures KeysOk(Evict(s, id)) && id !in Evict(s, id).pending && |Evict(s, id).calls| == |s.calls|
    ensures Evict(s, id).role == s.role && forall i :: 0 <= i < |s.calls| ==> Evict(s, id).calls[i].phase == s.calls[i].phase
  {
  }

  lemma KeysOkFile(s: State, i: nat)
    requires KeysOk(s) && i < |s.calls|
    ensures var s' := SetPhase(s, i, Registered); KeysOk(s'.(pending := s'.pending[KeyOf(i) := i]))
  {
    KeysOkPhase(s, i, Registered);
  }

  lemma KeysOkInbound(s: State, v: Json)
    requires KeysOk(s)
    ensures KeysOk(Next(s, Inbound(v))) && |Next(s, Inbound(v)).calls| == |s.calls|
  {
  }

  lemma KeysOkNext(s: State, e: Event)
    requires KeysOk(s)
    ensures KeysOk(Next(s, e)) && Next(s, e).role == s.role
    ensures |Next(s, e).calls| == |s.calls| + if e.Allocate? then 1 else 0
  {
    match e
    case Inbound(v) =>
      KeysOkInbound(s, v);
    case Register(i) =>
      KeysOkEvict(s, KeyOf(i));
      if i < |s.calls| {
        KeysOkFile(Evict(s, KeyOf(i)), i);
      }
    case SendFail(i) =>
      if i < |s.calls| {
        KeysOkPhase(s, i, Done(SendFailed));
        KeysOkEvict(SetPhase(s, i, Done(SendFailed)), KeyOf(i));
      }
    case SendOk(i) =>
      if i < |s.calls| {
        KeysOkPhase(s, i, Awaiting);
      }
    case Wake(i) =>
      KeysOkWake(s, i);
    case Allocate =>
    case Close =>
      KeysOkClose(s);
  }

  lemma KeysOkWake(s: State, i: nat)
    requires KeysOk(s)
    ensures KeysOk(Next(s, Wake(i))) && |Next(s, Wake(i)).calls| == |s.calls|
  {
  }

  lemma KeysOkClose(s: State)
    requires KeysOk(s)
    ensures KeysOk(Next(s, Close)) && |Next(s, Close).calls| == |s.calls|
  {
  }

  lemma {:induction false} KeysOkRun(role: Role, t: seq<Event>)
    ensures KeysOk(Run(role, t)) && Run(role, t).role == role
  {
    if t != [] {
      KeysOkRun(role, t[..|t| - 1]);
      KeysOkNext(Run(role, t[..|t| - 1]), t[|t| - 1]);
    }
  }

  // ----- one call on its own ------------------------------------------------------------------

  /** Everything about one call, with no map shared with any other call. */
  datatype Solo = Solo(issued: nat, closed: bool, phase: Option<Phase>, listed: bool, slot: Option<Message>, cut: bool)

  const SOLO_INIT: Solo := Solo(0, false, None, false, None, false)

  /** `v` is a response that carries the key of call `i`. */
  predicate Answers(v: Json, i: nat) {
    Decode(v).Ok? && Decode(v).value.Response? && Decode(v).value.id == KeyOf(i)
  }

  /** Two calls that were given the same id, which takes 2^64 calls. */
  predicate Twins(i: nat, j: nat) {
    i != j && KeyOf(i) == KeyOf(j)
  }

  /** The step by which a twin of call `i` takes its place in the map, or clears it after a failed send. */
  predicate Evicts(s: State, e: Event, i: nat) {
    || (e.Register? && e.call < |s.calls| && s.calls[e.call].phase.Allocated? && Twins(i, e.call))
    || (e.SendFail? && s.role.Client? && e.call < |s.calls| && s.calls[e.call].phase.Registered? && Twins(i, e.call))
  }

  predicate IsDone(c: Solo) {
    c.phase.Some? && c.phase.value.Done?
  }

  function SoloFill(c: Solo, m: Message): Solo {
    if IsDone(c) then c.(listed := false) else c.(listed := false, slot := Some(m))
  }

  function SoloCut(c: Solo): Solo {
    if !c.listed then c else if IsDone(c) then c.(listed := false) else c.(listed := false, cut := true)
  }

  function SoloNext(role: Role, i: nat, c: Solo, e: Event): Solo {
    match e
    case Allocate =>
      c.(issued := c.issued + 1, phase := if c.issued == i then Some(Allocated) else c.phase)
    case Register(j) =>
      if j == i && c.phase == Some(Allocated) then c.(phase := Some(Registered), listed := true) else c
    case SendOk(j) =>
      if j == i && c.phase == Some(Registered) then c.(phase := Some(Awaiting)) else c
    case SendFail(j) =>
      if j == i && c.phase == Some(Registered)
      then c.(phase := Some(Done(SendFailed)), listed := c.listed && role.Server?)
      else c
    case Inbound(v) =>
      if !c.closed && c.listed && Answers(v, i) then SoloFill(c, Decode(v).value) else c
    case Close =>
      if c.closed then c
      else (if role.Client? && c.listed then SoloFill(c, TRANSPORT_CLOSED) else c).(closed := true)
    case Wake(j) =>
      if j == i && c.phase == Some(Awaiting) && c.slot.Some? then c.(phase := Some(Done(Answered(c.slot.value))))
      else if j == i && c.phase == Some(Awaiting) && c.cut then c.(phase := Some(Done(CutOff)))
      else c
  }

  /** One step of a call on its own, or a loss of its place to a twin. */
  function SoloStep(role: Role, i: nat, c: Solo, e: Event, evicted: bool): Solo {
    if evicted then SoloCut(SoloNext(role, i, c, e)) else SoloNext(role, i, c, e)
  }

  /** A run of the call on its own; `lost(k)` says whether its place is lost to a twin at event k. */
  function SoloRun(role: Role, i: nat, t: seq<Event>, lost: nat -> bool): Solo {
    if t == [] then SOLO_INIT
    else SoloStep(role, i, SoloRun(role, i, t[..|t| - 1], lost), t[|t| - 1], lost(|t| - 1))
  }

  function Project(s: State, i: nat): Solo {
    if i < |s.calls|
    then Solo(|s.calls|, s.closed, Some(s.calls[i].phase), Listed(s, i), s.calls[i].slot, s.calls[i].cut)
    else Solo(|s.calls|, s.closed, None, Listed(s, i), None, false)
  }

  lemma RouteProjects(s: State, v: Json, i: nat)
    requires KeysOk(s)
    ensures Project(Next(s, Inbound(v)), i) == SoloNext(s.role, i, Project(s, i), Inbound(v))
  {
  }

  /** Clearing an id takes its place from whoever has it. */
  lemma EvictProjects(s: State, id: Id, i: nat)
    requires KeysOk(s)
    ensures Project(Evict(s, id), i) == if KeyOf(i) == id then SoloCut(Project(s, i)) else Project(s, i)
  {
  }

  lemma PhaseProjects(s: State, j: nat, p: Phase, i: nat)
    requires j < |s.calls|
    ensures Project(SetPhase(s, j, p), i) == if i == j then Project(s, i).(phase := Some(p)) else Project(s, i)
  {
  }

  lemma FileProjects(s: State, j: nat, i: nat)
    requires KeysOk(s) && j < |s.calls| && KeyOf(j) !in s.pending
    ensures var s' := s.(pending := s.pending[KeyOf(j) := j]);
      Project(s', i) == if i == j then Project(s, i).(listed := true) else Project(s, i)
  {
  }

  lemma RegisterProjects(s: State, j: nat, i: nat)
    requires KeysOk(s)
    ensures Project(Next(s, Register(j)), i) == SoloStep(s.role, i, Project(s, i), Register(j), Evicts(s, Register(j), i))
  {
    if j < |s.calls| && s.calls[j].phase.Allocated? {
      var s1 := Evict(s, KeyOf(j));
      KeysOkEvict(s, KeyOf(j));
      EvictProjects(s, KeyOf(j), i);
      KeysOkPhase(s1, j, Registered);
      PhaseProjects(s1, j, Registered, i);
      FileProjects(SetPhase(s1, j, Registered), j, i);
    }
  }

  lemma SendFailProjects(s: State, j: nat, i: nat)
    requires KeysOk(s)
    ensures Project(Next(s, SendFail(j)), i) == SoloStep(s.role, i, Project(s, i), SendFail(j), Evicts(s, SendFail(j), i))
  {
    if j < |s.calls| && s.calls[j].phase.Registered? {
      KeysOkPhase(s, j, Done(SendFailed));
      PhaseProjects(s, j, Done(SendFailed), i);
      EvictProjects(SetPhase(s, j, Done(SendFailed)), KeyOf(j), i);
    }
  }

  lemma CloseProjects(s: State, i: nat)
    requires KeysOk(s)
    ensures Project(Next(s, Close), i) == SoloNext(s.role, i, Project(s, i), Close)
  {
  }

  lemma NextProjects(s: State, e: Event, i: nat)
    requires KeysOk(s)
    ensures Project(Next(s, e), i) == SoloStep(s.role, i, Project(s, i), e, Evicts(s, e, i))
  {
    match e
    case Inbound(v) =>
      RouteProjects(s, v, i);
    case Register(j) =>
      RegisterProjects(s, j, i);
    case SendFail(j) =>
      SendFailProjects(s, j, i);
    case Close =>
      CloseProjects(s, i);
    case _ =>
  }

  /** Where in a run call `i` loses its place. */
  ghost function LostIn(role: Role, t: seq<Event>, i: nat): nat -> bool {
    (k: nat) => k < |t| && Evicts(Run(role, t[..k]), t[k], i)
  }

  ghost predicate Explains(role: Role, t: seq<Event>, i: nat, lost: nat -> bool) {
    forall k: nat :: k < |t| ==> (lost(k) <==> Evicts(Run(role, t[..k]), t[k], i))
  }

  lemma {:induction false} IsolationBy(role: Role, t: seq<Event>, i: nat, lost: nat -> bool)
    requires Explains(role, t, i, lost)
    ensures Project(Run(role, t), i) == SoloRun(role, i, t, lost)
  {
    if t != [] {
      var n := |t| - 1;
      var t0 := t[..n];
      assert forall k: nat :: k < n ==> t0[..k] == t[..k] && t0[k] == t[k];
      IsolationBy(role, t0, i, lost);
      KeysOkRun(role, t0);
      NextProjects(Run(role, t0), t[n], i);
    } else {
      assert !Listed(Init(role), i);
    }
  }

  /**
   * Concurrent calls do not interfere: over every run, what one call sees of the shared state is what it
   * would see with a private slot and no other call in flight, but for the calls given the same id.
   */
  lemma Isolation(role: Role, t: seq<Event>, i: nat)
    ensures Project(Run(role, t), i) == SoloRun(role, i, t, LostIn(role, t, i))
  {
    IsolationBy(role, t, i, LostIn(role, t, i));
  }

  /** The same for the first part of a longer run. */
  lemma IsolationPrefix(role: Role, t: seq<Event>, u: seq<Event>, i: nat)
    ensures Project(Run(role, t), i) == SoloRun(role, i, t, LostIn(role, t + u, i))
  {
    assert forall k: nat :: k < |t| ==> (t + u)[..k] == t[..k] && (t + u)[k] == t[k];
    IsolationBy(role, t, i, LostIn(role, t + u, i));
  }

  /** No two of the first 2^64 calls are twins. */
  lemma NoTwinsBelowWrap(s: State, e: Event, i: nat)
    requires i < TWO_64 && |s.calls| <= TWO_64
    ensures !Evicts(s, e, i)
  {
    if e.Register? || e.SendFail? {
      KeysCollideOnlyOnWrap(i, e.call);
    }
  }
}
