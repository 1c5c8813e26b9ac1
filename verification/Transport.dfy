/**
 The private DevTools transport as a transition system: concurrent calls, one reader, a write
 gate, a pending table of at most 32 requests and one reply channel of capacity one per call.
 A step is one critical section of the transport's mutex or one channel operation.
 */
module Transport {
  import opened Common

  const MAX_PENDING: nat := 32

  /** A reply; a response remembers the id it was sent for. */
  datatype Reply = Response(id: nat) | Unavailable

  datatype Phase =
    | Numbered
    | Registered
    | Gated
    | Writing
    | Awaiting
    | Leaving
    | Over(outcome: Option<Reply>)

  /** `sent` counts the messages ever sent to this call's reply channel; `reply` is the last one. */
  datatype Call = Call(id: nat, phase: Phase, sent: nat, reply: Option<Reply>, received: bool)

  /** Who holds the write gate. The writer goroutine keeps it when its caller has left. */
  datatype Gate = Free | HeldByCall(call: nat) | HeldByWriter(call: nat) | WriterDone(call: nat, ok: bool)

  datatype Reader = Reading | Delivering(call: nat, reply: Reply)

  datatype State = State(
    nextId: nat,
    pending: map<nat, nat>,   // request id to the call that waits for it
    failed: bool,
    calls: seq<Call>,
    gate: Gate,
    reader: Reader)

  datatype Event =
    | Draw
    | DiscardFrame(c: nat)
    | Register(c: nat)
    | TakeGate(c: nat)
    | Abandon(c: nat)
    | CheckAvailable(c: nat)
    | WriteReturns(ok: bool)
    | ReleaseGate
    | Receive(c: nat)
    | Remove(c: nat)
    | Resolve(id: nat)
    | Deliver
    | Fail

  const Init: State := State(0, map[], false, [], Free, Reading)

  // ---- critical sections -----------------------------------------------------------------------

  predicate Refuses(t: State) { t.failed || |t.pending| >= MAX_PENDING }

  function Move(t: State, c: nat, phase: Phase): State
    requires c < |t.calls|
  {
    t.(calls := t.calls[c := t.calls[c].(phase := phase)])
  }

  /** A message goes into the reply channel of one call. */
  function Send(call: Call, reply: Reply): Call {
    call.(sent := call.sent + 1, reply := Some(reply))
  }

  function Registering(t: State, c: nat): State
    requires c < |t.calls|
  {
    if Refuses(t) then Move(t, c, Over(None))
    else Move(t, c, Registered).(pending := t.pending[t.calls[c].id := c])
  }

  /** Rejects what is pending, once; every later request sees the failure. */
  function Failing(t: State): State {
    if t.failed then t else
      t.(failed := true, pending := map[],
         calls := seq(|t.calls|, c requires 0 <= c < |t.calls| =>
           if c in t.pending.Values then Send(t.calls[c], Unavailable) else t.calls[c]))
  }

  function Resolving(t: State, id: nat): State {
    if id in t.pending then t.(pending := t.pending - {id}, reader := Delivering(t.pending[id], Response(id))) else t
  }

  // ---- steps -------------------------------------------------------------------------------

  predicate In(t: State, c: nat, phase: Phase) { c < |t.calls| && t.calls[c].phase == phase }

  predicate Enabled(t: State, e: Event) {
    match e
    case Draw => true
    case DiscardFrame(c) => In(t, c, Numbered)
    case Register(c) => In(t, c, Numbered)
    case TakeGate(c) => In(t, c, Registered) && t.gate == Free
    case Abandon(c) =>
      c < |t.calls| && (t.calls[c].phase.Registered? || t.calls[c].phase.Writing? || t.calls[c].phase.Awaiting?
                        || (t.calls[c].phase.Gated? && t.gate == HeldByCall(c)))
    case CheckAvailable(c) => In(t, c, Gated) && t.gate == HeldByCall(c)
    case WriteReturns(_) => t.gate.HeldByWriter?
    case ReleaseGate => t.gate.WriterDone?
    case Receive(c) => In(t, c, Awaiting) && t.calls[c].reply.Some? && !t.calls[c].received
    case Remove(c) => In(t, c, Leaving)
    case Resolve(_) => t.reader == Reading
    case Deliver => t.reader.Delivering? && t.reader.call < |t.calls|
    case Fail => true
  }

  function Apply(t: State, e: Event): State
    requires Enabled(t, e)
  {
    match e
    case Draw =>
      if Refuses(t) then t else
        t.(nextId := t.nextId + 1, calls := t.calls + [Call(t.nextId + 1, Numbered, 0, None, false)])
    case DiscardFrame(c) => Move(t, c, Over(None))
    case Register(c) => Registering(t, c)
    case TakeGate(c) => Move(t, c, Gated).(gate := HeldByCall(c))
    case Abandon(c) => Move(t, c, Leaving).(gate := if t.calls[c].phase.Gated? then Free else t.gate)
    case CheckAvailable(c) =>
      if t.failed || t.calls[c].id !in t.pending then Move(t, c, Leaving).(gate := Free)
      else Move(t, c, Writing).(gate := HeldByWriter(c))
    case WriteReturns(ok) => (if ok then t else Failing(t)).(gate := WriterDone(t.gate.call, ok))
    case ReleaseGate =>
      var c := t.gate.call;
      var t1 := t.(gate := Free);
      if In(t, c, Writing) then Move(t1, c, if t.gate.ok then Awaiting else Leaving) else t1
    case Receive(c) =>
      t.(calls := t.calls[c := t.calls[c].(received := true, phase := Over(t.calls[c].reply))])
    case Remove(c) => Move(t, c, Over(None)).(pending := t.pending - {t.calls[c].id})
    case Resolve(id) => Resolving(t, id)
    case Deliver =>
      t.(calls := t.calls[t.reader.call := Send(t.calls[t.reader.call], t.reader.reply)], reader := Reading)
    case Fail => Failing(t)
  }

  predicate Runs(t: State, events: seq<Event>)
    decreases |events|
  {
    events == [] || (Enabled(t, events[0]) && Runs(Apply(t, events[0]), events[1..]))
  }

  function After(t: State, events: seq<Event>): State
    requires Runs(t, events)
    decreases |events|
  {
    if events == [] then t else After(Apply(t, events[0]), events[1..])
  }

  // ---- the invariant -----------------------------------------------------------------------

  /** A call that is still inside and has a channel to be answered on. */
  predicate Waiting(phase: Phase) { !phase.Numbered? && !phase.Over? }

  predicate CallInv(t: State, c: nat)
    requires c < |t.calls|
  {
    var call := t.calls[c];
    && 1 <= call.id <= t.nextId
    && call.sent <= 1
    && (call.sent == 0 <==> call.reply.None?)
    && (call.reply.Some? && call.reply.value.Response? ==> call.reply.value.id == call.id)
    && (call.phase.Over? && call.phase.outcome.Some? ==> call.phase.outcome == call.reply)
    && (call.phase.Numbered? ==> call.sent == 0)
  }

  predicate PendingInv(t: State) {
    && |t.pending| <= MAX_PENDING
    && (t.failed ==> t.pending == map[])
    && forall id :: id in t.pending ==>
         && t.pending[id] < |t.calls| && t.calls[t.pending[id]].id == id
         && t.calls[t.pending[id]].sent == 0 && Waiting(t.calls[t.pending[id]].phase)
  }

  predicate ReaderInv(t: State) {
    t.reader.Delivering? ==>
      && t.reader.call < |t.calls| && t.calls[t.reader.call].sent == 0
      && !t.calls[t.reader.call].phase.Numbered?
      && t.reader.reply == Response(t.calls[t.reader.call].id)
      && t.calls[t.reader.call].id !in t.pending
  }

  predicate GateInv(t: State) {
    && (t.gate.HeldByCall? ==> In(t, t.gate.call, Gated))
    && (forall c :: 0 <= c < |t.calls| && t.calls[c].phase.Gated? ==> t.gate == HeldByCall(c))
    && (forall c :: 0 <= c < |t.calls| && t.calls[c].phase.Writing? ==>
          t.gate == HeldByWriter(c) || (t.gate.WriterDone? && t.gate.call == c))
  }

  predicate Inv(t: State) {
    && (forall c :: 0 <= c < |t.calls| ==> CallInv(t, c))
    && (forall c, d :: 0 <= c < d < |t.calls| ==> t.calls[c].id < t.calls[d].id)
    && PendingInv(t) && ReaderInv(t) && GateInv(t)
  }

  /** Ids grow with the calls, so one id names one call. */
  lemma OneCallPerId(t: State, c: nat, d: nat)
    requires Inv(t) && c < |t.calls| && d < |t.calls| && t.calls[c].id == t.calls[d].id
    ensures c == d
  {
  }

  /** Steps of one call that change its phase, the gate and nothing else. */
  predicate PhaseOnly(e: Event) {
    e.DiscardFrame? || e.TakeGate? || e.Abandon? || e.CheckAvailable? || e.Receive?
  }

  /** One call moves; the invariant needs only that its table entry and the gate still fit. */
  lemma MoveKeepsInv(t: State, c: nat, call: Call, gate: Gate)
    requires Inv(t) && c < |t.calls|
    requires call.id == t.calls[c].id && call.sent == t.calls[c].sent && call.reply == t.calls[c].reply
    requires CallInv(t.(calls := t.calls[c := call]), c)
    requires Waiting(call.phase) || call.id !in t.pending
    requires !call.phase.Numbered?
    requires GateInv(t.(calls := t.calls[c := call], gate := gate))
    ensures Inv(t.(calls := t.calls[c := call], gate := gate))
  {
    var t' := t.(calls := t.calls[c := call], gate := gate);
    forall d | 0 <= d < |t'.calls| ensures CallInv(t', d) { assert d != c ==> CallInv(t, d); }
    assert PendingInv(t') && ReaderInv(t');
  }

  lemma PhaseStepKeepsInv(t: State, e: Event)
    requires Inv(t) && Enabled(t, e) && PhaseOnly(e)
    ensures Inv(Apply(t, e))
  {
    var t' := Apply(t, e);
    assert CallInv(t, e.c);
    assert e.DiscardFrame? || e.Receive? ==> t.calls[e.c].id !in t.pending by {
      if t.calls[e.c].id in t.pending { OneCallPerId(t, e.c, t.pending[t.calls[e.c].id]); }
    }
    assert GateInv(t');
    MoveKeepsInv(t, e.c, t'.calls[e.c], t'.gate);
  }

  lemma DrawKeepsInv(t: State)
    requires Inv(t)
    ensures Inv(Apply(t, Draw))
  {
    var t' := Apply(t, Draw);
    forall c | 0 <= c < |t'.calls| ensures CallInv(t', c) { assert c < |t.calls| ==> CallInv(t, c); }
    forall c | 0 <= c < |t.calls| ensures t'.calls[c] == t.calls[c] && t.calls[c].id <= t.nextId { assert CallInv(t, c); }
    assert PendingInv(t') && ReaderInv(t') && GateInv(t');
  }

  lemma MapShrinks(m: map<nat, nat>, id: nat)
    ensures |m - {id}| <= |m|
  {
    assert (m - {id}).Keys == m.Keys - {id};
    assert |m.Keys - {id}| <= |m.Keys|;
  }

  lemma EntryRemovedKeepsInv(t: State, id: nat)
    requires Inv(t)
    ensures Inv(t.(pending := t.pending - {id}))
  {
    var t' := t.(pending := t.pending - {id});
    MapShrinks(t.pending, id);
    forall d | 0 <= d < |t'.calls| ensures CallInv(t', d) { assert CallInv(t, d); }
  }

  lemma EntryAddedKeepsInv(t: State, c: nat)
    requires Inv(t) && In(t, c, Registered) && t.calls[c].sent == 0 && !Refuses(t)
    requires t.calls[c].id !in t.pending
    requires t.reader.Delivering? ==> t.reader.call != c
    ensures Inv(t.(pending := t.pending[t.calls[c].id := c]))
  {
    var t' := t.(pending := t.pending[t.calls[c].id := c]);
    assert |t'.pending| == |t.pending| + 1;
    forall d | 0 <= d < |t'.calls| ensures CallInv(t', d) { assert CallInv(t, d); }
    if t.reader.Delivering? { assert t.calls[t.reader.call].id != t.calls[c].id; }
  }

  lemma RegisterKeepsInv(t: State, c: nat)
    requires Inv(t) && Enabled(t, Register(c))
    ensures Inv(Apply(t, Register(c)))
  {
    assert CallInv(t, c);
    assert t.calls[c].id !in t.pending by {
      if t.calls[c].id in t.pending { OneCallPerId(t, c, t.pending[t.calls[c].id]); }
    }
    MoveKeepsInv(t, c, t.calls[c].(phase := if Refuses(t) then Over(None) else Registered), t.gate);
    if !Refuses(t) { EntryAddedKeepsInv(Move(t, c, Registered), c); }
  }

  lemma RemoveKeepsInv(t: State, c: nat)
    requires Inv(t) && Enabled(t, Remove(c))
    ensures Inv(Apply(t, Remove(c)))
  {
    assert CallInv(t, c);
    EntryRemovedKeepsInv(t, t.calls[c].id);
    MoveKeepsInv(t.(pending := t.pending - {t.calls[c].id}), c, t.calls[c].(phase := Over(None)), t.gate);
  }

  lemma ResolveKeepsInv(t: State, id: nat)
    requires Inv(t) && Enabled(t, Resolve(id))
    ensures Inv(Apply(t, Resolve(id)))
  {
    var t' := Apply(t, Resolve(id));
    MapShrinks(t.pending, id);
    forall d | 0 <= d < |t'.calls| ensures CallInv(t', d) { assert CallInv(t, d); }
  }

  lemma DeliverKeepsInv(t: State)
    requires Inv(t) && Enabled(t, Deliver)
    ensures Inv(Apply(t, Deliver))
  {
    var t' := Apply(t, Deliver);
    assert CallInv(t, t.reader.call);
    forall d | 0 <= d < |t'.calls| ensures CallInv(t', d) { assert CallInv(t, d); }
    forall id | id in t.pending ensures t.pending[id] != t.reader.call { }
  }

  lemma FailKeepsInv(t: State)
    requires Inv(t)
    ensures Inv(Failing(t))
  {
    var t' := Failing(t);
    if !t.failed {
      forall d | 0 <= d < |t.calls| ensures CallInv(t', d) {
        assert CallInv(t, d);
        if d in t.pending.Values {
          var id :| id in t.pending && t.pending[id] == d;
        }
      }
      if t.reader.Delivering? { assert t.reader.call !in t.pending.Values; }
    }
  }

  lemma WriteReturnsKeepsInv(t: State, ok: bool)
    requires Inv(t) && Enabled(t, WriteReturns(ok))
    ensures Inv(Apply(t, WriteReturns(ok)))
  {
    FailKeepsInv(t);
    var f := if ok then t else Failing(t);
    var t' := Apply(t, WriteReturns(ok));
    assert t' == f.(gate := t'.gate);
    forall c | 0 <= c < |t'.calls| ensures CallInv(t', c) { assert CallInv(f, c); }
  }

  lemma ReleaseGateKeepsInv(t: State)
    requires Inv(t) && Enabled(t, ReleaseGate)
    ensures Inv(Apply(t, ReleaseGate))
  {
    var c, t' := t.gate.call, Apply(t, ReleaseGate);
    if In(t, c, Writing) {
      assert CallInv(t, c);
      MoveKeepsInv(t, c, t'.calls[c], Free);
    } else {
      forall d | 0 <= d < |t'.calls| ensures CallInv(t', d) { assert CallInv(t, d); }
    }
  }

  lemma StepKeepsInv(t: State, e: Event)
    requires Inv(t) && Enabled(t, e)
    ensures Inv(Apply(t, e))
  {
    if PhaseOnly(e) { PhaseStepKeepsInv(t, e); }
    else if e.Draw? { DrawKeepsInv(t); }
    else if e.Register? { RegisterKeepsInv(t, e.c); }
    else if e.Remove? { RemoveKeepsInv(t, e.c); }
    else if e.Resolve? { ResolveKeepsInv(t, e.id); }
    else if e.Deliver? { DeliverKeepsInv(t); }
    else if e.Fail? { FailKeepsInv(t); }
    else if e.WriteReturns? { WriteReturnsKeepsInv(t, e.ok); }
    else { ReleaseGateKeepsInv(t); }
  }

  lemma {:induction false} RunKeepsInv(t: State, events: seq<Event>)
    requires Inv(t) && Runs(t, events)
    ensures Inv(After(t, events))
    decreases |events|
  {
    if events == [] {
    } else {
      StepKeepsInv(t, events[0]);
      RunKeepsInv(Apply(t, events[0]), events[1..]);
    }
  }

  // ---- every run ---------------------------------------------------------------------------

  lemma InitInv()
    ensures Inv(Init)
  {
  }

  /** Ids are never reused, the table is bounded, and no reply channel gets a second message. */
  lemma RepliesAreSingle(events: seq<Event>)
    requires Runs(Init, events)
    ensures var t := After(Init, events);
            && |t.pending| <= MAX_PENDING
            && (forall c, d :: 0 <= c < d < |t.calls| ==> t.calls[c].id < t.calls[d].id)
            && (forall c :: 0 <= c < |t.calls| ==> t.calls[c].sent <= 1 && t.calls[c].id <= t.nextId)
  {
    InitInv();
    RunKeepsInv(Init, events);
    var t := After(Init, events);
    forall c | 0 <= c < |t.calls| ensures t.calls[c].sent <= 1 && t.calls[c].id <= t.nextId { assert CallInv(t, c); }
  }

  /** Neither the reader's send nor the sends under the lock in a failure can block. */
  lemma SendsNeverBlock(events: seq<Event>)
    requires Runs(Init, events)
    ensures var t := After(Init, events);
            && (t.reader.Delivering? ==> t.reader.call < |t.calls| && t.calls[t.reader.call].sent == 0)
            && (forall id :: id in t.pending ==> t.pending[id] < |t.calls| && t.calls[t.pending[id]].sent == 0)
  {
    InitInv();
    RunKeepsInv(Init, events);
  }

  /** A call that returns a response returns the one for its own id, and leaves no table entry. */
  lemma CallsGetTheirOwnReply(events: seq<Event>, c: nat)
    requires Runs(Init, events) && c < |After(Init, events).calls| && After(Init, events).calls[c].phase.Over?
    ensures var t := After(Init, events);
            && t.calls[c].id !in t.pending
            && (t.calls[c].phase.outcome.Some? ==>
                  t.calls[c].phase.outcome.value == Unavailable || t.calls[c].phase.outcome.value == Response(t.calls[c].id))
  {
    InitInv();
    RunKeepsInv(Init, events);
    var t := After(Init, events);
    assert CallInv(t, c);
    if t.calls[c].id in t.pending { OneCallPerId(t, c, t.pending[t.calls[c].id]); }
  }

  /** After the first failure the table stays empty, whatever follows. */
  lemma {:induction false} FailureEmptiesPendingForever(t: State, events: seq<Event>)
    requires Inv(t) && t.failed && Runs(t, events)
    ensures After(t, events).failed && After(t, events).pending == map[]
    decreases |events|
  {
    if events == [] {
    } else {
      StepKeepsInv(t, events[0]);
      FailureEmptiesPendingForever(Apply(t, events[0]), events[1..]);
    }
  }

  /** A call that has the gate or waits for its writer, or whose writer is at work although it has left. */
  predicate UsesPipe(t: State, c: nat) {
    (c < |t.calls| && (t.calls[c].phase.Gated? || t.calls[c].phase.Writing?)) || t.gate == HeldByWriter(c) || t.gate == HeldByCall(c)
  }

  /** At most one call or writer uses the pipe, so frames never interleave on it. */
  lemma OneWriterAtATime(events: seq<Event>, c: nat, d: nat)
    requires Runs(Init, events) && UsesPipe(After(Init, events), c) && UsesPipe(After(Init, events), d)
    ensures c == d
  {
    InitInv();
    RunKeepsInv(Init, events);
  }

  // ---- the transport object ----------------------------------------------------------------------

  /** One reply channel of capacity one. */
  class ReplyChannel {
    const call: nat
    var buffer: Option<Reply>

    constructor (call: nat)
      ensures this.call == call && buffer.None?
    {
      this.call := call;
      buffer := None;
    }

    method Put(reply: Reply)
      requires buffer.None?
      modifies this
      ensures buffer == Some(reply)
    {
      buffer := Some(reply);
    }
  }

  /** The calls of a table that are not left any more have their rejection; the others have nothing yet. */
  ghost predicate Answered(table: map<nat, ReplyChannel>, left: map<nat, ReplyChannel>)
    reads table.Values
  {
    && (forall i, j :: i in table && j in table && i != j ==> table[i] != table[j])
    && (forall id :: id in left ==> id in table && left[id] == table[id])
    && (forall id :: id in table ==> table[id].buffer == if id in left then None else Some(Unavailable))
  }

  /** The mutable part of the transport; the keys of its table are the pending ids. */
  class TransportObject {
    var nextId: nat
    var pending: map<nat, ReplyChannel>
    var failed: bool

    /** The table never shares a channel, and every channel in it is empty. */
    ghost predicate Valid()
      reads this, pending.Values
    {
      && |pending| <= MAX_PENDING
      && (failed ==> pending == map[])
      && (forall id :: id in pending ==> id <= nextId && pending[id].buffer.None?)
      && (forall i, j :: i in pending && j in pending && i != j ==> pending[i] != pending[j])
    }

    constructor ()
      ensures Valid() && pending == map[] && nextId == 0 && !failed
    {
      nextId, pending, failed := 0, map[], false;
    }

    method DrawId() returns (id: Option<nat>)
      requires Valid()
      modifies this
      ensures Valid() && pending == old(pending) && failed == old(failed)
      ensures id.Some? <==> !failed && |pending| < MAX_PENDING
      ensures nextId == if id.Some? then old(nextId) + 1 else old(nextId)
      ensures id.Some? ==> id.value == nextId && id.value !in pending
    {
      if failed || |pending| >= MAX_PENDING { return None; }
      nextId := nextId + 1;
      id := Some(nextId);
    }

    method RegisterChannel(id: nat, reply: ReplyChannel) returns (ok: bool)
      requires Valid() && id !in pending && id <= nextId && reply.buffer.None? && reply !in pending.Values
      modifies this
      ensures Valid() && nextId == old(nextId) && failed == old(failed)
      ensures ok <==> !failed && |old(pending)| < MAX_PENDING
      ensures pending == if ok then old(pending)[id := reply] else old(pending)
    {
      if failed || |pending| >= MAX_PENDING { return false; }
      pending := pending[id := reply];
      ok := true;
    }

    method RemovePending(id: nat)
      requires Valid()
      modifies this
      ensures Valid() && pending == old(pending) - {id} && nextId == old(nextId) && failed == old(failed)
    {
      pending := pending - {id};
      assert pending.Keys == old(pending.Keys) - {id};
    }

    /** Takes the channel out of the table under the lock; the send follows and finds it empty. */
    method ResolveReply(id: nat, reply: Reply) returns (sent: bool)
      requires Valid()
      modifies this, pending.Values
      ensures Valid() && pending == old(pending) - {id} && nextId == old(nextId) && failed == old(failed)
      ensures sent <==> id in old(pending)
      ensures sent ==> old(pending)[id].buffer == Some(reply)
      ensures forall j :: j in pending ==> pending[j].buffer.None?
    {
      var before := pending;
      sent := id in pending;
      RemovePending(id);
      if sent { before[id].Put(reply); }
    }

    /** Every pending call gets exactly one rejection, under the lock, and the table is emptied. */
    method FailAll()
      requires Valid()
      modifies this, pending.Values
      ensures Valid() && failed && pending == map[] && nextId == old(nextId)
      ensures forall id :: id in old(pending) ==> old(pending)[id].buffer == Some(Unavailable)
    {
      if failed { return; }
      failed := true;
      var table := pending;
      var left := pending;
      pending := map[];
      while left != map[]
        invariant Answered(table, left) && pending == map[] && failed && nextId == old(nextId)
        decreases |left|
      {
        var id :| id in left;
        assert table[id] == left[id];
        left[id].Put(Unavailable);
        left := left - {id};
      }
    }
  }
}
