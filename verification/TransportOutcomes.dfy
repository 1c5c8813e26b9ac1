/** What the transport's steps come to: an undisturbed call, a failure, and what is refused. */
module TransportOutcomes {
  import opened Common
  import opened Transport

  lemma {:induction false} RunsExtend(t: State, events: seq<Event>, e: Event)
    requires Runs(t, events) && Enabled(After(t, events), e)
    ensures Runs(t, events + [e]) && After(t, events + [e]) == Apply(After(t, events), e)
    decreases |events|
  {
    if events == [] {
      assert ([e])[1..] == [];
    } else {
      RunsExtend(Apply(t, events[0]), events[1..], e);
      assert (events + [e])[1..] == events[1..] + [e];
    }
  }

  /** A call gets an id exactly while the transport works and fewer than 32 requests are pending. */
  lemma CallIsNumberedIff(t: State)
    requires Inv(t)
    ensures var t' := Apply(t, Draw);
      if !t.failed && |t.pending| < 32
      then t' == t.(nextId := t.nextId + 1, calls := t.calls + [Call(t.nextId + 1, Numbered, 0, None, false)])
      else t' == t
  {
  }

  /** The same holds for its registration, for which others may have taken the room meanwhile. */
  lemma CallIsRegisteredIff(t: State, c: nat)
    requires Inv(t) && In(t, c, Numbered)
    ensures var t', call := Apply(t, Register(c)), t.calls[c];
      if !t.failed && |t.pending| < 32
      then t' == t.(pending := t.pending[call.id := c], calls := t.calls[c := call.(phase := Registered)])
      else t' == t.(calls := t.calls[c := call.(phase := Over(None))])
  {
  }

  /** The first failure answers every pending call with a rejection and no other, and empties the table; later ones change nothing. */
  lemma FailureAnswersPending(t: State, c: nat)
    requires Inv(t) && c < |t.calls|
    ensures var t' := Apply(t, Fail);
      && t'.failed && t'.pending == map[] && |t'.calls| == |t.calls| && t'.nextId == t.nextId
      && (!t.failed && c in t.pending.Values ==> t'.calls[c] == t.calls[c].(sent := 1, reply := Some(Unavailable)))
      && (t.failed || c !in t.pending.Values ==> t'.calls[c] == t.calls[c])
  {
    if !t.failed && c in t.pending.Values { var id :| id in t.pending && t.pending[id] == c; }
  }

  /** A call that holds the gate writes exactly if the transport works and its request is still pending; else it gives the gate back. */
  lemma GateIsUsedIff(t: State, c: nat)
    requires Inv(t) && In(t, c, Gated)
    ensures Enabled(t, CheckAvailable(c))
    ensures var t', call := Apply(t, CheckAvailable(c)), t.calls[c];
      if !t.failed && call.id in t.pending
      then t' == t.(gate := HeldByWriter(c), calls := t.calls[c := call.(phase := Writing)])
      else t' == t.(gate := Free, calls := t.calls[c := call.(phase := Leaving)])
  {
  }

  /** A free gate is taken by any registered call, and a waiting call takes the reply that has come. */
  lemma WaitingEnds(t: State, c: nat)
    requires Inv(t) && c < |t.calls|
    ensures Enabled(t, TakeGate(c)) <==> t.calls[c].phase == Registered && t.gate == Free
    ensures Enabled(t, Receive(c)) <==> t.calls[c].phase == Awaiting && t.calls[c].reply.Some? && !t.calls[c].received
    ensures Enabled(t, Receive(c)) ==>
              Apply(t, Receive(c)) == t.(calls := t.calls[c := t.calls[c].(received := true, phase := Over(t.calls[c].reply))])
  {
  }

  /** When the writer is done, its call waits for the reply, or leaves if the write failed; a call that has left stays away. */
  lemma WriterReportsBack(t: State)
    requires Inv(t) && t.gate.WriterDone?
    ensures var t', c := Apply(t, ReleaseGate), t.gate.call;
      if In(t, c, Writing) then t' == t.(gate := Free, calls := t.calls[c := t.calls[c].(phase := if t.gate.ok then Awaiting else Leaving)])
      else t' == t.(gate := Free)
  {
  }

  /** A write that fails, fails the transport; one that succeeds changes nothing but the gate. */
  lemma WriteDecides(t: State, ok: bool)
    requires Inv(t) && t.gate.HeldByWriter?
    ensures var t' := Apply(t, WriteReturns(ok));
      t' == (if ok then t else Apply(t, Fail)).(gate := WriterDone(t.gate.call, ok))
  {
  }

  /** A reply for an unknown id changes nothing; one for a pending id goes to the call that waits for it. */
  lemma ReplyIsRouted(t: State, id: nat)
    requires Inv(t) && t.reader == Reading
    ensures var t' := Apply(t, Resolve(id));
      if id in t.pending then t' == t.(pending := t.pending - {id}, reader := Delivering(t.pending[id], Response(id))) else t' == t
    ensures id in t.pending ==> t.calls[t.pending[id]].id == id
  {
  }

  /** A cancelled call leaves no table entry, gives back a gate it still held, and keeps no other from the pipe. */
  lemma AbandonedCallLeaves(t: State, c: nat)
    requires Inv(t) && Enabled(t, Abandon(c))
    ensures var gone := Apply(t, Abandon(c));
      && Enabled(gone, Remove(c))
      && gone.gate == (if t.gate == HeldByCall(c) then Free else t.gate)
      && var over := Apply(gone, Remove(c));
         over.pending == t.pending - {t.calls[c].id} && over.calls[c] == t.calls[c].(phase := Over(None))
  {
  }

  /** The steps of call c from its number to its reply. */
  function CallStep(c: nat, id: nat, k: nat): Event
    requires k < 9
  {
    match k
    case 0 => Draw
    case 1 => Register(c)
    case 2 => TakeGate(c)
    case 3 => CheckAvailable(c)
    case 4 => WriteReturns(true)
    case 5 => ReleaseGate
    case 6 => Resolve(id)
    case 7 => Deliver
    case _ => Receive(c)
  }

  function CallSteps(c: nat, id: nat, k: nat): seq<Event>
    requires k <= 9
  {
    if k == 0 then [] else CallSteps(c, id, k - 1) + [CallStep(c, id, k - 1)]
  }

  function With(t: State, call: Call): State { t.(nextId := t.nextId + 1, calls := t.calls + [call]) }

  /** Where the transport is after k of these steps. */
  function Stage(t: State, k: nat): State
    requires k <= 9
  {
    var c, id := |t.calls|, t.nextId + 1;
    var pending := t.pending[id := c];
    match k
    case 0 => t
    case 1 => With(t, Call(id, Numbered, 0, None, false))
    case 2 => With(t, Call(id, Registered, 0, None, false)).(pending := pending)
    case 3 => With(t, Call(id, Gated, 0, None, false)).(pending := pending, gate := HeldByCall(c))
    case 4 => With(t, Call(id, Writing, 0, None, false)).(pending := pending, gate := HeldByWriter(c))
    case 5 => With(t, Call(id, Writing, 0, None, false)).(pending := pending, gate := WriterDone(c, true))
    case 6 => With(t, Call(id, Awaiting, 0, None, false)).(pending := pending)
    case 7 => With(t, Call(id, Awaiting, 0, None, false)).(reader := Delivering(c, Response(id)))
    case 8 => With(t, Call(id, Awaiting, 1, Some(Response(id)), false))
    case _ => With(t, Call(id, Over(Some(Response(id))), 1, Some(Response(id)), true))
  }

  predicate Open(t: State) { Inv(t) && !t.failed && |t.pending| < 32 && t.gate == Free && t.reader == Reading }

  lemma NewIdIsFresh(t: State)
    requires Inv(t)
    ensures t.nextId + 1 !in t.pending && t.pending[t.nextId + 1 := |t.calls|] - {t.nextId + 1} == t.pending
  {
    forall id | id in t.pending ensures id <= t.nextId { assert CallInv(t, t.pending[id]); }
  }

  lemma RequestStage(t: State, k: nat)
    requires Open(t) && k < 4
    ensures Enabled(Stage(t, k), CallStep(|t.calls|, t.nextId + 1, k))
    ensures Apply(Stage(t, k), CallStep(|t.calls|, t.nextId + 1, k)) == Stage(t, k + 1)
  {
    NewIdIsFresh(t);
  }

  lemma ReplyStage(t: State, k: nat)
    requires Open(t) && 4 <= k < 9
    ensures Enabled(Stage(t, k), CallStep(|t.calls|, t.nextId + 1, k))
    ensures Apply(Stage(t, k), CallStep(|t.calls|, t.nextId + 1, k)) == Stage(t, k + 1)
  {
    NewIdIsFresh(t);
  }

  lemma {:induction false} CallReaches(t: State, k: nat)
    requires Open(t) && k <= 9
    ensures Runs(t, CallSteps(|t.calls|, t.nextId + 1, k)) && After(t, CallSteps(|t.calls|, t.nextId + 1, k)) == Stage(t, k)
  {
    if k == 0 {
      assert After(t, []) == t;
    } else {
      CallReaches(t, k - 1);
      if k - 1 < 4 { RequestStage(t, k - 1); } else { ReplyStage(t, k - 1); }
      RunsExtend(t, CallSteps(|t.calls|, t.nextId + 1, k - 1), CallStep(|t.calls|, t.nextId + 1, k - 1));
    }
  }

  /** An undisturbed call returns the response to its own request, and leaves table, gate and reader as they were. */
  lemma UndisturbedCallIsAnswered(t: State) returns (events: seq<Event>)
    requires Open(t)
    ensures Runs(t, events)
    ensures var r, c, id := After(t, events), |t.calls|, t.nextId + 1;
      r == t.(nextId := id, calls := t.calls + [Call(id, Over(Some(Response(id))), 1, Some(Response(id)), true)])
  {
    CallReaches(t, 9);
    events := CallSteps(|t.calls|, t.nextId + 1, 9);
  }

  /** The write gate is never lost: whoever holds it can still take the step that gives it back. */
  lemma GateIsNeverLost(t: State)
    requires Inv(t)
    ensures match t.gate
      case Free => true
      case HeldByCall(c) => Enabled(t, Abandon(c)) && Apply(t, Abandon(c)).gate == Free
      case HeldByWriter(c) => Enabled(t, WriteReturns(true)) && Enabled(Apply(t, WriteReturns(true)), ReleaseGate)
      case WriterDone(c, ok) => Enabled(t, ReleaseGate) && Apply(t, ReleaseGate).gate == Free
  {
  }

  /** A registered, gated, writing or waiting call can leave at any moment, and the transport can fail at any moment. */
  lemma CallsCanAlwaysLeave(t: State, c: nat)
    requires Inv(t) && c < |t.calls|
    ensures var phase := t.calls[c].phase;
      Enabled(t, Abandon(c)) <==> phase == Registered || phase == Gated || phase == Writing || phase == Awaiting
    ensures Enabled(t, Fail) && Enabled(t, Draw)
    ensures Enabled(t, Remove(c)) <==> t.calls[c].phase == Leaving
  {
  }
}
