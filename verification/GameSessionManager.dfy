/** RxSession's send path and RxGameSessionManager as the objects they are.
    Each method is shown to be a run of the atomic steps of SendQueue and of
    Broadcast. */
module GameSessionManager {
  import opened Wire
  import opened SendQueue
  import Bcast = Broadcast

  class GameSession<B(==)> {
    ghost const id: Bcast.SessionId
    // RxSendBuffer's write size, which is what a send transmits of a buffer.
    ghost const writeSize: B -> nat
    var connected: bool
    var queueSendBuffer: seq<B>
    var sendRegistered: bool
    var eventSendBuffer: seq<B>
    ghost var slots: seq<Slot<B>>
    ghost var holders: seq<Phase>
    ghost var stranded: bool
    ghost var sent: seq<B>
    ghost var batches: seq<Batch<B>>

    ghost function State(): Session<B>
      reads this
    {
      Session(connected, queueSendBuffer, sendRegistered, slots, holders, stranded, sent, batches)
    }

    // The slots are the pointers of the event.
    ghost predicate Valid()
      reads this
    {
      Inv(State()) && eventSendBuffer == Bufs(slots)
    }

    // The bytes handed over by the last WSASend.
    ghost function LastTotal(): nat
      reads this
    {
      if batches == [] then 0 else Total(batches[|batches| - 1].slots, writeSize)
    }

    constructor (ghost id: Bcast.SessionId, ghost writeSize: B -> nat)
      ensures State() == NewSession() && Valid() && this.id == id && this.writeSize == writeSize
    {
      this.id, this.writeSize := id, writeSize;
      connected, sendRegistered, stranded := false, false, false;
      queueSendBuffer, eventSendBuffer, slots := [], [], [];
      holders, sent, batches := [], [], [];
      new;
      NewSessionInv<B>();
    }

    // The section of Send under the session's mutex.
    method Push(spSendBuffer: B) returns (registerSend: bool)
      requires Valid() && holders != [Draining]
      modifies `queueSendBuffer, `sendRegistered, `holders, `sent
      ensures Valid()
      ensures Next(old(State()), Action.Push(spSendBuffer)) == Some(State())
      ensures registerSend == !old(sendRegistered)
    {
      PushKeepsInv(State(), spSendBuffer);
      queueSendBuffer := queueSendBuffer + [spSendBuffer];
      registerSend := !sendRegistered;
      holders := if sendRegistered then holders else holders + [Claimed];
      sendRegistered := true;
      sent := sent + [spSendBuffer];
    }

    // The IsConnected test of RegisterSend, which returns if it fails and
    // leaves the flag set.
    method CheckConnected() returns (connectedNow: bool)
      requires Valid() && holders == [Claimed]
      modifies `holders, `stranded
      ensures Valid()
      ensures Next(old(State()), Check(0)) == Some(State())
      ensures connectedNow == connected && holders == if connected then [Checked] else []
    {
      StepKeepsInv(State(), Check(0));
      Singleton(Claimed, Checked);
      connectedNow := connected;
      if connected {
        holders := [Checked];
      } else {
        holders, stranded := [], true;
      }
    }

    // The section of RegisterSend under the session's mutex: every turn pops
    // the front and then copies the pointer.
    method DrainQueue(ghost elsewhere: set<B>)
      requires Valid() && holders == [Checked]
      modifies `holders, `eventSendBuffer, `slots, `queueSendBuffer
      ensures Valid() && holders == [Drained] && queueSendBuffer == []
      ensures slots == PopAll(old(queueSendBuffer), [], elsewhere)
      ensures Run(old(State()), [Lock(0)] + Pops(old(queueSendBuffer), elsewhere) + [Unlock(0)]) == Some(State())
    {
      ghost var s0, queue := State(), queueSendBuffer;
      holders := [Draining];
      ghost var locked := State();
      while |queueSendBuffer| > 0
        invariant State() == locked.(queue := queueSendBuffer, inFlight := slots)
        invariant eventSendBuffer == Bufs(slots)
        invariant PopAll(queueSendBuffer, slots, elsewhere) == PopAll(queue, [], elsewhere)
        decreases |queueSendBuffer|
      {
        var spSendBuffer := queueSendBuffer[0];
        queueSendBuffer := queueSendBuffer[1..];
        eventSendBuffer := eventSendBuffer + [spSendBuffer];
        ghost var intact := Survives(spSendBuffer, queueSendBuffer, slots, spSendBuffer in elsewhere);
        slots := slots + [Slot(spSendBuffer, intact)];
      }
      holders := [Drained];
      DrainRun(s0, elsewhere);
      RunKeepsInv(s0, [Lock(0)] + Pops(queue, elsewhere) + [Unlock(0)]);
    }

    // The WSASend of RegisterSend; accepted is the outcome of the call (an
    // immediate success and WSA_IO_PENDING alike).
    method PostSend(accepted: bool)
      requires Valid() && holders == [Drained]
      modifies `holders, `eventSendBuffer, `slots, `sendRegistered, `batches
      ensures Valid()
      ensures Next(old(State()), Post(0, accepted)) == Some(State())
      ensures batches == old(batches) + [Batch(old(slots), if accepted then OnItsWay else Refused)]
      ensures holders == (if accepted then [Posted] else []) && sendRegistered == accepted
    {
      PostNext(State(), accepted);
      PostKeepsInv(State(), 0, accepted);
      batches := batches + [Batch(slots, if accepted then OnItsWay else Refused)];
      if accepted {
        holders := [Posted];
      } else {
        eventSendBuffer, slots := [], [];
        sendRegistered := false;
        holders := [];
      }
    }

    // Drains the queue into one WSASend; not connected, strands it.
    method RegisterSend(accepted: bool, ghost elsewhere: set<B>)
      requires Valid() && holders == [Claimed]
      modifies `holders, `stranded, `eventSendBuffer, `slots, `queueSendBuffer, `sendRegistered, `batches
      ensures Valid()
      ensures Run(old(State()), Registering(old(State()), elsewhere, accepted)) == Some(State())
      ensures connected ==> queueSendBuffer == [] && holders == (if accepted then [Posted] else [])
      ensures connected ==>
                batches == old(batches) + [Batch(PopAll(old(queueSendBuffer), [], elsewhere),
                                                 if accepted then OnItsWay else Refused)]
      ensures !connected ==> Stuck(State()) && queueSendBuffer == old(queueSendBuffer) && batches == old(batches)
    {
      ghost var s0 := State();
      var connectedNow := CheckConnected();
      ghost var s1 := State();
      RunOne(s0, Check(0));
      if connectedNow {
        DrainQueue(elsewhere);
        ghost var s2 := State();
        PostSend(accepted);
        RegisteringRuns(s0, s1, s2, State(), elsewhere, accepted);
      }
    }

    method Send(spSendBuffer: B, accepted: bool, ghost elsewhere: set<B>) returns (ghost actions: seq<Action<B>>)
      requires Valid() && holders != [Draining]
      modifies `queueSendBuffer, `sendRegistered, `holders, `sent, `stranded, `eventSendBuffer, `slots, `batches
      ensures Valid() && SentOnce(old(State()), State(), spSendBuffer, accepted)
      ensures Run(old(State()), [Action.Push(spSendBuffer)] + actions) == Some(State())
      ensures var pushed := Next(old(State()), Action.Push(spSendBuffer)).value;
              actions == if old(sendRegistered) then [] else Registering(pushed, elsewhere, accepted)
    {
      ghost var s0 := State();
      var registerSend := Push(spSendBuffer);
      ghost var pushed := State();
      actions := [];
      if registerSend {
        assert holders == [Claimed];
        actions := Registering(pushed, elsewhere, accepted);
        RegisterSend(accepted, elsewhere);
      }
      RunOne(s0, Action.Push(spSendBuffer));
      RunThenRun(s0, [Action.Push(spSendBuffer)], actions);
    }

    // The event lets go of the buffers; nothing transferred disconnects, and
    // the right to drain is not given back.
    method CompleteSend(numOfBytes: nat)
      requires Valid() && holders == [Posted]
      modifies `holders, `eventSendBuffer, `slots, `connected, `stranded, `batches
      ensures Valid()
      ensures Next(old(State()), Complete(0, Transferred(numOfBytes, old(LastTotal())))) == Some(State())
      ensures eventSendBuffer == [] && connected == (old(connected) && numOfBytes > 0)
      ensures holders == (if numOfBytes > 0 then [Completed] else []) && stranded == (numOfBytes == 0)
      ensures SettledAs(old(batches), batches, numOfBytes, old(LastTotal()))
    {
      ghost var s0, transfer := State(), Transferred(numOfBytes, LastTotal());
      CompleteNext(s0, transfer);
      SettlesAs(batches, numOfBytes, LastTotal());
      eventSendBuffer, slots := [], [];
      batches := Settle(batches, transfer);
      if numOfBytes > 0 {
        holders := [Completed];
      } else {
        holders, stranded, connected := [], true, false;
      }
      assert Next(s0, Complete(0, transfer)) == Some(State());
      CompleteKeepsInv(s0, 0, transfer);
    }

    // The section of ProcessSend under the session's mutex.
    method FinishSend() returns (registeredSend: bool)
      requires Valid() && holders == [Completed]
      modifies `holders, `sendRegistered
      ensures Valid()
      ensures Next(old(State()), Finish(0)) == Some(State())
      ensures registeredSend == sendRegistered == (queueSendBuffer != [])
      ensures holders == if registeredSend then [Claimed] else []
    {
      StepKeepsInv(State(), Finish(0));
      Singleton(Completed, Claimed);
      registeredSend := false;
      if |queueSendBuffer| == 0 {
        sendRegistered := false;
        holders := [];
      } else {
        registeredSend := true;
        holders := [Claimed];
      }
    }

    // The completion of a WSASend: what was pushed meanwhile is sent next,
    // and if nothing was, the right to drain is given back.  A part is taken
    // for the whole.
    method ProcessSend(numOfBytes: nat, accepted: bool, ghost elsewhere: set<B>)
      requires Valid() && holders == [Posted]
      modifies this
      ensures Valid() && sent == old(sent)
      ensures Run(old(State()), [Complete(0, Transferred(numOfBytes, old(LastTotal())))]
                                + Processing(old(State()), numOfBytes, elsewhere, accepted)) == Some(State())
      ensures SettledAs(old(batches), batches, numOfBytes, old(LastTotal()))
    {
      ghost var s0, total := State(), LastTotal();
      CompleteSend(numOfBytes);
      ghost var s1, s2, settled := State(), State(), batches;
      if numOfBytes > 0 {
        var registeredSend := FinishSend();
        s2 := State();
        if registeredSend {
          RegisterSend(accepted, elsewhere);
        }
      }
      ProcessRuns(s0, numOfBytes, total, elsewhere, accepted, s1, s2, State());
      StaysSettled(s0.batches, settled, batches, numOfBytes, total);
    }
  }

  // The last of the WSASends before, and no other, has its outcome: nothing
  // for 0 bytes, everything for all the bytes handed over, a part otherwise.
  ghost predicate SettledAs<B>(before: seq<Batch<B>>, after: seq<Batch<B>>, numOfBytes: nat, total: nat)
  {
    var k := |before| - 1;
    && 0 <= k < |after| && after[..k] == before[..k] && after[k].slots == before[k].slots
    && (after[k].outcome == Done(Nothing) <==> numOfBytes == 0)
    && (after[k].outcome == Done(Part) <==> 0 < numOfBytes < total)
    && (after[k].outcome == Done(Everything) <==> 0 < numOfBytes && total <= numOfBytes)
  }

  lemma SettlesAs<B>(before: seq<Batch<B>>, numOfBytes: nat, total: nat)
    requires before != []
    ensures SettledAs(before, Settle(before, Transferred(numOfBytes, total)), numOfBytes, total)
  {
    TransferredIff(numOfBytes, total);
  }

  lemma StaysSettled<B>(before: seq<Batch<B>>, settled: seq<Batch<B>>, after: seq<Batch<B>>,
                        numOfBytes: nat, total: nat)
    requires SettledAs(before, settled, numOfBytes, total) && settled <= after
    ensures SettledAs(before, after, numOfBytes, total)
  {
  }

  lemma ProcessRuns<B>(s0: Session<B>, numOfBytes: nat, total: nat, elsewhere: set<B>, accepted: bool,
                       s1: Session<B>, s2: Session<B>, s3: Session<B>)
    requires Next(s0, Complete(0, Transferred(numOfBytes, total))) == Some(s1)
    requires numOfBytes == 0 ==> s3 == s1
    requires numOfBytes > 0 ==> Next(s1, Finish(0)) == Some(s2)
    requires numOfBytes > 0 ==>
               if s2.queue == [] then s3 == s2 else Run(s2, Registering(s2, elsewhere, accepted)) == Some(s3)
    ensures Run(s0, [Complete(0, Transferred(numOfBytes, total))] + Processing(s0, numOfBytes, elsewhere, accepted))
         == Some(s3)
  {
    var complete := Complete(0, Transferred(numOfBytes, total));
    RunOne(s0, complete);
    if numOfBytes > 0 {
      RunOne(s1, Finish(0));
      var more := if s2.queue == [] then [] else Registering(s2, elsewhere, accepted);
      RunThenRun(s1, [Finish(0)], more);
      assert Processing(s0, numOfBytes, elsewhere, accepted) == [Finish(0)] + more;
    }
    RunThenRun(s0, [complete], Processing(s0, numOfBytes, elsewhere, accepted));
  }

  lemma RegisteringRuns<B>(s0: Session<B>, s1: Session<B>, s2: Session<B>, s3: Session<B>,
                           elsewhere: set<B>, accepted: bool)
    requires s0.connected && s1.queue == s0.queue
    requires Next(s0, Check(0)) == Some(s1)
    requires Run(s1, [Lock(0)] + Pops(s1.queue, elsewhere) + [Unlock(0)]) == Some(s2)
    requires Next(s2, Post(0, accepted)) == Some(s3)
    ensures Run(s0, Registering(s0, elsewhere, accepted)) == Some(s3)
  {
    var drain := [Lock(0)] + Pops(s0.queue, elsewhere) + [Unlock(0)];
    RunOne(s0, Check(0));
    RunThenRun(s0, [Check(0)], drain);
    RunThen(s0, [Check(0)] + drain, Post(0, accepted));
    assert [Check(0)] + drain + [Post(0, accepted)] == Registering(s0, elsewhere, accepted);
  }

  ghost function Ids<B>(sessions: set<GameSession<B>>): set<Bcast.SessionId> { set s <- sessions :: s.id }

  // Each of these sessions has been sent b once on the way from now to next.
  ghost predicate AllSent<B>(sessions: set<GameSession<B>>, now: Bcast.World<B>, next: Bcast.World<B>, b: B,
                             accepting: set<GameSession<B>>)
  {
    forall s <- sessions :: SentOnce(now.Of(s.id), next.Of(s.id), b, s in accepting)
  }

  lemma OneMoreSent<B>(all: set<GameSession<B>>, rest: set<GameSession<B>>, now: Bcast.World<B>, next: Bcast.World<B>,
                       after: Bcast.World<B>, b: B, accepting: set<GameSession<B>>, x: GameSession<B>)
    requires AllSent(all - rest, now, next, b, accepting) && x in rest && rest <= all
    requires next.Of(x.id) == now.Of(x.id) && SentOnce(next.Of(x.id), after.Of(x.id), b, x in accepting)
    requires forall s <- all - {x} :: after.Of(s.id) == next.Of(s.id)
    ensures AllSent(all - (rest - {x}), now, after, b, accepting)
  {
  }

  // These sessions are as the world says, and in good order.
  ghost predicate Tracked<B>(sessions: set<GameSession<B>>, w: Bcast.World<B>)
    reads sessions
  {
    forall s <- sessions :: s.Valid() && w.Of(s.id) == s.State()
  }

  ghost predicate NoneDraining<B>(sessions: set<GameSession<B>>)
    reads sessions
  {
    forall s <- sessions :: s.holders != [Draining]
  }

  // In the loop of Broadcast, with rest still to be sent to.
  ghost predicate Midway<B>(all: set<GameSession<B>>, rest: set<GameSession<B>>, now: Bcast.World<B>,
                            next: Bcast.World<B>, b: B, accepting: set<GameSession<B>>)
    reads all, rest
  {
    && Distinct(all) && Tracked(all, next) && NoneDraining(rest)
    && (forall s <- rest :: next.Of(s.id) == now.Of(s.id))
    && AllSent(all - rest, now, next, b, accepting)
    && next.history == now.history && next.members == now.members
    && next.holder == Some(Bcast.Sending(b, Ids(rest), None))
  }

  lemma TrackedWithout<B>(all: set<GameSession<B>>, rest: set<GameSession<B>>, w: Bcast.World<B>, x: GameSession<B>)
    requires Tracked(all, w) && NoneDraining(rest) && rest <= all && x in rest
    ensures Tracked(all - {x}, w) && NoneDraining(rest - {x})
    ensures x.Valid() && w.Of(x.id) == x.State() && x.holders != [Draining]
  {
  }

  lemma TrackedWith<B>(all: set<GameSession<B>>, w: Bcast.World<B>, after: Bcast.World<B>, x: GameSession<B>)
    requires Tracked(all - {x}, w) && x.Valid() && after.Of(x.id) == x.State()
    requires forall s <- all - {x} :: after.Of(s.id) == w.Of(s.id)
    ensures Tracked(all, after)
  {
  }

  lemma OthersStay<B>(all: set<GameSession<B>>, w: Bcast.World<B>, after: Bcast.World<B>, x: GameSession<B>)
    requires Distinct(all) && x in all && forall t :: t != x.id ==> after.Of(t) == w.Of(t)
    ensures forall s <- all - {x} :: after.Of(s.id) == w.Of(s.id)
  {
  }

  ghost predicate Distinct<B>(sessions: set<GameSession<B>>)
  {
    forall s <- sessions, t <- sessions :: s.id == t.id ==> s == t
  }

  lemma IdsWithout<B>(all: set<GameSession<B>>, rest: set<GameSession<B>>, x: GameSession<B>)
    requires Distinct(all) && rest <= all && x in rest
    ensures Ids(rest - {x}) == Ids(rest) - {x.id}
  {
  }

  class SessionManager<B(==)> {
    var setSession: set<GameSession<B>>

    constructor ()
      ensures setSession == {} && Shows(Bcast.NewWorld())
    {
      setSession := {};
    }

    // The world as this manager and its sessions are now: no broadcast is
    // running, and the sessions are told apart by their numbers.
    ghost predicate Shows(w: Bcast.World<B>)
      reads this, setSession
    {
      && w.holder.None?
      && Distinct(setSession)
      && w.members == Ids(setSession)
      && (forall s <- setSession :: w.Of(s.id) == s.State())
    }

    method AddGameSession(spGameSession: GameSession<B>, ghost w: Bcast.World<B>)
      requires Shows(w) && w.Of(spGameSession.id) == spGameSession.State()
      requires forall s <- setSession :: s.id == spGameSession.id ==> s == spGameSession
      modifies this
      ensures setSession == old(setSession) + {spGameSession}
      ensures Bcast.Advance(w, Bcast.Add(spGameSession.id)).Some?
      ensures Shows(Bcast.Advance(w, Bcast.Add(spGameSession.id)).value)
    {
      setSession := setSession + {spGameSession};
    }

    method RemoveGameSession(spGameSession: GameSession<B>, ghost w: Bcast.World<B>)
      requires Shows(w)
      requires forall s <- setSession :: s.id == spGameSession.id ==> s == spGameSession
      modifies this
      ensures setSession == old(setSession) - {spGameSession}
      ensures Bcast.Advance(w, Bcast.Step.Remove(spGameSession.id)).Some?
      ensures Shows(Bcast.Advance(w, Bcast.Step.Remove(spGameSession.id)).value)
    {
      setSession := setSession - {spGameSession};
    }

    // One turn of Broadcast's loop.
    method SendOne(spGameSession: GameSession<B>, spSendBuffer: B, accepted: bool, ghost now: Bcast.World<B>)
      returns (ghost steps: seq<Bcast.Step<B>>, ghost next: Bcast.World<B>)
      requires spGameSession.Valid() && spGameSession.holders != [Draining]
      requires now.Of(spGameSession.id) == spGameSession.State()
      requires now.holder.Some? && now.holder.value.buf == spSendBuffer
      requires now.holder.value.busy.None? && spGameSession.id in now.holder.value.remaining
      modifies spGameSession
      ensures spGameSession.Valid()
      ensures SentOnce(now.Of(spGameSession.id), next.Of(spGameSession.id), spSendBuffer, accepted)
      ensures Bcast.Run(now, steps) == Some(next)
      ensures next.history == now.history && next.members == now.members
      ensures next.holder == Some(now.holder.value.(remaining := now.holder.value.remaining - {spGameSession.id}))
      ensures next.Of(spGameSession.id) == spGameSession.State()
      ensures forall t :: t != spGameSession.id ==> next.Of(t) == now.Of(t)
    {
      ghost var x, id := spGameSession.State(), spGameSession.id;
      ghost var pushed := x.queue + [spSendBuffer];
      ghost var elsewhere := set b <- pushed | Bcast.OwnedElsewhere(now, id, b);
      ghost var actions := spGameSession.Send(spSendBuffer, accepted, elsewhere);
      Bcast.SendLocal(now, id, elsewhere, accepted, actions, spGameSession.State());
      steps := [Bcast.SendTo(id)] + Bcast.Locals(id, actions);
      next := Bcast.Run(now, steps).value;
    }

    // The loop of Broadcast.
    method SendAll(spSendBuffer: B, accepting: set<GameSession<B>>, ghost now: Bcast.World<B>)
      returns (ghost steps: seq<Bcast.Step<B>>, ghost next: Bcast.World<B>)
      requires Distinct(setSession) && now.holder == Some(Bcast.Sending(spSendBuffer, Ids(setSession), None))
      requires Tracked(setSession, now) && NoneDraining(setSession)
      modifies setSession
      ensures Tracked(setSession, next) && AllSent(setSession, now, next, spSendBuffer, accepting)
      ensures Bcast.Run(now, steps) == Some(next)
      ensures next.history == now.history && next.members == now.members
      ensures next.holder == Some(Bcast.Sending(spSendBuffer, {}, None))
    {
      var all, rest := setSession, setSession;
      steps, next := [], now;
      assert all - rest == {};
      while rest != {}
        invariant rest <= all && Midway(all, rest, now, next, spSendBuffer, accepting)
        invariant Bcast.Run(now, steps) == Some(next)
        decreases rest
      {
        var spGameSession :| spGameSession in rest;
        ghost var more, after := SendTurn(all, rest, spGameSession, spSendBuffer, accepting, now, next);
        Bcast.RunThenRun(now, steps, more);
        steps, next := steps + more, after;
        rest := rest - {spGameSession};
      }
      assert Ids(rest) == {} && all - rest == all;
    }

    // What one turn of the loop does to all the sessions.
    method SendTurn(ghost all: set<GameSession<B>>, ghost rest: set<GameSession<B>>, spGameSession: GameSession<B>,
                    spSendBuffer: B, accepting: set<GameSession<B>>, ghost now: Bcast.World<B>,
                    ghost next: Bcast.World<B>)
      returns (ghost steps: seq<Bcast.Step<B>>, ghost after: Bcast.World<B>)
      requires rest <= all && spGameSession in rest && Midway(all, rest, now, next, spSendBuffer, accepting)
      modifies spGameSession
      ensures Bcast.Run(next, steps) == Some(after)
      ensures Midway(all, rest - {spGameSession}, now, after, spSendBuffer, accepting)
    {
      IdsWithout(all, rest, spGameSession);
      TrackedWithout(all, rest, next, spGameSession);
      steps, after := SendOne(spGameSession, spSendBuffer, spGameSession in accepting, next);
      OthersStay(all, next, after, spGameSession);
      TrackedWith(all, next, after, spGameSession);
      OneMoreSent(all, rest, now, next, after, spSendBuffer, accepting, spGameSession);
    }

    // Every session of the set is sent the buffer exactly once, however often
    // it was added; no other session is touched.  accepting: the sessions
    // whose WSASend is accepted.  The whole call is a run of Broadcast from
    // taking the mutex to giving it back.
    method Broadcast(spSendBuffer: B, accepting: set<GameSession<B>>, ghost w: Bcast.World<B>)
      returns (ghost steps: seq<Bcast.Step<B>>)
      requires Shows(w) && forall s <- setSession :: s.Valid() && s.holders != [Draining]
      modifies setSession
      ensures forall s <- setSession :: s.Valid() && SentOnce(old(s.State()), s.State(), spSendBuffer, s in accepting)
      ensures Bcast.Run(w, [Bcast.BeginBroadcast(spSendBuffer)] + steps + [Bcast.EndBroadcast]).Some?
      ensures var w' := Bcast.Run(w, [Bcast.BeginBroadcast(spSendBuffer)] + steps + [Bcast.EndBroadcast]).value;
              Shows(w') && w'.history == w.history + [Bcast.Broadcasted(spSendBuffer)]
    {
      ghost var now: Bcast.World<B>;
      steps, now := SendAll(spSendBuffer, accepting, Bcast.Advance(w, Bcast.BeginBroadcast(spSendBuffer)).value);
      BroadcastRun(w, spSendBuffer, steps, now);
    }
  }

  lemma BroadcastRun<B>(w: Bcast.World<B>, b: B, steps: seq<Bcast.Step<B>>, now: Bcast.World<B>)
    requires w.holder.None? && Bcast.Run(Bcast.Advance(w, Bcast.BeginBroadcast(b)).value, steps) == Some(now)
    requires now.holder == Some(Bcast.Sending(b, {}, None))
    ensures Bcast.Run(w, [Bcast.BeginBroadcast(b)] + steps + [Bcast.EndBroadcast]) == Some(now.(holder := None))
  {
    var one: seq<Bcast.Step<B>> := [Bcast.BeginBroadcast(b)];
    Bcast.RunThen(w, [], Bcast.BeginBroadcast(b));
    assert [] + one == one;
    Bcast.RunThenRun(w, one, steps);
    Bcast.RunThen(w, one + steps, Bcast.EndBroadcast);
  }
}
