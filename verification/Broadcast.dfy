/** The session manager: Add, Remove and Broadcast under one mutex, interleaved
    with the send paths of the sessions, and what each session's socket gets. */
module Broadcast {
  import opened Wire
  import opened SendQueue
  import Framing
  import Msg = Messages

  type SessionId = nat

  // What happened, in the order the manager's mutex was taken.
  datatype Event<B> = Added(s: SessionId) | Removed(s: SessionId) | Broadcasted(buf: B)

  // A broadcast that holds the mutex: the sessions it has still to send to,
  // and the session whose queue its thread is draining right now.
  datatype Sending<B> = Sending(buf: B, remaining: set<SessionId>, busy: Option<SessionId>)

  // held: the buffers that some caller of Broadcast still has a pointer to.
  datatype World<B> = World(
    members: set<SessionId>,
    holder: Option<Sending<B>>,
    held: set<B>,
    sessions: map<SessionId, Session<B>>,
    history: seq<Event<B>>)
  {
    // A session nobody has sent to yet is as good as new.
    function Of(s: SessionId): Session<B> { if s in sessions then sessions[s] else NewSession() }
  }

  function NewWorld<B>(): World<B> { World({}, None, {}, map[], []) }

  // Release: a caller lets go of its pointer.
  datatype Step<B> =
    | Add(s: SessionId)
    | Remove(s: SessionId)
    | BeginBroadcast(buf: B)
    | SendTo(s: SessionId)
    | EndBroadcast
    | Release(buf: B)
    | Local(s: SessionId, action: Action<B>)

  predicate OwnedBy<B(==)>(s: Session<B>, b: B) { b in s.queue || Slot(b, true) in s.inFlight }

  // Someone other than session s has a pointer to b: a caller, or the queue
  // or the event of another session.
  predicate OwnedElsewhere<B(==)>(w: World<B>, s: SessionId, b: B)
  {
    b in w.held || exists t <- w.sessions.Keys :: t != s && OwnedBy(w.sessions[t], b)
  }

  // The thread of the running broadcast has come back from draining s.
  predicate EndsDrain<B(==)>(w: World<B>, s: SessionId, a: Action<B>)
  {
    && w.holder.Some? && w.holder.value.busy == Some(s)
    && (a.Post? || (a.Check? && !w.Of(s).connected))
  }

  function HolderAfter<B(==)>(w: World<B>, s: SessionId, a: Action<B>): Option<Sending<B>>
  {
    if EndsDrain(w, s, a) then Some(w.holder.value.(busy := None)) else w.holder
  }

  // One atomic step; None: not possible now.  Add, Remove and Broadcast wait
  // for the mutex; sessions move on their own at any time, and get pushes
  // only from a broadcast.
  function Advance<B(==)>(w: World<B>, step: Step<B>): Option<World<B>>
  {
    match step
    case Add(s) =>
      if w.holder.Some? then None
      else Some(w.(members := w.members + {s}, history := w.history + [Added(s)]))
    case Remove(s) =>
      if w.holder.Some? then None
      else Some(w.(members := w.members - {s}, history := w.history + [Removed(s)]))
    case BeginBroadcast(b) =>
      if w.holder.Some? then None
      else Some(w.(holder := Some(Sending(b, w.members, None)), held := w.held + {b},
                   history := w.history + [Broadcasted(b)]))
    case SendTo(s) =>
      if w.holder.None? || s !in w.holder.value.remaining || w.holder.value.busy.Some? then None
      else
        var Sending(b, remaining, _) := w.holder.value;
        var busy := if w.Of(s).registered then None else Some(s);
        (match Next(w.Of(s), Push(b))
         case None => None
         case Some(s') => Some(w.(holder := Some(Sending(b, remaining - {s}, busy)), sessions := w.sessions[s := s'])))
    case EndBroadcast =>
      if w.holder.None? || w.holder.value.remaining != {} || w.holder.value.busy.Some? then None
      else Some(w.(holder := None))
    case Release(b) =>
      if b !in w.held || (w.holder.Some? && w.holder.value.buf == b) then None else Some(w.(held := w.held - {b}))
    case Local(s, a) =>
      if a.Push? || (a.Pop? && w.Of(s).queue != [] && a.elsewhere != OwnedElsewhere(w, s, w.Of(s).queue[0])) then None
      else
        match Next(w.Of(s), a)
        case None => None
        case Some(s') =>
          Some(w.(sessions := w.sessions[s := s'], holder := HolderAfter(w, s, a)))
  }

  function Run<B(==)>(w: World<B>, steps: seq<Step<B>>): Option<World<B>>
    decreases |steps|
  {
    if steps == [] then Some(w)
    else
      match Advance(w, steps[0])
      case None => None
      case Some(w') => Run(w', steps[1..])
  }

  //////////////////////////////////////////////////////////////////////////
  // The mutex and the owners
  //////////////////////////////////////////////////////////////////////////

  // While a broadcast holds the mutex nobody is added or removed and no other
  // begins.  It gives the mutex back after sending to everybody, goes on to
  // the next session only when it has come back from draining the last, and
  // its caller keeps the buffer.
  lemma MutexHolds<B>(w: World<B>, step: Step<B>)
    requires w.holder.Some? && Advance(w, step).Some?
    ensures !step.Add? && !step.Remove? && !step.BeginBroadcast? && step != Release(w.holder.value.buf)
    ensures var w', now := Advance(w, step).value, w.holder.value;
            && w'.members == w.members && w'.history == w.history
            && (w'.holder.None? <==> step.EndBroadcast?)
            && (step.EndBroadcast? ==> now.remaining == {} && now.busy.None?)
            && (w'.holder.Some? ==>
                  && w'.holder.value.buf == now.buf
                  && w'.holder.value.remaining == (if step.SendTo? then now.remaining - {step.s} else now.remaining))
    ensures var w', now := Advance(w, step).value, w.holder.value;
            && (step.SendTo? ==> step.s in now.remaining && now.busy.None?)
            && (step.SendTo? ==> w'.holder.value.busy == if w.Of(step.s).registered then None else Some(step.s))
            && (!step.SendTo? && w'.holder.Some? ==>
                  w'.holder.value.busy ==
                  if && step.Local? && now.busy == Some(step.s)
                     && (step.action.Post? || (step.action.Check? && !w.Of(step.s).connected)) then None
                  else now.busy)
  {
  }

  // Otherwise each of the three is possible, and does what it says.
  lemma MutexFree<B>(w: World<B>, s: SessionId, b: B)
    requires w.holder.None?
    ensures Advance(w, Add(s)).Some? && Advance(w, Add(s)).value.members == w.members + {s}
    ensures Advance(w, Remove(s)).Some? && Advance(w, Remove(s)).value.members == w.members - {s}
    ensures Advance(w, BeginBroadcast(b)).Some?
    ensures Advance(w, BeginBroadcast(b)).value.holder == Some(Sending(b, w.members, None))
    ensures Advance(w, BeginBroadcast(b)).value.held == w.held + {b}
    ensures Advance(w, BeginBroadcast(b)).value.members == w.members
  {
  }

  // The front of the queue of s survives its pop as another owner's exactly
  // when a caller holds it, it waits in the queue of another session, or it is
  // alive in the event of another session; which of the two pops is possible
  // is decided by that.
  lemma PopOwner<B>(w: World<B>, s: SessionId, i: nat)
    requires At(w.Of(s), i, Draining) && w.Of(s).queue != []
    ensures var b := w.Of(s).queue[0];
            var owned := b in w.held || exists t <- w.sessions.Keys ::
                           t != s && (b in w.sessions[t].queue || Slot(b, true) in w.sessions[t].inFlight);
            && (Advance(w, Local(s, Pop(i, true))).Some? <==> owned)
            && (Advance(w, Local(s, Pop(i, false))).Some? <==> !owned)
  {
  }

  // With another owner it is handed over intact; without, only if a later
  // entry of the queue or a pointer already popped keeps it.
  lemma PopSlot<B>(w: World<B>, s: SessionId, i: nat, elsewhere: bool)
    requires Advance(w, Local(s, Pop(i, elsewhere))).Some?
    ensures var x, x' := w.Of(s), Advance(w, Local(s, Pop(i, elsewhere))).value.Of(s);
            && x.queue != [] && x'.queue == x.queue[1..]
            && x'.inFlight == x.inFlight + [Slot(x.queue[0], elsewhere || x.queue[0] in x.queue[1..]
                                                             || Slot(x.queue[0], true) in x.inFlight)]
  {
  }

  //////////////////////////////////////////////////////////////////////////
  // What a session should have been sent
  //////////////////////////////////////////////////////////////////////////

  // After the first n events, was s in the set?
  predicate MemberAfter<B(==)>(h: seq<Event<B>>, n: nat, s: SessionId)
    requires n <= |h|
  {
    if n == 0 then false
    else if h[n - 1] == Added(s) then true
    else if h[n - 1] == Removed(s) then false
    else MemberAfter(h, n - 1, s)
  }

  // It was added before, and not removed since.
  lemma {:induction false} MemberAfterIff<B>(h: seq<Event<B>>, n: nat, s: SessionId)
    requires n <= |h|
    ensures MemberAfter(h, n, s) <==>
            exists i :: 0 <= i < n && h[i] == Added(s) && forall j :: i < j < n ==> h[j] != Removed(s)
  {
    if n > 0 {
      MemberAfterIff(h, n - 1, s);
      assert h[n - 1] == Added(s) || h[n - 1] == Removed(s) || (h[n - 1] != Added(s) && h[n - 1] != Removed(s));
    }
  }

  // The broadcasts among the first n events that were made while s was a
  // member, as positions in the history.
  function Positions<B(==)>(h: seq<Event<B>>, n: nat, s: SessionId): (ps: seq<nat>)
    requires n <= |h|
    ensures forall k :: 0 <= k < |ps| ==> ps[k] < n && h[ps[k]].Broadcasted?
  {
    if n == 0 then []
    else Positions(h, n - 1, s) + (if h[n - 1].Broadcasted? && MemberAfter(h, n - 1, s) then [n - 1] else [])
  }

  function Due<B(==)>(h: seq<Event<B>>, n: nat, s: SessionId): seq<B>
    requires n <= |h|
  {
    if n == 0 then []
    else Due(h, n - 1, s) + (if h[n - 1].Broadcasted? && MemberAfter(h, n - 1, s) then [h[n - 1].buf] else [])
  }

  lemma {:induction false} PositionsAscend<B>(h: seq<Event<B>>, n: nat, s: SessionId)
    requires n <= |h|
    ensures forall j, k :: 0 <= j < k < |Positions(h, n, s)| ==> Positions(h, n, s)[j] < Positions(h, n, s)[k]
  {
    if n > 0 { PositionsAscend(h, n - 1, s); }
  }

  lemma {:induction false} PositionsAreMembership<B>(h: seq<Event<B>>, n: nat, i: nat, s: SessionId)
    requires i < n <= |h|
    ensures i in Positions(h, n, s) <==> h[i].Broadcasted? && MemberAfter(h, i, s)
  {
    var before := Positions(h, n - 1, s);
    if i < n - 1 {
      PositionsAreMembership(h, n - 1, i, s);
    } else {
      assert i !in before;
    }
  }

  lemma {:induction false} DueAtPositions<B>(h: seq<Event<B>>, n: nat, s: SessionId)
    requires n <= |h|
    ensures |Due(h, n, s)| == |Positions(h, n, s)|
    ensures forall k :: 0 <= k < |Positions(h, n, s)| ==> Due(h, n, s)[k] == h[Positions(h, n, s)[k]].buf
  {
    if n > 0 { DueAtPositions(h, n - 1, s); }
  }

  // Positions lists exactly the broadcasts made while s was a member, once
  // each and in order, and Due lists their buffers.
  lemma DueIsMembership<B>(h: seq<Event<B>>, s: SessionId)
    ensures var ps := Positions(h, |h|, s);
            && (forall i :: 0 <= i < |h| ==> (i in ps <==> h[i].Broadcasted? && MemberAfter(h, i, s)))
            && (forall j, k :: 0 <= j < k < |ps| ==> ps[j] < ps[k])
            && |Due(h, |h|, s)| == |ps|
            && (forall k :: 0 <= k < |ps| ==> Due(h, |h|, s)[k] == h[ps[k]].buf)
  {
    forall i | 0 <= i < |h|
      ensures i in Positions(h, |h|, s) <==> h[i].Broadcasted? && MemberAfter(h, i, s)
    {
      PositionsAreMembership(h, |h|, i, s);
    }
    PositionsAscend(h, |h|, s);
    DueAtPositions(h, |h|, s);
  }

  lemma {:induction false} PrefixOnly<B>(h: seq<Event<B>>, e: Event<B>, n: nat, s: SessionId)
    requires n <= |h|
    ensures MemberAfter(h + [e], n, s) == MemberAfter(h, n, s)
    ensures Due(h + [e], n, s) == Due(h, n, s)
  {
    if n > 0 {
      assert (h + [e])[n - 1] == h[n - 1];
      PrefixOnly(h, e, n - 1, s);
    }
  }

  //////////////////////////////////////////////////////////////////////////
  // The invariant
  //////////////////////////////////////////////////////////////////////////

  // What the running broadcast has still to push to s.
  function StillToCome<B>(w: World<B>, s: SessionId): seq<B>
  {
    if w.holder.Some? && s in w.holder.value.remaining then [w.holder.value.buf] else []
  }

  // The invariant as one session sees it.
  ghost predicate InvFor<B(!new)>(w: World<B>, s: SessionId)
  {
    && Inv(w.Of(s))
    && (s in w.members <==> MemberAfter(w.history, |w.history|, s))
    && Due(w.history, |w.history|, s) == w.Of(s).sent + StillToCome(w, s)
  }

  ghost predicate WorldInv<B(!new)>(w: World<B>)
  {
    forall s: SessionId :: InvFor(w, s)
  }

  lemma HistoryGrows<B>(h: seq<Event<B>>, e: Event<B>, s: SessionId)
    ensures var h' := h + [e];
            && MemberAfter(h', |h'|, s) ==
               (if e == Added(s) then true else if e == Removed(s) then false else MemberAfter(h, |h|, s))
            && Due(h', |h'|, s) == Due(h, |h|, s) + (if e.Broadcasted? && MemberAfter(h, |h|, s) then [e.buf] else [])
  {
    PrefixOnly(h, e, |h|, s);
  }

  // What matters to session s in a step.
  lemma KeepsInvFor<B(!new)>(w: World<B>, w': World<B>, s: SessionId)
    requires InvFor(w, s) && Inv(w'.Of(s))
    requires s in w'.members <==> MemberAfter(w'.history, |w'.history|, s)
    requires Due(w'.history, |w'.history|, s) == w'.Of(s).sent + StillToCome(w', s)
    ensures InvFor(w', s)
  {
  }

  // An event recorded outside a broadcast: an Add, a Remove, or a broadcast
  // that has still everything to do.
  lemma EventKeepsInv<B(!new)>(w: World<B>, w': World<B>, e: Event<B>, s: SessionId)
    requires InvFor(w, s) && w.holder.None? && w'.Of(s) == w.Of(s) && w'.history == w.history + [e]
    requires s in w'.members <==> (if e == Added(s) then true else if e == Removed(s) then false else s in w.members)
    requires StillToCome(w', s) == if e.Broadcasted? && s in w.members then [e.buf] else []
    ensures InvFor(w', s)
  {
    HistoryGrows(w.history, e, s);
    assert w.Of(s).sent + [] == w.Of(s).sent;
    KeepsInvFor(w, w', s);
  }

  // The steps of the sessions: what they leave alone, and what session s sees.
  lemma SendEffect<B>(w: World<B>, t: SessionId, s: SessionId)
    requires Advance(w, SendTo(t)).Some?
    ensures var w' := Advance(w, SendTo(t)).value;
            && w'.members == w.members && w'.history == w.history
            && w.holder.Some? && Next(w.Of(t), Push(w.holder.value.buf)).Some?
            && w'.Of(s) == (if s == t then Next(w.Of(t), Push(w.holder.value.buf)).value else w.Of(s))
            && w'.Of(s).sent + StillToCome(w', s) == w.Of(s).sent + StillToCome(w, s)
  {
  }

  lemma LocalEffect<B>(w: World<B>, t: SessionId, a: Action<B>, s: SessionId)
    requires Advance(w, Local(t, a)).Some?
    ensures var w' := Advance(w, Local(t, a)).value;
            && w'.members == w.members && w'.history == w.history
            && !a.Push? && Next(w.Of(t), a).Some?
            && w'.Of(s) == (if s == t then Next(w.Of(t), a).value else w.Of(s))
            && StillToCome(w', s) == StillToCome(w, s)
  {
  }

  lemma SendKeepsInv<B(!new)>(w: World<B>, t: SessionId, s: SessionId)
    requires InvFor(w, s) && Advance(w, SendTo(t)).Some?
    ensures InvFor(Advance(w, SendTo(t)).value, s)
  {
    SendEffect(w, t, s);
    if s == t { PushKeepsInv(w.Of(s), w.holder.value.buf); }
    KeepsInvFor(w, Advance(w, SendTo(t)).value, s);
  }

  lemma LocalKeepsInv<B(!new)>(w: World<B>, t: SessionId, a: Action<B>, s: SessionId)
    requires InvFor(w, s) && Advance(w, Local(t, a)).Some?
    ensures InvFor(Advance(w, Local(t, a)).value, s)
  {
    LocalEffect(w, t, a, s);
    if s == t {
      StepKeepsInv(w.Of(s), a);
      OnlyPushSends(w.Of(s), a);
    }
    KeepsInvFor(w, Advance(w, Local(t, a)).value, s);
  }

  lemma AdvanceKeepsInv<B(!new)>(w: World<B>, step: Step<B>)
    requires WorldInv(w) && Advance(w, step).Some?
    ensures WorldInv(Advance(w, step).value)
  {
    var w' := Advance(w, step).value;
    forall s: SessionId
      ensures InvFor(w', s)
    {
      assert InvFor(w, s);
      match step
      case Add(t) => EventKeepsInv(w, w', Added(t), s);
      case Remove(t) => EventKeepsInv(w, w', Removed(t), s);
      case BeginBroadcast(b) => EventKeepsInv(w, w', Broadcasted(b), s);
      case SendTo(t) => SendKeepsInv(w, t, s);
      case EndBroadcast =>
      case Release(_) =>
      case Local(t, a) => LocalKeepsInv(w, t, a, s);
    }
  }

  lemma {:induction false} RunKeepsInv<B(!new)>(w: World<B>, steps: seq<Step<B>>)
    requires WorldInv(w) && Run(w, steps).Some?
    ensures WorldInv(Run(w, steps).value)
    decreases |steps|
  {
    if steps != [] {
      AdvanceKeepsInv(w, steps[0]);
      RunKeepsInv(Advance(w, steps[0]).value, steps[1..]);
    }
  }

  lemma NewWorldInv<B(!new)>()
    ensures WorldInv(NewWorld<B>())
  {
    forall s: SessionId
      ensures InvFor(NewWorld<B>(), s)
    {
      NewSessionInv<B>();
    }
  }

  //////////////////////////////////////////////////////////////////////////
  // Histories
  //////////////////////////////////////////////////////////////////////////

  ghost predicate Reachable<B(!new)>(w: World<B>) { exists steps :: Run(NewWorld<B>(), steps) == Some(w) }

  lemma ReachableInv<B(!new)>(w: World<B>)
    requires Reachable(w)
    ensures WorldInv(w)
  {
    var steps :| Run(NewWorld<B>(), steps) == Some(w);
    NewWorldInv<B>();
    RunKeepsInv(NewWorld<B>(), steps);
  }

  // Over every interleaving, a session has been sent exactly the broadcasts
  // made while it was a member, in the order of the mutex and once each; at
  // most the running one is still to come.
  lemma BroadcastHistories<B(!new)>(w: World<B>, s: SessionId)
    requires Reachable(w)
    ensures Due(w.history, |w.history|, s) == w.Of(s).sent + StillToCome(w, s)
    ensures w.holder.None? ==> w.Of(s).sent == Due(w.history, |w.history|, s)
  {
    ReachableInv(w);
    assert InvFor(w, s);
    assert w.Of(s).sent + [] == w.Of(s).sent;
  }

  // Any two sessions have been sent the broadcasts they have in common in the
  // same order: entry i of one log and k of the other come from one broadcast,
  // j and l from another, and the pairs are ordered alike.
  lemma CommonBroadcastsInOrder<B(!new)>(w: World<B>, s: SessionId, t: SessionId, i: nat, j: nat, k: nat, l: nat)
    requires Reachable(w)
    requires i < |w.Of(s).sent| && j < |w.Of(s).sent| && k < |w.Of(t).sent| && l < |w.Of(t).sent|
    ensures |w.Of(s).sent| <= |Positions(w.history, |w.history|, s)|
    ensures |w.Of(t).sent| <= |Positions(w.history, |w.history|, t)|
    ensures var ps, qs := Positions(w.history, |w.history|, s), Positions(w.history, |w.history|, t);
            ps[i] == qs[k] && ps[j] == qs[l] ==> w.Of(s).sent[i] == w.Of(t).sent[k] && (i < j <==> k < l)
  {
    var h := w.history;
    var ps, qs := Positions(h, |h|, s), Positions(h, |h|, t);
    BroadcastHistories(w, s);
    BroadcastHistories(w, t);
    PositionsAscend(h, |h|, s);
    PositionsAscend(h, |h|, t);
    DueAtPositions(h, |h|, s);
    DueAtPositions(h, |h|, t);
    assert Due(h, |h|, s)[i] == w.Of(s).sent[i] && Due(h, |h|, t)[k] == w.Of(t).sent[k];
    assert i < j ==> ps[i] < ps[j];
    assert j < i ==> ps[j] < ps[i];
    assert k < l ==> qs[k] < qs[l];
    assert l < k ==> qs[l] < qs[k];
  }

  // Down to the socket: an idle session outside a broadcast got everything it
  // was due, intact and in order, exactly when no WSASend was refused, came
  // back empty or was cut short, no buffer waits behind a stranded thread, and
  // every buffer survived its pop.
  lemma SocketHistories<B(!new)>(w: World<B>, s: SessionId)
    requires Reachable(w) && w.holder.None? && w.Of(s).holders == []
    ensures Reached(w.Of(s).batches) == Intactly(Due(w.history, |w.history|, s)) <==>
            NeverFailed(w.Of(s).batches) && !Stuck(w.Of(s)) && AllIntact(Handed(w.Of(s).batches))
  {
    ReachableInv(w);
    assert InvFor(w, s);
    BroadcastHistories(w, s);
    QuiescentDeliversIff(w.Of(s));
  }

  // At any time, a prefix of it.
  lemma SocketPrefix<B(!new)>(w: World<B>, s: SessionId)
    requires Reachable(w)
    requires NeverFailed(w.Of(s).batches) && AllIntact(Handed(w.Of(s).batches))
    ensures Reached(w.Of(s).batches) <= Intactly(Due(w.history, |w.history|, s))
  {
    ReachableInv(w);
    assert InvFor(w, s);
    BroadcastHistories(w, s);
    ReachedIsPrefix(w.Of(s));
    var sent, due := w.Of(s).sent, Due(w.history, |w.history|, s);
    assert due[..|sent|] == sent;
    assert Intactly(due)[..|sent|] == Intactly(sent);
  }

  //////////////////////////////////////////////////////////////////////////
  // Keeping buffers alive
  //////////////////////////////////////////////////////////////////////////

  // A caller lets go of a buffer only while it is in no session's queue.
  ghost predicate Careful<B(!new)>(w: World<B>, step: Step<B>)
  {
    step.Release? ==> forall s: SessionId :: step.buf !in w.Of(s).queue
  }

  ghost predicate CarefulRun<B(!new)>(w: World<B>, steps: seq<Step<B>>)
    decreases |steps|
  {
    if steps == [] then true
    else Careful(w, steps[0]) && Advance(w, steps[0]).Some? && CarefulRun(Advance(w, steps[0]).value, steps[1..])
  }

  ghost predicate KeptFor<B(!new)>(w: World<B>, s: SessionId)
  {
    && (forall b <- w.Of(s).queue :: b in w.held)
    && AllIntact(w.Of(s).inFlight) && AllIntact(Handed(w.Of(s).batches))
  }

  ghost predicate KeptInv<B(!new)>(w: World<B>)
  {
    && (w.holder.Some? ==> w.holder.value.buf in w.held)
    && forall s: SessionId :: KeptFor(w, s)
  }

  lemma BatchesKeepIntact<B>(s: Session<B>, a: Action<B>)
    requires Next(s, a).Some? && AllIntact(s.inFlight) && AllIntact(Handed(s.batches))
    ensures AllIntact(Handed(Next(s, a).value.batches))
  {
    HandedGrows(s, a);
  }

  lemma EventKeepsIntact<B>(s: Session<B>, a: Action<B>)
    requires Next(s, a).Some? && AllIntact(s.inFlight) && (a.Pop? ==> a.elsewhere)
    ensures AllIntact(Next(s, a).value.inFlight)
    ensures !a.Push? ==> forall b <- Next(s, a).value.queue :: b in s.queue
  {
    if a.Pop? {
      var s' := Next(s, a).value;
      assert s'.inFlight == s.inFlight + [Slot(s.queue[0], true)] && s'.queue == s.queue[1..];
    } else {
      assert Next(s, a).value.inFlight == s.inFlight || Next(s, a).value.inFlight == [];
    }
  }

  lemma CarefulKeeps<B(!new)>(w: World<B>, step: Step<B>)
    requires KeptInv(w) && Careful(w, step) && Advance(w, step).Some?
    ensures KeptInv(Advance(w, step).value)
  {
    var w' := Advance(w, step).value;
    forall s: SessionId
      ensures KeptFor(w', s)
    {
      assert KeptFor(w, s);
      match step
      case SendTo(t) =>
      case Local(t, a) =>
        if s == t {
          BatchesKeepIntact(w.Of(t), a);
          EventKeepsIntact(w.Of(t), a);
        }
      case _ =>
    }
  }

  lemma {:induction false} CarefulRunKeeps<B(!new)>(w: World<B>, steps: seq<Step<B>>)
    requires KeptInv(w) && CarefulRun(w, steps)
    ensures Run(w, steps).Some? && KeptInv(Run(w, steps).value)
    decreases |steps|
  {
    if steps != [] {
      CarefulKeeps(w, steps[0]);
      CarefulRunKeeps(Advance(w, steps[0]).value, steps[1..]);
    }
  }

  // With careful callers every buffer survives its pop, in every session.
  lemma CarefulCallersKeepBuffers<B(!new)>(steps: seq<Step<B>>, s: SessionId)
    requires CarefulRun(NewWorld<B>(), steps)
    ensures Run(NewWorld<B>(), steps).Some?
    ensures AllIntact(Handed(Run(NewWorld<B>(), steps).value.Of(s).batches))
  {
    CarefulRunKeeps(NewWorld<B>(), steps);
    assert KeptFor(Run(NewWorld<B>(), steps).value, s);
  }

  lemma {:induction false} RunThen<B>(w: World<B>, steps: seq<Step<B>>, step: Step<B>)
    requires Run(w, steps).Some?
    ensures Run(w, steps + [step]) == Advance(Run(w, steps).value, step)
    decreases |steps|
  {
    var all := steps + [step];
    if steps == [] {
      assert all[0] == step && all[1..] == [];
    } else {
      assert all[0] == steps[0] && all[1..] == steps[1..] + [step];
      RunThen(Advance(w, steps[0]).value, steps[1..], step);
    }
  }

  // One more step of a world with the single session 0.
  lemma ReachNext<B(!new)>(w: World<B>, step: Step<B>, next: World<B>)
    requires Reachable(w) && Advance(w, step) == Some(next)
    ensures Reachable(next)
  {
    var steps :| Run(NewWorld<B>(), steps) == Some(w);
    RunThen(NewWorld<B>(), steps, step);
  }

  function Lone<B>(s: Session<B>, holder: Option<Sending<B>>, held: set<B>, history: seq<Event<B>>): World<B>
  {
    World({0}, holder, held, map[0 := s], history)
  }

  // A step of the session itself, outside a broadcast or while the thread of
  // a broadcast is draining it.
  lemma ReachLocal<B(!new)>(w: World<B>, s: Session<B>, a: Action<B>, s': Session<B>)
    requires Reachable(w) && w == Lone(s, w.holder, w.held, w.history)
    requires Next(s, a) == Some(s') && !a.Push? && (a.Pop? ==> a.elsewhere == (s.queue[0] in w.held))
    ensures Reachable(Lone(s', HolderAfter(w, 0, a), w.held, w.history))
  {
    assert map[0 := s][0 := s'] == map[0 := s'];
    ReachNext(w, Local(0, a), Lone(s', HolderAfter(w, 0, a), w.held, w.history));
  }

  // The session holding the right to drain pops its only buffer.
  lemma PopOne<B(!new)>(w: World<B>, b: B, sent: seq<B>, batches: seq<Batch<B>>)
    requires Reachable(w)
    requires w == Lone(Session(true, [b], true, [], [Claimed], false, sent, batches), w.holder, w.held, w.history)
    ensures Reachable(Lone(Session(true, [], true, [Slot(b, b in w.held)], [Draining], false, sent, batches),
                           w.holder, w.held, w.history))
  {
    Singleton(Claimed, Checked);
    Singleton(Checked, Draining);
    Singleton(b, b);
    var s0 := Session(true, [b], true, [], [Claimed], false, sent, batches);
    var s1, s2 := s0.(holders := [Checked]), s0.(holders := [Draining]);
    var s3 := s2.(queue := [], inFlight := [Slot(b, b in w.held)]);
    ReachLocal(w, s0, Check(0), s1);
    ReachLocal(Lone(s1, w.holder, w.held, w.history), s1, Lock(0), s2);
    assert [] + [Slot(b, b in w.held)] == [Slot(b, b in w.held)];
    ReachLocal(Lone(s2, w.holder, w.held, w.history), s2, Pop(0, b in w.held), s3);
  }

  // And posts it.
  lemma DrainOne<B(!new)>(w: World<B>, b: B, sent: seq<B>, batches: seq<Batch<B>>)
    requires Reachable(w)
    requires w == Lone(Session(true, [b], true, [], [Claimed], false, sent, batches), w.holder, w.held, w.history)
    ensures var slot := Slot(b, b in w.held);
            Reachable(Lone(Session(true, [], true, [slot], [Posted], false, sent, batches + [Batch([slot], OnItsWay)]),
                           HolderAfter(w, 0, Post(0, true)), w.held, w.history))
  {
    var slot := Slot(b, b in w.held);
    Singleton(Draining, Drained);
    Singleton(Drained, Posted);
    var s3 := Session(true, [], true, [slot], [Draining], false, sent, batches);
    var s4 := s3.(holders := [Drained]);
    PopOne(w, b, sent, batches);
    ReachLocal(Lone(s3, w.holder, w.held, w.history), s3, Unlock(0), s4);
    ReachLocal(Lone(s4, w.holder, w.held, w.history), s4, Post(0, true),
               s4.(holders := [Posted], batches := batches + [Batch([slot], OnItsWay)]));
  }

  // A connected member to which nothing was sent yet.
  lemma ConnectedMember<B(!new)>()
    ensures Reachable(Lone<B>(Session(true, [], false, [], [], false, [], []), None, {}, [Added(0)]))
  {
    var w0 := NewWorld<B>();
    assert Run(w0, []) == Some(w0);
    var w1: World<B> := World({0}, None, {}, map[], [Added(0)]);
    assert w0.history + [Added(0)] == w1.history && {} + {0} == {0};
    ReachNext(w0, Add(0), w1);
    ReachNext(w1, Local(0, SetConnected(true)),
              Lone(Session(true, [], false, [], [], false, [], []), None, {}, [Added(0)]));
  }

  // A broadcast of b up to the push, and from the end of its loop up to the
  // caller letting go.
  lemma BeginOne<B(!new)>(s: Session<B>, b: B, history: seq<Event<B>>)
    requires Reachable(Lone(s, None, {}, history)) && Draining !in s.holders
    ensures Reachable(Lone(Next(s, Push(b)).value,
                           Some(Sending(b, {}, if s.registered then None else Some(0))), {b},
                           history + [Broadcasted(b)]))
  {
    var h := history + [Broadcasted(b)];
    var began := Lone(s, Some(Sending(b, {0}, None)), {b}, h);
    assert {} + {b} == {b};
    ReachNext(Lone(s, None, {}, history), BeginBroadcast(b), began);
    var pushed := Next(s, Push(b)).value;
    assert map[0 := s][0 := pushed] == map[0 := pushed] && {0} - {0} == {};
    ReachNext(began, SendTo(0), Lone(pushed, Some(Sending(b, {}, if s.registered then None else Some(0))), {b}, h));
  }

  lemma EndOne<B(!new)>(s: Session<B>, b: B, history: seq<Event<B>>)
    requires Reachable(Lone(s, Some(Sending(b, {}, None)), {b}, history))
    ensures Reachable(Lone(s, None, {}, history))
  {
    ReachNext(Lone(s, Some(Sending(b, {}, None)), {b}, history), EndBroadcast, Lone(s, None, {b}, history));
    assert {b} - {b} == {};
    ReachNext(Lone(s, None, {b}, history), Release(b), Lone(s, None, {}, history));
  }

  // A WSASend of one buffer.
  function One<B>(b: B, intact: bool, outcome: Outcome): Batch<B> { Batch([Slot(b, intact)], outcome) }

  // The caller broadcasts a to the idle session and lets go.
  lemma FirstOnItsWay<B(!new)>(a: B)
    ensures Reachable(Lone(Session(true, [], true, [Slot(a, true)], [Posted], false, [a], [One(a, true, OnItsWay)]),
                           None, {}, [Added(0), Broadcasted(a)]))
  {
    var first, h := One(a, true, OnItsWay), [Added(0), Broadcasted(a)];
    ConnectedMember<B>();
    BeginOne(Session(true, [], false, [], [], false, [], []), a, [Added(0)]);
    Singleton(a, a);
    Singleton(Claimed, Claimed);
    Singleton(first, first);
    assert [Added(0)] + [Broadcasted(a)] == h;
    var pushed := Session(true, [a], true, [], [Claimed], false, [a], []);
    DrainOne(Lone(pushed, Some(Sending(a, {}, Some(0))), {a}, h), a, [a], []);
    EndOne(Session(true, [], true, [Slot(a, true)], [Posted], false, [a], [first]), a, h);
  }

  // The only WSASend of an idle session completes.
  lemma LastCompletes<B(!new)>(s: Session<B>, transfer: Transfer, before: seq<Batch<B>>, last: Batch<B>,
                               h: seq<Event<B>>)
    requires Reachable(Lone(s, None, {}, h)) && s.connected && s.queue == [] && s.holders == [Posted] && !s.stranded
    requires s.batches == before + [last] && transfer != Nothing
    ensures Reachable(Lone(Session(true, [], false, [], [], false, s.sent, before + [last.(outcome := Done(transfer))]),
                           None, {}, h))
  {
    Singleton(Posted, Completed);
    Singleton(Completed, Completed);
    assert Settle(s.batches, transfer) == before + [last.(outcome := Done(transfer))];
    var s1 := s.(inFlight := [], holders := [Completed], batches := Settle(s.batches, transfer));
    ReachLocal(Lone(s, None, {}, h), s, Complete(0, transfer), s1);
    ReachLocal(Lone(s1, None, {}, h), s1, Finish(0), s1.(registered := false, holders := []));
  }

  // Its WSASend completes without transferring anything.
  lemma NothingTransferred<B(!new)>(a: B)
    ensures Reachable(Lone(Session(false, [], true, [], [], true, [a], [One(a, true, Done(Nothing))]),
                           None, {}, [Added(0), Broadcasted(a)]))
  {
    var h := [Added(0), Broadcasted(a)];
    var s := Session(true, [], true, [Slot(a, true)], [Posted], false, [a], [One(a, true, OnItsWay)]);
    FirstOnItsWay(a);
    OneBatch(One(a, true, OnItsWay), Nothing);
    CompleteNext(s, Nothing);
    ReachLocal(Lone(s, None, {}, h), s, Complete(0, Nothing), Next(s, Complete(0, Nothing)).value);
  }

  // Or it completes with something.
  lemma SomethingTransferred<B(!new)>(a: B, transfer: Transfer)
    requires transfer != Nothing
    ensures Reachable(Lone(Session(true, [], false, [], [], false, [a], [One(a, true, Done(transfer))]),
                           None, {}, [Added(0), Broadcasted(a)]))
  {
    var first, none := One(a, true, OnItsWay), [];
    FirstOnItsWay(a);
    assert none + [first] == [first] && none + [One(a, true, Done(transfer))] == [One(a, true, Done(transfer))];
    LastCompletes(Session(true, [], true, [Slot(a, true)], [Posted], false, [a], [first]),
                  transfer, none, first, [Added(0), Broadcasted(a)]);
  }

  // A broadcast whose WSASend transfers nothing, or only a part: the session
  // is idle, not stuck, nothing was refused and the buffer was alive, but what
  // was due is not on the socket.
  lemma IncompleteBroadcast<B(!new)>(a: B, transfer: Transfer) returns (w: World<B>)
    requires transfer != Everything
    ensures Reachable(w) && w.holder.None? && w.history == [Added(0), Broadcasted(a)]
    ensures w.Of(0).holders == [] && !Stuck(w.Of(0)) && w.Of(0).sent == [a]
    ensures w.Of(0).batches == [One(a, true, Done(transfer))] && Reached(w.Of(0).batches) == []
  {
    var nothing, settled := transfer.Nothing?, One(a, true, Done(transfer));
    if nothing { NothingTransferred(a); } else { SomethingTransferred(a, transfer); }
    OneBatch(settled, transfer);
    w := Lone(Session(!nothing, [], nothing, [], [], nothing, [a], [settled]), None, {}, [Added(0), Broadcasted(a)]);
  }

  // It broadcasts b while a is on its way, and lets go again: b waits in the
  // queue and nobody else has it.
  lemma WaitingAlone<B(!new)>(a: B, b: B)
    ensures Reachable(Lone(Session(true, [b], true, [Slot(a, true)], [Posted], false, [a, b], [One(a, true, OnItsWay)]),
                           None, {}, [Added(0), Broadcasted(a), Broadcasted(b)]))
  {
    var first, h := One(a, true, OnItsWay), [Added(0), Broadcasted(a), Broadcasted(b)];
    FirstOnItsWay(a);
    BeginOne(Session(true, [], true, [Slot(a, true)], [Posted], false, [a], [first]), b, [Added(0), Broadcasted(a)]);
    Singleton(b, b);
    assert [a] + [b] == [a, b];
    assert [Added(0), Broadcasted(a)] + [Broadcasted(b)] == h;
    EndOne(Session(true, [b], true, [Slot(a, true)], [Posted], false, [a, b], [first]), b, h);
  }

  // a's completion goes round again.
  lemma NextRound<B(!new)>(a: B, b: B)
    ensures Reachable(Lone(Session(true, [b], true, [], [Claimed], false, [a, b], [One(a, true, Done(Everything))]),
                           None, {}, [Added(0), Broadcasted(a), Broadcasted(b)]))
  {
    var h := [Added(0), Broadcasted(a), Broadcasted(b)];
    var s1 := Session(true, [b], true, [Slot(a, true)], [Posted], false, [a, b], [One(a, true, OnItsWay)]);
    var s2 := s1.(inFlight := [], holders := [Completed], batches := [One(a, true, Done(Everything))]);
    WaitingAlone(a, b);
    OneBatch(One(a, true, OnItsWay), Everything);
    CompleteNext(s1, Everything);
    Singleton(Completed, Claimed);
    ReachLocal(Lone(s1, None, {}, h), s1, Complete(0, Everything), s2);
    ReachLocal(Lone(s2, None, {}, h), s2, Finish(0), s2.(holders := [Claimed]));
  }

  // When it drains the queue, b is gone before it is copied, although every
  // WSASend completes in full and nobody is stuck.
  lemma BufferFreedByPop<B(!new)>(a: B, b: B) returns (w: World<B>)
    ensures Reachable(w) && w.holder.None? && w.history == [Added(0), Broadcasted(a), Broadcasted(b)]
    ensures w.Of(0).holders == [] && !Stuck(w.Of(0)) && w.Of(0).sent == [a, b] && NeverFailed(w.Of(0).batches)
    ensures Handed(w.Of(0).batches) == [Slot(a, true), Slot(b, false)]
  {
    var first, second := One(a, true, Done(Everything)), One(b, false, OnItsWay);
    var h := [Added(0), Broadcasted(a), Broadcasted(b)];
    NextRound(a, b);
    DrainOne(Lone(Session(true, [b], true, [], [Claimed], false, [a, b], [first]), None, {}, h), b, [a, b], [first]);
    var s := Session(true, [], true, [Slot(b, false)], [Posted], false, [a, b], [first] + [second]);
    LastCompletes(s, Everything, [first], second, h);
    var arrived := One(b, false, Done(Everything));
    assert [first] + [arrived] == [first, arrived];
    w := Lone(Session(true, [], false, [], [], false, [a, b], [first, arrived]), None, {}, h);
    HandedTwo(first, arrived);
  }

  lemma HandedTwo<B>(x: Batch<B>, y: Batch<B>)
    ensures Handed([x, y]) == x.slots + y.slots
  {
    HandedNext([], x);
    HandedNext([x], y);
    assert [] + [x] == [x] && [x] + [y] == [x, y] && [] + x.slots == x.slots;
  }

  //////////////////////////////////////////////////////////////////////////
  // One Send of a broadcast, run to its end
  //////////////////////////////////////////////////////////////////////////

  lemma {:induction false} RunThenRun<B>(w: World<B>, steps: seq<Step<B>>, more: seq<Step<B>>)
    requires Run(w, steps).Some?
    ensures Run(w, steps + more) == Run(Run(w, steps).value, more)
    decreases |steps|
  {
    var all := steps + more;
    if steps == [] {
      assert all == more;
    } else {
      assert all[0] == steps[0] && all[1..] == steps[1..] + more;
      RunThenRun(Advance(w, steps[0]).value, steps[1..], more);
    }
  }

  function Locals<B>(s: SessionId, actions: seq<Action<B>>): (steps: seq<Step<B>>)
    ensures |steps| == |actions|
  {
    seq(|actions|, i requires 0 <= i < |actions| => Local(s, actions[i]))
  }

  function With<B>(w: World<B>, s: SessionId, state: Session<B>): World<B>
  {
    w.(sessions := w.sessions[s := state])
  }

  // elsewhere holds exactly those buffers of bs that have another owner than s.
  ghost predicate Elsewhere<B>(w: World<B>, s: SessionId, bs: seq<B>, elsewhere: set<B>)
  {
    forall b <- bs :: b in elsewhere <==> OwnedElsewhere(w, s, b)
  }

  lemma WithKeepsOwners<B>(w: World<B>, s: SessionId, x: Session<B>, bs: seq<B>, elsewhere: set<B>)
    requires Elsewhere(w, s, bs, elsewhere)
    ensures Elsewhere(With(w, s, x), s, bs, elsewhere)
  {
    forall b <- bs
      ensures OwnedElsewhere(With(w, s, x), s, b) <==> OwnedElsewhere(w, s, b)
    {
      var w' := With(w, s, x);
      assert forall t <- w.sessions.Keys :: t != s ==> t in w'.sessions.Keys && w'.sessions[t] == w.sessions[t];
    }
  }

  lemma WithTwice<B>(w: World<B>, s: SessionId, x: Session<B>, y: Session<B>)
    ensures With(With(w, s, x), s, y) == With(w, s, y) && With(w, s, x).Of(s) == x
  {
    assert w.sessions[s := x][s := y] == w.sessions[s := y];
  }

  lemma {:induction false} PopsLocal<B>(w: World<B>, s: SessionId, elsewhere: set<B>)
    requires s in w.sessions && w.Of(s).holders == [Draining] && Elsewhere(w, s, w.Of(s).queue, elsewhere)
    ensures SendQueue.Run(w.Of(s), Pops(w.Of(s).queue, elsewhere)).Some?
    ensures Run(w, Locals(s, Pops(w.Of(s).queue, elsewhere)))
         == Some(With(w, s, SendQueue.Run(w.Of(s), Pops(w.Of(s).queue, elsewhere)).value))
    decreases |w.Of(s).queue|
  {
    var x := w.Of(s);
    var pops := Pops(x.queue, elsewhere);
    PopsRun(x, elsewhere);
    if x.queue == [] {
      assert w.sessions[s := x] == w.sessions;
    } else {
      var y := Next(x, pops[0]).value;
      var w' := With(w, s, y);
      WithTwice(w, s, y, y);
      WithKeepsOwners(w, s, y, x.queue, elsewhere);
      assert Advance(w, Local(s, pops[0])) == Some(w');
      assert pops[1..] == Pops(y.queue, elsewhere) && Locals(s, pops)[1..] == Locals(s, pops[1..]);
      PopsLocal(w', s, elsewhere);
      WithTwice(w, s, y, SendQueue.Run(y, pops[1..]).value);
    }
  }

  // One more step of s itself that is neither a push, nor a pop, nor the end
  // of a drain.
  lemma ThenLocal<B>(w: World<B>, s: SessionId, actions: seq<Action<B>>, x: Session<B>, a: Action<B>)
    requires Run(w, Locals(s, actions)) == Some(With(w, s, x)) && Next(x, a).Some?
    requires a.Lock? || a.Unlock? || (a.Check? && x.connected)
    ensures Run(w, Locals(s, actions + [a])) == Some(With(w, s, Next(x, a).value))
  {
    WithTwice(w, s, x, Next(x, a).value);
    RunThen(w, Locals(s, actions), Local(s, a));
    assert Locals(s, actions) + [Local(s, a)] == Locals(s, actions + [a]);
  }

  lemma LockLocal<B>(w: World<B>, s: SessionId)
    requires s in w.sessions && w.Of(s).connected && w.Of(s).holders == [Claimed]
    ensures Run(w, Locals(s, [Check(0), Lock(0)])) == Some(With(w, s, w.Of(s).(holders := [Draining])))
  {
    var x := w.Of(s);
    Singleton(Claimed, Checked);
    Singleton(Checked, Draining);
    assert w.sessions[s := x] == w.sessions;
    var none: seq<Action<B>> := [];
    ThenLocal(w, s, none, x, Check(0));
    ThenLocal(w, s, none + [Check(0)], x.(holders := [Checked]), Lock(0));
    assert none + [Check(0)] + [Lock(0)] == [Check(0), Lock(0)];
  }

  lemma LocalsConcat<B>(s: SessionId, a: seq<Action<B>>, b: seq<Action<B>>)
    ensures Locals(s, a) + Locals(s, b) == Locals(s, a + b)
  {
  }

  lemma PopsAfterLock<B>(w: World<B>, s: SessionId, elsewhere: set<B>)
    requires s in w.sessions && w.Of(s).connected && w.Of(s).holders == [Claimed]
    requires Elsewhere(w, s, w.Of(s).queue, elsewhere)
    ensures var x := w.Of(s);
            Run(w, Locals(s, [Check(0), Lock(0)] + Pops(x.queue, elsewhere))) ==
            Some(With(w, s, x.(holders := [Draining], queue := [], inFlight := PopAll(x.queue, x.inFlight, elsewhere))))
  {
    var x := w.Of(s);
    var locked, pops := x.(holders := [Draining]), Pops(x.queue, elsewhere);
    LockLocal(w, s);
    WithTwice(w, s, locked, locked.(queue := [], inFlight := PopAll(x.queue, x.inFlight, elsewhere)));
    WithKeepsOwners(w, s, locked, x.queue, elsewhere);
    PopsRun(locked, elsewhere);
    PopsLocal(With(w, s, locked), s, elsewhere);
    RunThenRun(w, Locals(s, [Check(0), Lock(0)]), Locals(s, pops));
    LocalsConcat(s, [Check(0), Lock(0)], pops);
  }

  lemma DrainLocal<B>(w: World<B>, s: SessionId, elsewhere: set<B>)
    requires s in w.sessions && w.Of(s).connected && w.Of(s).holders == [Claimed]
    requires Elsewhere(w, s, w.Of(s).queue, elsewhere)
    ensures var x := w.Of(s);
            Run(w, Locals(s, [Check(0), Lock(0)] + Pops(x.queue, elsewhere) + [Unlock(0)])) ==
            Some(With(w, s, x.(holders := [Drained], queue := [], inFlight := PopAll(x.queue, x.inFlight, elsewhere))))
  {
    var x := w.Of(s);
    PopsAfterLock(w, s, elsewhere);
    Singleton(Draining, Drained);
    ThenLocal(w, s, [Check(0), Lock(0)] + Pops(x.queue, elsewhere),
              x.(holders := [Draining], queue := [], inFlight := PopAll(x.queue, x.inFlight, elsewhere)), Unlock(0));
  }

  // The state after RegisterSend, which comes back to the broadcast that
  // called it.
  lemma RegisteringLocal<B>(w: World<B>, s: SessionId, elsewhere: set<B>, accepted: bool, x': Session<B>)
    requires w.holder.Some? && w.holder.value.busy == Some(s)
    requires s in w.sessions && w.Of(s).holders == [Claimed] && Elsewhere(w, s, w.Of(s).queue, elsewhere)
    requires SendQueue.Run(w.Of(s), Registering(w.Of(s), elsewhere, accepted)) == Some(x')
    ensures Run(w, Locals(s, Registering(w.Of(s), elsewhere, accepted))) ==
            Some(With(w, s, x').(holder := Some(w.holder.value.(busy := None))))
  {
    var x := w.Of(s);
    var actions := Registering(x, elsewhere, accepted);
    if x.connected {
      var drain := [Check(0), Lock(0)] + Pops(x.queue, elsewhere) + [Unlock(0)];
      var drained := x.(holders := [Drained], queue := [], inFlight := PopAll(x.queue, x.inFlight, elsewhere));
      DrainLocal(w, s, elsewhere);
      DrainFromClaimed(x, elsewhere);
      assert drain + [Post(0, accepted)] == actions;
      SendQueue.RunThen(x, drain, Post(0, accepted));
      WithTwice(w, s, drained, x');
      RunThen(w, Locals(s, drain), Local(s, Post(0, accepted)));
      assert Locals(s, drain) + [Local(s, Post(0, accepted))] == Locals(s, actions);
    } else {
      SendQueue.RunOne(x, Check(0));
      RunThen(w, [], Local(s, Check(0)));
      assert [] + [Local(s, Check(0))] == Locals(s, actions);
    }
  }

  // The Send of a broadcast to s, run without interruption.
  lemma SendLocal<B>(w: World<B>, s: SessionId, elsewhere: set<B>, accepted: bool,
                                              actions: seq<Action<B>>, x': Session<B>)
    requires w.holder.Some? && w.holder.value.busy.None? && s in w.holder.value.remaining
    requires Inv(w.Of(s)) && w.Of(s).holders != [Draining]
    requires var pushed := w.Of(s).queue + [w.holder.value.buf]; Elsewhere(w, s, pushed, elsewhere)
    requires var pushed := Next(w.Of(s), Push(w.holder.value.buf)).value;
             && actions == (if w.Of(s).registered then [] else Registering(pushed, elsewhere, accepted))
             && SendQueue.Run(pushed, actions) == Some(x')
    ensures Run(w, [SendTo(s)] + Locals(s, actions)) ==
            Some(With(w, s, x').(holder := Some(w.holder.value.(remaining := w.holder.value.remaining - {s}))))
  {
    var x, b := w.Of(s), w.holder.value.buf;
    var pushed := Next(x, Push(b)).value;
    var w' := Advance(w, SendTo(s)).value;
    var one: seq<Step<B>> := [SendTo(s)];
    RunThen(w, [], SendTo(s));
    assert [] + one == one;
    RunThenRun(w, [SendTo(s)], Locals(s, actions));
    WithTwice(w, s, pushed, x');
    if !x.registered {
      Singleton(Claimed, Claimed);
      WithKeepsOwners(w, s, pushed, pushed.queue, elsewhere);
      assert Elsewhere(w', s, pushed.queue, elsewhere);
      RegisteringLocal(w', s, elsewhere, accepted, x');
    }
  }

  //////////////////////////////////////////////////////////////////////////
  // Two sessions that share a buffer
  //////////////////////////////////////////////////////////////////////////

  function Pair<B>(x: Session<B>, y: Session<B>, holder: Option<Sending<B>>, held: set<B>, h: seq<Event<B>>): World<B>
  {
    World({0, 1}, holder, held, map[0 := x, 1 := y], h)
  }

  lemma PairWith<B>(x: Session<B>, y: Session<B>, holder: Option<Sending<B>>, held: set<B>, h: seq<Event<B>>,
                    z: Session<B>)
    ensures With(Pair(x, y, holder, held, h), 0, z) == Pair(z, y, holder, held, h)
    ensures With(Pair(x, y, holder, held, h), 1, z) == Pair(x, z, holder, held, h)
  {
    assert map[0 := x, 1 := y][0 := z] == map[0 := z, 1 := y];
    assert map[0 := x, 1 := y][1 := z] == map[0 := x, 1 := z];
  }

  lemma ReachRun<B(!new)>(w: World<B>, steps: seq<Step<B>>, next: World<B>)
    requires Reachable(w) && Run(w, steps) == Some(next)
    ensures Reachable(next)
  {
    var before :| Run(NewWorld<B>(), before) == Some(w);
    RunThenRun(NewWorld<B>(), before, steps);
  }

  function Connected<B>(): Session<B> { Session(true, [], false, [], [], false, [], []) }

  lemma BothConnected<B(!new)>()
    ensures Reachable(Pair<B>(Connected(), Connected(), None, {}, [Added(0), Added(1)]))
  {
    var w1: World<B> := Lone(Connected(), None, {}, [Added(0)]);
    ConnectedMember<B>();
    assert {0} + {1} == {0, 1} && w1.history + [Added(1)] == [Added(0), Added(1)];
    var w2 := w1.(members := {0, 1}, history := [Added(0), Added(1)]);
    ReachNext(w1, Add(1), w2);
    assert w1.sessions[1 := Connected()] == map[0 := Connected(), 1 := Connected()];
    ReachNext(w2, Local(1, SetConnected(true)), Pair(Connected(), Connected(), None, {}, [Added(0), Added(1)]));
  }

  // The state after a Send of b to a session with nothing queued, whose caller
  // has the buffer and whose WSASend is accepted.
  predicate Sends<B(==)>(x: Session<B>, b: B, y: Session<B>)
  {
    && x.queue == [] && Draining !in x.holders && Next(x, Push(b)).Some?
    && var pushed := Next(x, Push(b)).value;
       SendQueue.Run(pushed, if x.registered then [] else Registering(pushed, {b}, true)) == Some(y)
  }

  lemma SendStep<B(!new)>(w: World<B>, s: SessionId, y: Session<B>)
    requires Reachable(w) && w.holder.Some? && w.holder.value.busy.None? && s in w.holder.value.remaining
    requires w.holder.value.buf in w.held && Inv(w.Of(s)) && Sends(w.Of(s), w.holder.value.buf, y)
    ensures Reachable(With(w, s, y).(holder := Some(w.holder.value.(remaining := w.holder.value.remaining - {s}))))
  {
    var b, x := w.holder.value.buf, w.Of(s);
    var pushed := Next(x, Push(b)).value;
    var actions := if x.registered then [] else Registering(pushed, {b}, true);
    assert x.queue + [b] == [b];
    SendLocal(w, s, {b}, true, actions, y);
    ReachRun(w, [SendTo(s)] + Locals(s, actions),
             With(w, s, y).(holder := Some(w.holder.value.(remaining := w.holder.value.remaining - {s}))));
  }

  // The two pushes of a broadcast of b to both.
  lemma SendBoth<B(!new)>(x: Session<B>, y: Session<B>, b: B, h: seq<Event<B>>, x': Session<B>, y': Session<B>)
    requires Reachable(Pair(x, y, Some(Sending(b, {0, 1}, None)), {b}, h))
    requires Inv(x) && Inv(y) && Sends(x, b, x') && Sends(y, b, y')
    ensures Reachable(Pair(x', y', Some(Sending(b, {}, None)), {b}, h))
  {
    var w := Pair(x, y, Some(Sending(b, {0, 1}, None)), {b}, h);
    assert {0, 1} - {0} == {1} && {1} - {1} == {};
    SendStep(w, 0, x');
    PairWith(x, y, w.holder, {b}, h, x');
    var w' := Pair(x', y, Some(Sending(b, {1}, None)), {b}, h);
    SendStep(w', 1, y');
    PairWith(x', y, w'.holder, {b}, h, y');
  }

  // The whole broadcast, up to its caller letting go.
  lemma BroadcastBoth<B(!new)>(x: Session<B>, y: Session<B>, b: B, h: seq<Event<B>>, x': Session<B>, y': Session<B>)
    requires Reachable(Pair(x, y, None, {}, h)) && Inv(x) && Inv(y) && Sends(x, b, x') && Sends(y, b, y')
    ensures Reachable(Pair(x', y', None, {}, h + [Broadcasted(b)]))
  {
    var h' := h + [Broadcasted(b)];
    assert {} + {b} == {b} && {b} - {b} == {};
    ReachNext(Pair(x, y, None, {}, h), BeginBroadcast(b), Pair(x, y, Some(Sending(b, {0, 1}, None)), {b}, h'));
    SendBoth(x, y, b, h', x', y');
    ReachNext(Pair(x', y', Some(Sending(b, {}, None)), {b}, h'), EndBroadcast, Pair(x', y', None, {b}, h'));
    ReachNext(Pair(x', y', None, {b}, h'), Release(b), Pair(x', y', None, {}, h'));
  }

  function Underway<B>(a: B): Session<B>
  {
    Session(true, [], true, [Slot(a, true)], [Posted], false, [a], [One(a, true, OnItsWay)])
  }

  lemma ConnectedInv<B>()
    ensures Inv(Connected<B>())
  {
    NewSessionInv<B>();
    StepKeepsInv(NewSession<B>(), SetConnected(true));
  }

  // The RegisterSend of a session that was just sent its only buffer.
  lemma RegistersOne<B>(a: B)
    ensures var pushed := Session(true, [a], true, [], [Claimed], false, [a], []);
            SendQueue.Run(pushed, Registering(pushed, {a}, true)) == Some(Underway(a))
  {
    var pushed := Session(true, [a], true, [], [Claimed], false, [a], []);
    var drained := pushed.(holders := [Drained], queue := [], inFlight := [Slot(a, true)]);
    var drain := [Check(0), Lock(0)] + Pops([a], {a}) + [Unlock(0)];
    Singleton(a, a);
    Singleton(Slot(a, true), Slot(a, true));
    assert PopAll([a], [], {a}) == [Slot(a, true)];
    DrainFromClaimed(pushed, {a});
    assert SendQueue.Run(pushed, drain) == Some(drained);
    PostsOne(a);
    SendQueue.RunThen(pushed, drain, Post(0, true));
    assert drain + [Post(0, true)] == Registering(pushed, {a}, true);
  }

  lemma PostsOne<B>(a: B)
    ensures Next(Session(true, [], true, [Slot(a, true)], [Drained], false, [a], []), Post(0, true)) ==
            Some(Underway(a))
  {
    Singleton(Drained, Posted);
    Singleton(One(a, true, OnItsWay), One(a, true, OnItsWay));
  }

  // The first Send of a connected session, and the second while that is on
  // its way.
  lemma TwoSends<B>(a: B, b: B)
    ensures Sends(Connected(), a, Underway(a))
    ensures Sends(Underway(a), b, Underway(a).(queue := [b], sent := [a, b]))
  {
    Singleton(a, a);
    Singleton(b, b);
    Singleton(Claimed, Claimed);
    RegistersOne(a);
    assert [a] + [b] == [a, b];
  }

  lemma UnderwayInv<B>(a: B)
    ensures Inv(Underway(a))
  {
    NewSessionInv<B>();
    FirstPosted(a);
    SendQueue.RunKeepsInv(NewSession(), FirstSend(a));
  }

  // A step of session 0 while no broadcast runs and no caller has a buffer.
  lemma ReachFirst<B(!new)>(x: Session<B>, y: Session<B>, h: seq<Event<B>>, a: Action<B>, x': Session<B>)
    requires Reachable(Pair(x, y, None, {}, h)) && Next(x, a) == Some(x') && !a.Push?
    requires a.Pop? ==> a.elsewhere == OwnedBy(y, x.queue[0])
    ensures Reachable(Pair(x', y, None, {}, h))
  {
    var w := Pair(x, y, None, {}, h);
    assert w.sessions.Keys == {0, 1};
    PairWith(x, y, None, {}, h, x');
    ReachNext(w, Local(0, a), Pair(x', y, None, {}, h));
  }

  // Both sessions have sent a and queue b, and the caller of b has let go.
  lemma BothQueue<B(!new)>(a: B, b: B)
    ensures var y := Underway(a).(queue := [b], sent := [a, b]);
            Reachable(Pair(y, y, None, {}, [Added(0), Added(1), Broadcasted(a), Broadcasted(b)]))
  {
    var h := [Added(0), Added(1)];
    var y := Underway(a).(queue := [b], sent := [a, b]);
    BothConnected<B>();
    ConnectedInv<B>();
    UnderwayInv(a);
    TwoSends(a, b);
    BroadcastBoth(Connected(), Connected(), a, h, Underway(a), Underway(a));
    assert h + [Broadcasted(a)] == [Added(0), Added(1), Broadcasted(a)];
    BroadcastBoth(Underway(a), Underway(a), b, h + [Broadcasted(a)], y, y);
    assert h + [Broadcasted(a)] + [Broadcasted(b)] == [Added(0), Added(1), Broadcasted(a), Broadcasted(b)];
  }

  // Then session 0 completes and goes round again,
  lemma FirstCompletes<B(!new)>(a: B, b: B)
    ensures Reachable(Pair(Session(true, [b], true, [], [Claimed], false, [a, b], [One(a, true, Done(Everything))]),
                           Underway(a).(queue := [b], sent := [a, b]),
                           None, {}, [Added(0), Added(1), Broadcasted(a), Broadcasted(b)]))
  {
    var h := [Added(0), Added(1), Broadcasted(a), Broadcasted(b)];
    var y := Underway(a).(queue := [b], sent := [a, b]);
    var x := y.(inFlight := [], holders := [Completed], batches := [One(a, true, Done(Everything))]);
    BothQueue(a, b);
    OneBatch(One(a, true, OnItsWay), Everything);
    CompleteNext(y, Everything);
    Singleton(Completed, Claimed);
    ReachFirst(y, y, h, Complete(0, Everything), x);
    ReachFirst(x, y, h, Finish(0), x.(holders := [Claimed]));
  }

  // and takes the mutex to drain.
  lemma FirstDrains<B(!new)>(a: B, b: B)
    ensures Reachable(Pair(Session(true, [b], true, [], [Draining], false, [a, b], [One(a, true, Done(Everything))]),
                           Underway(a).(queue := [b], sent := [a, b]),
                           None, {}, [Added(0), Added(1), Broadcasted(a), Broadcasted(b)]))
  {
    var h := [Added(0), Added(1), Broadcasted(a), Broadcasted(b)];
    var y := Underway(a).(queue := [b], sent := [a, b]);
    var x := Session(true, [b], true, [], [Claimed], false, [a, b], [One(a, true, Done(Everything))]);
    FirstCompletes(a, b);
    Singleton(Claimed, Checked);
    Singleton(Checked, Draining);
    ReachFirst(x, y, h, Check(0), x.(holders := [Checked]));
    ReachFirst(x.(holders := [Checked]), y, h, Lock(0), x.(holders := [Draining]));
  }

  // Its b is alive at the pop, because it waits in the queue of session 1.
  lemma SharedBufferSurvives<B(!new)>(a: B, b: B) returns (w: World<B>)
    ensures Reachable(w) && w.held == {} && w.Of(1).queue == [b]
    ensures w.Of(0).queue == [] && w.Of(0).holders == [Draining] && w.Of(0).inFlight == [Slot(b, true)]
  {
    var h := [Added(0), Added(1), Broadcasted(a), Broadcasted(b)];
    var y := Underway(a).(queue := [b], sent := [a, b]);
    var x := Session(true, [b], true, [], [Draining], false, [a, b], [One(a, true, Done(Everything))]);
    FirstDrains(a, b);
    Singleton(b, b);
    Singleton(Slot(b, true), Slot(b, true));
    ReachFirst(x, y, h, Pop(0, true), x.(queue := [], inFlight := [Slot(b, true)]));
    w := Pair(x.(queue := [], inFlight := [Slot(b, true)]), y, None, {}, h);
  }

  //////////////////////////////////////////////////////////////////////////
  // Bytes on the socket
  //////////////////////////////////////////////////////////////////////////

  // A send buffer: its identity and the message it frames.
  datatype SendBuffer = SendBuffer(id: nat, message: Framing.Message)

  function Messages(bs: seq<SendBuffer>): (ms: seq<Framing.Message>)
    ensures |ms| == |bs| && forall i :: 0 <= i < |bs| ==> ms[i] == bs[i].message
  {
    seq(|bs|, i requires 0 <= i < |bs| => bs[i].message)
  }

  function SocketBytes(slots: seq<Slot<SendBuffer>>): seq<byte>
    requires Framing.AllFit(Framing.ToPackets(Messages(Bufs(slots))))
  {
    Framing.Frames(Framing.ToPackets(Messages(Bufs(slots))))
  }

  lemma PrefixDecodes(got: seq<Slot<SendBuffer>>, due: seq<SendBuffer>)
    requires got <= Intactly(due) && forall b <- due :: Framing.Sendable(b.message)
    ensures Framing.AllFit(Framing.ToPackets(Messages(Bufs(got))))
    ensures Framing.Receive(SocketBytes(got)) == Some(Messages(Bufs(got)))
    ensures Messages(Bufs(got)) <= Messages(due)
    ensures got == Intactly(due) ==> Messages(Bufs(got)) == Messages(due)
  {
    assert forall k :: 0 <= k < |got| ==> got[k] == Intactly(due)[k];
    var ms := Messages(Bufs(got));
    forall k | 0 <= k < |ms|
      ensures Framing.Sendable(ms[k])
    {
      assert ms[k] == due[k].message;
    }
    Framing.StreamRoundTrip(ms);
  }

  lemma DueSendable(h: seq<Event<SendBuffer>>, s: SessionId)
    requires forall e <- h :: e.Broadcasted? ==> Framing.Sendable(e.buf.message)
    ensures forall b <- Due(h, |h|, s) :: Framing.Sendable(b.message)
  {
    DueAtPositions(h, |h|, s);
    forall k | 0 <= k < |Due(h, |h|, s)|
      ensures Framing.Sendable(Due(h, |h|, s)[k].message)
    {
      assert h[Positions(h, |h|, s)[k]] in h;
    }
  }

  // End to end: while nothing is refused and every buffer survives its pop,
  // the bytes on a session's socket decode to a prefix of the messages it was
  // due, and to all of them once it is idle, not stuck, and no broadcast runs.
  lemma SocketBytesDecode(w: World<SendBuffer>, s: SessionId)
    requires Reachable(w)
    requires NeverFailed(w.Of(s).batches) && AllIntact(Handed(w.Of(s).batches))
    requires forall e <- w.history :: e.Broadcasted? ==> Framing.Sendable(e.buf.message)
    ensures var got, due := Reached(w.Of(s).batches), Messages(Due(w.history, |w.history|, s));
            && Framing.AllFit(Framing.ToPackets(Messages(Bufs(got))))
            && Framing.Receive(SocketBytes(got)) == Some(Messages(Bufs(got)))
            && Messages(Bufs(got)) <= due
            && (w.holder.None? && w.Of(s).holders == [] && !Stuck(w.Of(s)) ==>
                  Framing.Receive(SocketBytes(got)) == Some(due))
  {
    var got, due := Reached(w.Of(s).batches), Due(w.history, |w.history|, s);
    SocketPrefix(w, s);
    DueSendable(w.history, s);
    PrefixDecodes(got, due);
    if w.holder.None? && w.Of(s).holders == [] && !Stuck(w.Of(s)) { SocketHistories(w, s); }
  }

  // The write size of a buffer is the size of its frame, so that the bytes
  // handed over are the bytes on the socket once they arrive.
  function WriteSize(b: SendBuffer): nat { 4 + |Msg.TestSerialize(b.message.test)| }

  lemma {:induction false} TotalIsSocketBytes(slots: seq<Slot<SendBuffer>>)
    requires Framing.AllFit(Framing.ToPackets(Messages(Bufs(slots))))
    ensures Total(slots, WriteSize) == |SocketBytes(slots)|
  {
    if slots != [] {
      var ms, rest := Messages(Bufs(slots)), Messages(Bufs(slots[1..]));
      assert ms[1..] == rest;
      TotalIsSocketBytes(slots[1..]);
    }
  }
}
