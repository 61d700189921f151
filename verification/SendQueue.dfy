/** A session's send path as a state machine of atomic steps: Send pushes under
    the mutex and claims the right to drain by exchanging a flag; whoever holds
    the right pops the queue, buffer by buffer, into one WSASend; its completion
    either gives the right back or goes round again. */
module SendQueue {
  import opened Wire

  // Where a holder of the draining right stands; Draining holds the mutex.
  datatype Phase = Claimed | Checked | Draining | Drained | Posted | Completed

  // A pointer in the send event.  It was copied from the queue's front after
  // the front had been popped, and is intact if another owner kept the buffer
  // alive across the pop.
  datatype Slot<B> = Slot(buf: B, intact: bool)

  // How much of what it was handed a WSASend had transferred at completion.
  // The code only tells nothing from something.
  datatype Transfer = Nothing | Part | Everything

  // What a completion reports of the total bytes handed over.
  function Transferred(numOfBytes: nat, total: nat): Transfer
  {
    if numOfBytes == 0 then Nothing else if numOfBytes < total then Part else Everything
  }

  // Transferred tells the whole from a part by the count of bytes.
  lemma TransferredIff(numOfBytes: nat, total: nat)
    ensures Transferred(numOfBytes, total) == Nothing <==> numOfBytes == 0
    ensures Transferred(numOfBytes, total) == Part <==> 0 < numOfBytes < total
    ensures Transferred(numOfBytes, total) == Everything <==> 0 < numOfBytes && total <= numOfBytes
  {
  }

  // Refused by the call itself, accepted and on its way, or completed.
  datatype Outcome = Refused | OnItsWay | Done(transfer: Transfer)

  // One WSASend: the slots handed over and what became of them.
  datatype Batch<B> = Batch(slots: seq<Slot<B>>, outcome: Outcome)

  // registered is m_bAtomicSendRegistered, inFlight the send event.  stranded:
  // some thread returned without giving the right to drain back.  sent and
  // batches record the calls of Send and of WSASend.
  datatype Session<B> = Session(
    connected: bool,
    queue: seq<B>,
    registered: bool,
    inFlight: seq<Slot<B>>,
    holders: seq<Phase>,
    stranded: bool,
    sent: seq<B>,
    batches: seq<Batch<B>>)

  function NewSession<B>(): Session<B> { Session(false, [], false, [], [], false, [], []) }

  // elsewhere: an owner outside this session holds the buffer being popped.
  datatype Action<B> =
    | SetConnected(connected: bool)
    | Push(buf: B)
    | Check(who: nat)
    | Lock(who: nat)
    | Pop(who: nat, elsewhere: bool)
    | Unlock(who: nat)
    | Post(who: nat, accepted: bool)
    | Complete(who: nat, transfer: Transfer)
    | Finish(who: nat)

  predicate At<B>(s: Session<B>, who: nat, phase: Phase) { who < |s.holders| && s.holders[who] == phase }

  function Remove<T>(xs: seq<T>, i: nat): seq<T>
    requires i < |xs|
  {
    xs[..i] + xs[i + 1..]
  }

  // The popped buffer lives on if an owner outside, a later entry of the
  // queue or a live pointer already in the event holds it.
  predicate Survives<B(==)>(b: B, rest: seq<B>, event: seq<Slot<B>>, elsewhere: bool)
  {
    elsewhere || b in rest || Slot(b, true) in event
  }

  // The last WSASend has completed.
  function Settle<B>(bs: seq<Batch<B>>, transfer: Transfer): seq<Batch<B>>
    requires bs != []
  {
    bs[..|bs| - 1] + [bs[|bs| - 1].(outcome := Done(transfer))]
  }

  // None: the action is not possible in this state.
  function Next<B(==)>(s: Session<B>, a: Action<B>): Option<Session<B>>
  {
    match a
    case SetConnected(c) => Some(s.(connected := c))
    case Push(b) =>
      if Draining in s.holders then None
      else Some(s.(queue := s.queue + [b], sent := s.sent + [b], registered := true,
                   holders := if s.registered then s.holders else s.holders + [Claimed]))
    case Check(i) =>
      if !At(s, i, Claimed) then None
      else if s.connected then Some(s.(holders := s.holders[i := Checked]))
      else Some(s.(holders := Remove(s.holders, i), stranded := true))
    case Lock(i) =>
      if !At(s, i, Checked) || Draining in s.holders then None else Some(s.(holders := s.holders[i := Draining]))
    case Pop(i, elsewhere) =>
      if !At(s, i, Draining) || s.queue == [] then None
      else
        var b, rest := s.queue[0], s.queue[1..];
        Some(s.(queue := rest, inFlight := s.inFlight + [Slot(b, Survives(b, rest, s.inFlight, elsewhere))]))
    case Unlock(i) =>
      if !At(s, i, Draining) || s.queue != [] then None else Some(s.(holders := s.holders[i := Drained]))
    case Post(i, accepted) =>
      if !At(s, i, Drained) then None
      else if accepted then
        Some(s.(batches := s.batches + [Batch(s.inFlight, OnItsWay)], holders := s.holders[i := Posted]))
      else
        Some(s.(batches := s.batches + [Batch(s.inFlight, Refused)], inFlight := [], registered := false,
                holders := Remove(s.holders, i)))
    case Complete(i, transfer) =>
      if !At(s, i, Posted) || s.batches == [] then None
      else
        var s' := s.(inFlight := [], batches := Settle(s.batches, transfer));
        if transfer.Nothing? then Some(s'.(holders := Remove(s.holders, i), stranded := true, connected := false))
        else Some(s'.(holders := s.holders[i := Completed]))
    case Finish(i) =>
      if !At(s, i, Completed) || Draining in s.holders then None
      else if s.queue == [] then Some(s.(registered := false, holders := Remove(s.holders, i)))
      else Some(s.(holders := s.holders[i := Claimed]))
  }

  function Run<B(==)>(s: Session<B>, actions: seq<Action<B>>): Option<Session<B>>
    decreases |actions|
  {
    if actions == [] then Some(s)
    else
      match Next(s, actions[0])
      case None => None
      case Some(s') => Run(s', actions[1..])
  }

  //////////////////////////////////////////////////////////////////////////
  // What happened to the buffers
  //////////////////////////////////////////////////////////////////////////

  function Bufs<B>(slots: seq<Slot<B>>): (bs: seq<B>)
    ensures |bs| == |slots|
  {
    seq(|slots|, i requires 0 <= i < |slots| => slots[i].buf)
  }

  function Intactly<B>(bs: seq<B>): (slots: seq<Slot<B>>)
    ensures |slots| == |bs|
  {
    seq(|bs|, i requires 0 <= i < |bs| => Slot(bs[i], true))
  }

  lemma BufsAt<B>(slots: seq<Slot<B>>, bs: seq<B>, i: nat)
    ensures i < |slots| ==> Bufs(slots)[i] == slots[i].buf
    ensures i < |bs| ==> Intactly(bs)[i] == Slot(bs[i], true)
  {
  }

  ghost predicate AllIntact<B>(slots: seq<Slot<B>>) { forall x <- slots :: x.intact }

  // The bytes of the buffers in slots, each of its own write size.
  function Total<B>(slots: seq<Slot<B>>, writeSize: B -> nat): nat
  {
    if slots == [] then 0 else writeSize(slots[0].buf) + Total(slots[1..], writeSize)
  }

  lemma {:induction false} TotalConcat<B>(a: seq<Slot<B>>, b: seq<Slot<B>>, writeSize: B -> nat)
    ensures Total(a + b, writeSize) == Total(a, writeSize) + Total(b, writeSize)
    ensures |a| == 1 ==> Total(a, writeSize) == writeSize(a[0].buf)
  {
    if a == [] {
      assert a + b == b;
    } else {
      ConcatTail(a, b);
      TotalConcat(a[1..], b, writeSize);
    }
  }

  // Everything handed to WSASend, and what of it is known to be on the socket:
  // the slots of the calls that completed in full.
  function Handed<B>(bs: seq<Batch<B>>): seq<Slot<B>>
  {
    if bs == [] then [] else Handed(bs[..|bs| - 1]) + bs[|bs| - 1].slots
  }

  predicate Whole<B>(b: Batch<B>) { b.outcome == Done(Everything) }

  function Reached<B>(bs: seq<Batch<B>>): seq<Slot<B>>
  {
    if bs == [] then []
    else Reached(bs[..|bs| - 1]) + (if Whole(bs[|bs| - 1]) then bs[|bs| - 1].slots else [])
  }

  // Popped but not yet handed over.
  function Pending<B>(s: Session<B>): seq<Slot<B>>
  {
    if s.holders == [Draining] || s.holders == [Drained] then s.inFlight else []
  }

  // No WSASend was refused, came back empty or was cut short; one may be on
  // its way.
  ghost predicate NeverFailed<B>(bs: seq<Batch<B>>) { forall b <- bs :: Whole(b) || b.outcome.OnItsWay? }

  predicate LastRefused<B>(bs: seq<Batch<B>>) { bs != [] && bs[|bs| - 1].outcome.Refused? }

  ghost predicate AllSettled<B>(bs: seq<Batch<B>>) { forall b <- bs :: !b.outcome.OnItsWay? }

  //////////////////////////////////////////////////////////////////////////
  // The invariant
  //////////////////////////////////////////////////////////////////////////

  // At most one live thread holds the right to drain, and none does once one
  // was stranded; the flag is set exactly in these two cases.
  predicate Exclusive<B>(s: Session<B>)
  {
    && |s.holders| <= 1
    && (s.stranded ==> s.holders == [])
    && (s.registered <==> s.holders != [] || s.stranded)
  }

  // Nothing sent is lost, duplicated or reordered up to WSASend.
  ghost predicate Ordered<B>(s: Session<B>)
  {
    && (s.holders == [Draining] || s.holders == [Drained] || s.holders == [Posted] || s.inFlight == [])
    && s.sent == Bufs(Handed(s.batches) + Pending(s)) + s.queue
  }

  // A holder has something to do, every WSASend is handed something, and
  // buffers wait without a live holder only after a refused WSASend or behind
  // a stranded thread.
  ghost predicate Working<B>(s: Session<B>)
  {
    && (s.holders == [Claimed] || s.holders == [Checked] ==> s.queue != [])
    && (s.holders == [Draining] ==> s.queue != [] || s.inFlight != [])
    && (s.holders == [Drained] ==> s.inFlight != [])
    && (forall b <- s.batches :: b.slots != [])
    && (s.holders == [] && s.queue != [] ==> s.stranded || LastRefused(s.batches))
  }

  // Only the WSASend of a holder that has posted is on its way.
  ghost predicate Settled<B>(s: Session<B>)
  {
    if s.holders == [Posted] then LastOnItsWay(s.batches) else AllSettled(s.batches)
  }

  ghost predicate LastOnItsWay<B>(bs: seq<Batch<B>>)
  {
    bs != [] && bs[|bs| - 1].outcome.OnItsWay? && AllSettled(bs[..|bs| - 1])
  }

  ghost predicate Inv<B>(s: Session<B>) { Exclusive(s) && Ordered(s) && Working(s) && Settled(s) }

  lemma NewSessionInv<B>()
    ensures Inv(NewSession<B>())
  {
    assert NewSession<B>().sent == Bufs(Handed<B>([]) + []) + [];
  }

  lemma BufsConcat<B>(a: seq<Slot<B>>, b: seq<Slot<B>>)
    ensures Bufs(a + b) == Bufs(a) + Bufs(b)
  {
  }

  lemma HandedNext<B>(bs: seq<Batch<B>>, b: Batch<B>)
    ensures Handed(bs + [b]) == Handed(bs) + b.slots
    ensures Reached(bs + [b]) == Reached(bs) + (if Whole(b) then b.slots else [])
  {
    var bs' := bs + [b];
    assert bs'[..|bs'| - 1] == bs && bs'[|bs'| - 1] == b;
  }

  // The one holder, and what becomes of the list when it moves on or leaves.
  lemma Sole<B>(s: Session<B>, i: nat, p: Phase, q: Phase)
    requires Exclusive(s) && At(s, i, p)
    ensures i == 0 && s.holders == [p] && s.holders[i := q] == [q] && Remove(s.holders, i) == [] && !s.stranded
  {
  }

  lemma PushKeepsInv<B>(s: Session<B>, b: B)
    requires Inv(s) && Next(s, Push(b)).Some?
    ensures Inv(Next(s, Push(b)).value)
  {
    if !s.registered { assert s.holders + [Claimed] == [Claimed]; }
    Assoc(Bufs(Handed(s.batches) + Pending(s)), s.queue, [b]);
  }

  lemma PopKeepsInv<B>(s: Session<B>, i: nat, elsewhere: bool)
    requires Inv(s) && Next(s, Pop(i, elsewhere)).Some?
    ensures Inv(Next(s, Pop(i, elsewhere)).value)
  {
    Sole(s, i, Draining, Draining);
    var b, rest := s.queue[0], s.queue[1..];
    var slot := Slot(b, Survives(b, rest, s.inFlight, elsewhere));
    var before := Handed(s.batches) + s.inFlight;
    Assoc(Handed(s.batches), s.inFlight, [slot]);
    BufsConcat(before, [slot]);
    assert Bufs([slot]) == [b];
    assert Bufs(before) + [b] + rest == Bufs(before) + s.queue;
  }

  // The state a WSASend leaves.
  lemma PostNext<B>(s: Session<B>, accepted: bool)
    requires s.holders == [Drained]
    ensures var next := s.(batches := s.batches + [Batch(s.inFlight, if accepted then OnItsWay else Refused)]);
            Next(s, Post(0, accepted)) ==
            Some(if accepted then next.(holders := [Posted])
                 else next.(inFlight := [], registered := false, holders := []))
  {
    Singleton(Drained, Posted);
  }

  lemma PostBatches<B>(bs: seq<Batch<B>>, batch: Batch<B>)
    requires AllSettled(bs) && (forall b <- bs :: b.slots != []) && batch.slots != []
    ensures forall b <- bs + [batch] :: b.slots != []
    ensures batch.outcome.OnItsWay? ==> LastOnItsWay(bs + [batch])
    ensures batch.outcome.Refused? ==> AllSettled(bs + [batch]) && LastRefused(bs + [batch])
    ensures Handed(bs + [batch]) == Handed(bs) + batch.slots
  {
    HandedNext(bs, batch);
    assert (bs + [batch])[..|bs|] == bs;
  }

  // Ordered speaks only of what was sent, handed over, popped and queued.
  lemma OrderedStays<B>(s: Session<B>, s': Session<B>)
    requires Ordered(s) && s'.sent == s.sent && s'.queue == s.queue
    requires Handed(s'.batches) + Pending(s') == Handed(s.batches) + Pending(s)
    requires s'.holders == [Posted] || s'.inFlight == []
    ensures Ordered(s')
  {
  }

  lemma PostKeepsInv<B>(s: Session<B>, i: nat, accepted: bool)
    requires Inv(s) && Next(s, Post(i, accepted)).Some?
    ensures Inv(Next(s, Post(i, accepted)).value)
  {
    Sole(s, i, Drained, Posted);
    PostNext(s, accepted);
    PostedInv(s, Next(s, Post(i, accepted)).value, Batch(s.inFlight, if accepted then OnItsWay else Refused));
  }

  lemma PostedInv<B>(s: Session<B>, s': Session<B>, batch: Batch<B>)
    requires Inv(s) && s.holders == [Drained] && batch.slots == s.inFlight
    requires s'.sent == s.sent && s'.queue == s.queue && s'.batches == s.batches + [batch] && !s'.stranded
    requires if batch.outcome.OnItsWay? then s'.holders == [Posted] && s'.registered
             else batch.outcome.Refused? && s'.holders == [] && !s'.registered && s'.inFlight == []
    ensures Inv(s')
  {
    PostBatches(s.batches, batch);
    assert Pending(s) == s.inFlight && Pending(s') == [];
    assert Handed(s'.batches) + [] == Handed(s'.batches);
    OrderedStays(s, s');
    assert Working(s') && Settled(s');
  }

  // Completing changes what became of the last WSASend, not what it was handed.
  lemma SettleLast<B>(bs: seq<Batch<B>>, transfer: Transfer)
    requires bs != []
    ensures Handed(Settle(bs, transfer)) == Handed(bs)
    ensures LastOnItsWay(bs) ==> AllSettled(Settle(bs, transfer))
    ensures (forall b <- bs :: b.slots != []) ==> forall b <- Settle(bs, transfer) :: b.slots != []
  {
    var init, last := bs[..|bs| - 1], bs[|bs| - 1];
    HandedNext(init, last.(outcome := Done(transfer)));
    assert bs == init + [last];
    HandedNext(init, last);
  }

  // Only a WSASend hands anything over: the event, as it stands.
  lemma HandedGrows<B>(s: Session<B>, a: Action<B>)
    requires Next(s, a).Some?
    ensures Handed(Next(s, a).value.batches) == if a.Post? then Handed(s.batches) + s.inFlight else Handed(s.batches)
  {
    if a.Post? {
      HandedNext(s.batches, Batch(s.inFlight, if a.accepted then OnItsWay else Refused));
    } else if a.Complete? {
      SettleLast(s.batches, a.transfer);
    }
  }

  // The state a completion leaves.
  lemma CompleteNext<B>(s: Session<B>, transfer: Transfer)
    requires s.holders == [Posted] && s.batches != []
    ensures var next := s.(inFlight := [], batches := Settle(s.batches, transfer));
            Next(s, Complete(0, transfer)) ==
            Some(if transfer.Nothing? then next.(holders := [], stranded := true, connected := false)
                 else next.(holders := [Completed]))
  {
    Singleton(Posted, Completed);
  }

  lemma CompleteKeepsInv<B>(s: Session<B>, i: nat, transfer: Transfer)
    requires Inv(s) && Next(s, Complete(i, transfer)).Some?
    ensures Inv(Next(s, Complete(i, transfer)).value)
  {
    Sole(s, i, Posted, Completed);
    CompleteNext(s, transfer);
    SettleLast(s.batches, transfer);
    var s' := Next(s, Complete(i, transfer)).value;
    assert Pending(s') == Pending(s) == [];
    OrderedStays(s, s');
    assert Working(s') && Settled(s');
  }

  // The section that drains is atomic: while its thread holds the mutex nobody
  // else pushes, and the queue changes by its own pops only.
  lemma DrainIsAtomic<B>(s: Session<B>, a: Action<B>)
    requires Inv(s) && Draining in s.holders && Next(s, a).Some?
    ensures a.SetConnected? || a == Unlock(0) || (a.Pop? && a.who == 0)
    ensures !a.Pop? ==> Next(s, a).value.queue == s.queue
    ensures Next(s, a).value.sent == s.sent && Next(s, a).value.batches == s.batches
  {
    assert s.holders == [Draining];
  }

  // Outside it a push is always possible.
  lemma PushPossible<B>(s: Session<B>, b: B)
    ensures Next(s, Push(b)).Some? <==> Draining !in s.holders
  {
  }

  lemma OnlyPushSends<B>(s: Session<B>, a: Action<B>)
    requires Next(s, a).Some? && !a.Push?
    ensures Next(s, a).value.sent == s.sent
  {
  }

  lemma StepKeepsInv<B>(s: Session<B>, a: Action<B>)
    requires Inv(s) && Next(s, a).Some?
    ensures Inv(Next(s, a).value)
  {
    match a
    case SetConnected(_) =>
    case Push(b) => PushKeepsInv(s, b);
    case Check(i) => Sole(s, i, Claimed, Checked);
    case Lock(i) => Sole(s, i, Checked, Draining);
    case Pop(i, elsewhere) => PopKeepsInv(s, i, elsewhere);
    case Unlock(i) => Sole(s, i, Draining, Drained);
    case Post(i, accepted) => PostKeepsInv(s, i, accepted);
    case Complete(i, transfer) => CompleteKeepsInv(s, i, transfer);
    case Finish(i) => Sole(s, i, Completed, Claimed);
  }

  lemma {:induction false} RunKeepsInv<B>(s: Session<B>, actions: seq<Action<B>>)
    requires Inv(s) && Run(s, actions).Some?
    ensures Inv(Run(s, actions).value)
    decreases |actions|
  {
    if actions != [] {
      StepKeepsInv(s, actions[0]);
      RunKeepsInv(Next(s, actions[0]).value, actions[1..]);
    }
  }

  // A Send sends its buffer once, and if it drained the queue and the session
  // is connected, the right to drain is where the WSASend left it.
  ghost predicate SentOnce<B>(before: Session<B>, after: Session<B>, b: B, accepted: bool)
  {
    && after.sent == before.sent + [b]
    && (!before.registered && after.connected ==> after.holders == if accepted then [Posted] else [])
  }

  //////////////////////////////////////////////////////////////////////////
  // When everything sent reaches the socket
  //////////////////////////////////////////////////////////////////////////

  lemma {:induction false} ReachedCount<B>(bs: seq<Batch<B>>)
    requires AllSettled(bs) && forall b <- bs :: b.slots != []
    ensures |Reached(bs)| <= |Handed(bs)|
    ensures |Reached(bs)| == |Handed(bs)| <==> NeverFailed(bs)
    ensures NeverFailed(bs) ==> Reached(bs) == Handed(bs)
  {
    if bs != [] {
      var init, last := bs[..|bs| - 1], bs[|bs| - 1];
      assert bs == init + [last];
      assert last in bs && last.slots != [];
      ReachedCount(init);
    }
  }

  lemma IntactlyBufs<B>(slots: seq<Slot<B>>)
    ensures AllIntact(slots) <==> slots == Intactly(Bufs(slots))
  {
    if slots == Intactly(Bufs(slots)) {
      forall i | 0 <= i < |slots|
        ensures slots[i].intact
      {
        assert slots[i] == Intactly(Bufs(slots))[i];
      }
    }
  }

  // Buffers are left waiting behind a stranded thread.
  predicate Stuck<B>(s: Session<B>) { s.stranded && s.queue != [] }

  // A session with no live holder has put everything sent on the socket,
  // intact and in order, exactly when no WSASend was refused, came back empty
  // or was cut short, no buffer waits behind a stranded thread, and every
  // buffer survived its pop.
  lemma QuiescentDeliversIff<B>(s: Session<B>)
    requires Inv(s) && s.holders == []
    ensures Reached(s.batches) == Intactly(s.sent) <==>
            NeverFailed(s.batches) && !Stuck(s) && AllIntact(Handed(s.batches))
  {
    var handed := Handed(s.batches);
    ReachedCount(s.batches);
    assert handed + [] == handed;
    assert s.sent == Bufs(handed) + s.queue;
    IntactlyBufs(handed);
    if Reached(s.batches) == Intactly(s.sent) {
      assert |Reached(s.batches)| == |handed| + |s.queue|;
      assert s.queue == [] && Bufs(handed) + [] == Bufs(handed);
    }
    if NeverFailed(s.batches) && !Stuck(s) {
      if s.batches != [] { assert s.batches[|s.batches| - 1] in s.batches; }
      assert s.queue == [] && Bufs(handed) + [] == Bufs(handed);
    }
  }

  // All that was handed over is on the socket, but for a WSASend on its way.
  lemma ReachedIsHanded<B>(s: Session<B>)
    requires Inv(s) && NeverFailed(s.batches)
    ensures Reached(s.batches) <= Handed(s.batches)
    ensures s.holders != [Posted] ==> Reached(s.batches) == Handed(s.batches)
  {
    if s.holders == [Posted] {
      var init, last := s.batches[..|s.batches| - 1], s.batches[|s.batches| - 1];
      assert s.batches == init + [last];
      ReachedCount(init);
      HandedNext(init, last);
    } else {
      ReachedCount(s.batches);
    }
  }

  // At any time: what is on the socket is a prefix of what was sent, as long
  // as no WSASend fails and buffers survive their pops.
  lemma ReachedIsPrefix<B>(s: Session<B>)
    requires Inv(s) && NeverFailed(s.batches) && AllIntact(Handed(s.batches))
    ensures Reached(s.batches) <= Intactly(s.sent)
  {
    var handed := Handed(s.batches);
    ReachedIsHanded(s);
    IntactlyBufs(handed);
    BufsConcat(handed, Pending(s));
    assert s.sent[..|handed|] == Bufs(handed);
    assert Intactly(s.sent)[..|handed|] == Intactly(s.sent[..|handed|]);
  }

  // After a refusal the next Send takes the right to drain again; after a
  // stranding none ever does.
  lemma PushRecoversIff<B>(s: Session<B>, b: B)
    requires Inv(s) && Next(s, Push(b)).Some?
    ensures Next(s, Push(b)).value.holders != [] <==> !s.stranded
  {
  }

  // Nothing sent after a stranding is ever handed to the socket, whatever
  // happens: not even after the session is connected again.
  lemma {:induction false} StrandedForever<B>(s: Session<B>, actions: seq<Action<B>>)
    requires Inv(s) && s.stranded && Run(s, actions).Some?
    ensures var s' := Run(s, actions).value;
            s'.stranded && s'.registered && s'.holders == [] && s'.batches == s.batches && s.queue <= s'.queue
    decreases |actions|
  {
    if actions != [] {
      StepKeepsInv(s, actions[0]);
      StrandedForever(Next(s, actions[0]).value, actions[1..]);
    }
  }

  //////////////////////////////////////////////////////////////////////////
  // Draining
  //////////////////////////////////////////////////////////////////////////

  // The event after all of the queue was popped; elsewhere holds the buffers
  // that have an owner outside the session.
  function PopAll<B(==)>(queue: seq<B>, event: seq<Slot<B>>, elsewhere: set<B>): seq<Slot<B>>
    decreases |queue|
  {
    if queue == [] then event
    else
      var b, rest := queue[0], queue[1..];
      PopAll(rest, event + [Slot(b, Survives(b, rest, event, b in elsewhere))], elsewhere)
  }

  lemma {:induction false} PopAllExtends<B>(queue: seq<B>, event: seq<Slot<B>>, elsewhere: set<B>)
    ensures event <= PopAll(queue, event, elsewhere)
    ensures Bufs(PopAll(queue, event, elsewhere)) == Bufs(event) + queue
    decreases |queue|
  {
    if queue != [] {
      var b, rest := queue[0], queue[1..];
      var slot := Slot(b, Survives(b, rest, event, b in elsewhere));
      PopAllExtends(rest, event + [slot], elsewhere);
      assert Bufs(event + [slot]) == Bufs(event) + [b];
      assert Bufs(event) + [b] + rest == Bufs(event) + queue;
    }
  }

  // The steps that pop the whole queue, and those of one RegisterSend.
  function Pops<B(==)>(queue: seq<B>, elsewhere: set<B>): (actions: seq<Action<B>>)
    ensures |actions| == |queue|
  {
    seq(|queue|, i requires 0 <= i < |queue| => Pop(0, queue[i] in elsewhere))
  }

  function Registering<B(==)>(s: Session<B>, elsewhere: set<B>, accepted: bool): seq<Action<B>>
  {
    if s.connected then [Check(0), Lock(0)] + Pops(s.queue, elsewhere) + [Unlock(0), Post(0, accepted)] else [Check(0)]
  }

  // What ProcessSend does after the completion, of which only the queue and
  // the connection matter.
  function Processing<B(==)>(s: Session<B>, numOfBytes: nat, elsewhere: set<B>, accepted: bool): seq<Action<B>>
  {
    if numOfBytes == 0 then []
    else [Finish(0)] + (if s.queue == [] then [] else Registering(s, elsewhere, accepted))
  }

  lemma {:induction false} PopsRun<B>(s: Session<B>, elsewhere: set<B>)
    requires s.holders == [Draining]
    ensures Run(s, Pops(s.queue, elsewhere)) ==
            Some(s.(queue := [], inFlight := PopAll(s.queue, s.inFlight, elsewhere)))
    decreases |s.queue|
  {
    if s.queue != [] {
      var pops := Pops(s.queue, elsewhere);
      assert pops[1..] == Pops(s.queue[1..], elsewhere);
      PopsRun(Next(s, pops[0]).value, elsewhere);
    }
  }

  predicate Kept<B(==)>(b: B, queue: seq<B>, event: seq<Slot<B>>, elsewhere: set<B>)
  {
    b in elsewhere || Slot(b, true) in event || multiset(queue)[b] >= 2
  }

  lemma {:induction false} PopAllIntact<B>(queue: seq<B>, event: seq<Slot<B>>, elsewhere: set<B>)
    ensures AllIntact(PopAll(queue, event, elsewhere)) <==>
            AllIntact(event) && forall b <- queue :: Kept(b, queue, event, elsewhere)
    decreases |queue|
  {
    if queue != [] {
      var b, rest := queue[0], queue[1..];
      var lives := Survives(b, rest, event, b in elsewhere);
      var event' := event + [Slot(b, lives)];
      assert queue == [b] + rest;
      assert multiset(queue) == multiset{b} + multiset(rest);
      PopAllIntact(rest, event', elsewhere);
      PopAllExtends(rest, event', elsewhere);
      assert lives <==> Kept(b, queue, event, elsewhere);
      if lives {
        assert forall c <- rest :: Kept(c, rest, event', elsewhere) <==> Kept(c, queue, event, elsewhere);
      } else {
        assert event'[|event|] in PopAll(rest, event', elsewhere);
      }
    }
  }

  // Draining into an empty event hands over intact buffers exactly when every
  // buffer of the queue has another owner: one outside, or a second entry.
  lemma DrainIntactIff<B>(queue: seq<B>, elsewhere: set<B>)
    ensures AllIntact(PopAll(queue, [], elsewhere)) <==>
            forall b <- queue :: b in elsewhere || multiset(queue)[b] >= 2
  {
    PopAllIntact(queue, [], elsewhere);
    assert forall b <- queue :: Kept(b, queue, [], elsewhere) <==> b in elsewhere || multiset(queue)[b] >= 2;
  }

  //////////////////////////////////////////////////////////////////////////
  // Inputs at which the promises fail
  //////////////////////////////////////////////////////////////////////////

  // Running one list of actions after another is running their concatenation.
  lemma {:induction false} RunThenRun<B>(s: Session<B>, actions: seq<Action<B>>, more: seq<Action<B>>)
    requires Run(s, actions).Some?
    ensures Run(s, actions + more) == Run(Run(s, actions).value, more)
    decreases |actions|
  {
    if actions == [] {
      assert [] + more == more;
    } else {
      var all := actions + more;
      assert all[0] == actions[0] && all[1..] == actions[1..] + more;
      RunThenRun(Next(s, actions[0]).value, actions[1..], more);
    }
  }

  lemma RunThen<B>(s: Session<B>, actions: seq<Action<B>>, a: Action<B>)
    requires Run(s, actions).Some?
    ensures Run(s, actions + [a]) == Next(Run(s, actions).value, a)
  {
    var one := [a];
    assert one[0] == a && one[1..] == [];
    RunThenRun(s, actions, one);
  }

  lemma Singleton<T>(x: T, y: T)
    ensures [x][0 := y] == [y] && Remove([x], 0) == [] && [] + [x] == [x] && [x][1..] == []
  {
  }

  lemma RunOne<B>(s: Session<B>, a: Action<B>)
    ensures Run(s, [a]) == Next(s, a)
  {
    RunThen(s, [], a);
    assert [] + [a] == [a];
  }

  lemma DrainRun<B>(s: Session<B>, elsewhere: set<B>)
    requires s.holders == [Checked]
    ensures Run(s, [Lock(0)] + Pops(s.queue, elsewhere) + [Unlock(0)])
         == Some(s.(holders := [Drained], queue := [], inFlight := PopAll(s.queue, s.inFlight, elsewhere)))
  {
    var locked := s.(holders := [Draining]);
    Singleton(Checked, Draining);
    Singleton(Draining, Drained);
    RunOne(s, Lock(0));
    PopsRun(locked, elsewhere);
    RunThenRun(s, [Lock(0)], Pops(s.queue, elsewhere));
    RunThen(s, [Lock(0)] + Pops(s.queue, elsewhere), Unlock(0));
  }

  lemma DrainFromClaimed<B>(s: Session<B>, elsewhere: set<B>)
    requires s.connected && s.holders == [Claimed]
    ensures Run(s, [Check(0), Lock(0)] + Pops(s.queue, elsewhere) + [Unlock(0)])
         == Some(s.(holders := [Drained], queue := [], inFlight := PopAll(s.queue, s.inFlight, elsewhere)))
  {
    var checked, drain := s.(holders := [Checked]), [Lock(0)] + Pops(s.queue, elsewhere) + [Unlock(0)];
    Singleton(Claimed, Checked);
    DrainRun(checked, elsewhere);
    RunOne(s, Check(0));
    RunThenRun(s, [Check(0)], drain);
    assert [Check(0)] + drain == [Check(0), Lock(0)] + Pops(s.queue, elsewhere) + [Unlock(0)];
  }

  // A Send that finds the session not connected strands it for good: even
  // connected again it only queues, and nothing is ever handed over.
  lemma StrandedByCheck<B>(a: B, b: B, later: seq<Action<B>>)
    ensures var s := Run(NewSession(), [Push(a), Check(0), SetConnected(true), Push(b)]);
            && s.Some? && s.value.connected && s.value.queue == [a, b]
            && Stuck(s.value) && !LastRefused(s.value.batches)
            && (Run(s.value, later).Some? ==> Handed(Run(s.value, later).value.batches) == [])
  {
    var s0, run := NewSession(), [];
    Singleton(a, a);
    Singleton(Claimed, Claimed);
    RunThen(s0, run, Push(a));
    RunThen(s0, run + [Push(a)], Check(0));
    var run2 := run + [Push(a)] + [Check(0)];
    assert Run(s0, run2) == Some(Session(false, [a], true, [], [], true, [a], []));
    RunThen(s0, run2, SetConnected(true));
    RunThen(s0, run2 + [SetConnected(true)], Push(b));
    var s := Session(true, [a, b], true, [], [], true, [a, b], []);
    assert [a] + [b] == [a, b];
    assert run2 + [SetConnected(true)] + [Push(b)] == [Push(a), Check(0), SetConnected(true), Push(b)];
    assert Inv(s) by { assert Bufs(Handed<B>([]) + []) + [a, b] == [a, b]; }
    if Run(s, later).Some? { StrandedForever(s, later); }
  }

  // A connected session that has drained a.
  lemma FirstDrain<B>(a: B)
    ensures Run(NewSession(), [SetConnected(true), Push(a), Check(0), Lock(0), Pop(0, true), Unlock(0)])
            == Some(Session(true, [], true, [Slot(a, true)], [Drained], false, [a], []))
  {
    var s0, run := NewSession(), [];
    Singleton(a, a);
    Singleton(Slot(a, true), Slot(a, true));
    Singleton(Claimed, Checked);
    Singleton(Checked, Draining);
    Singleton(Draining, Drained);
    RunThen(s0, run, SetConnected(true));
    RunThen(s0, run + [SetConnected(true)], Push(a));
    var run2 := run + [SetConnected(true)] + [Push(a)];
    assert Run(s0, run2) == Some(Session(true, [a], true, [], [Claimed], false, [a], []));
    RunThen(s0, run2, Check(0));
    RunThen(s0, run2 + [Check(0)], Lock(0));
    var run4 := run2 + [Check(0)] + [Lock(0)];
    assert Run(s0, run4) == Some(Session(true, [a], true, [], [Draining], false, [a], []));
    RunThen(s0, run4, Pop(0, true));
    RunThen(s0, run4 + [Pop(0, true)], Unlock(0));
    assert run4 + [Pop(0, true)] + [Unlock(0)]
        == [SetConnected(true), Push(a), Check(0), Lock(0), Pop(0, true), Unlock(0)];
  }

  // After a refused WSASend the drained buffer is lost and one pushed in the
  // meantime waits with nobody to drain it.
  lemma RefusalLeavesWaiting<B>(a: B, b: B)
    ensures Run(NewSession(), [SetConnected(true), Push(a), Check(0), Lock(0), Pop(0, true), Unlock(0),
                               Push(b), Post(0, false)])
            == Some(Session(true, [b], false, [], [], false, [a, b], [Batch([Slot(a, true)], Refused)]))
  {
    var s0 := NewSession();
    var run := [SetConnected(true), Push(a), Check(0), Lock(0), Pop(0, true), Unlock(0)];
    FirstDrain(a);
    Singleton(b, b);
    Singleton(Drained, Drained);
    Singleton(Batch([Slot(a, true)], Refused), Batch([Slot(a, true)], Refused));
    RunThen(s0, run, Push(b));
    assert [a] + [b] == [a, b];
    RunThen(s0, run + [Push(b)], Post(0, false));
    assert run + [Push(b)] + [Post(0, false)]
        == [SetConnected(true), Push(a), Check(0), Lock(0), Pop(0, true), Unlock(0), Push(b), Post(0, false)];
  }

  // The run up to the first WSASend.
  function FirstSend<B>(a: B): seq<Action<B>>
  {
    [SetConnected(true), Push(a), Check(0), Lock(0), Pop(0, true), Unlock(0), Post(0, true)]
  }

  lemma FirstPosted<B>(a: B)
    ensures Run(NewSession(), FirstSend(a)) ==
            Some(Session(true, [], true, [Slot(a, true)], [Posted], false, [a], [Batch([Slot(a, true)], OnItsWay)]))
  {
    var run := [SetConnected(true), Push(a), Check(0), Lock(0), Pop(0, true), Unlock(0)];
    FirstDrain(a);
    Singleton(Drained, Posted);
    Singleton(Batch([Slot(a, true)], OnItsWay), Batch([Slot(a, true)], OnItsWay));
    RunThen(NewSession(), run, Post(0, true));
    assert run + [Post(0, true)] == FirstSend(a);
  }

  lemma OneBatch<B>(x: Batch<B>, transfer: Transfer)
    ensures Settle([x], transfer) == [x.(outcome := Done(transfer))]
    ensures Handed([x]) == x.slots && Reached([x]) == if Whole(x) then x.slots else []
  {
    HandedNext([], x);
    assert [] + [x] == [x] && [] + x.slots == x.slots;
  }

  // The run up to the end of the first WSASend's completion.
  function FirstRound<B>(a: B, transfer: Transfer): seq<Action<B>>
  {
    FirstSend(a) + [Complete(0, transfer)] + (if transfer.Nothing? then [] else [Finish(0)])
  }

  lemma FirstCompleted<B>(a: B, transfer: Transfer)
    ensures var settled := [Batch([Slot(a, true)], Done(transfer))];
            Run(NewSession(), FirstSend(a) + [Complete(0, transfer)]) ==
            Some(if transfer.Nothing? then Session(false, [], true, [], [], true, [a], settled)
                 else Session(true, [], true, [], [Completed], false, [a], settled))
  {
    FirstPosted(a);
    Singleton(Posted, Completed);
    OneBatch(Batch([Slot(a, true)], OnItsWay), transfer);
    RunThen(NewSession(), FirstSend(a), Complete(0, transfer));
  }

  lemma FirstRoundRuns<B>(a: B, transfer: Transfer)
    ensures Run(NewSession(), FirstRound(a, transfer)) ==
            Some(Session(!transfer.Nothing?, [], transfer.Nothing?, [], [], transfer.Nothing?, [a],
                         [Batch([Slot(a, true)], Done(transfer))]))
  {
    var run := FirstSend(a) + [Complete(0, transfer)];
    FirstCompleted(a, transfer);
    Singleton(Completed, Completed);
    if transfer.Nothing? {
      assert run + [] == run;
    } else {
      RunThen(NewSession(), run, Finish(0));
    }
  }

  // A WSASend that transfers nothing, or less than it was handed, leaves the
  // session idle and not stuck, the buffer intact and not refused, and yet not
  // on the socket.
  lemma IncompleteSend<B>(a: B, transfer: Transfer)
    requires transfer != Everything
    ensures Run(NewSession(), FirstRound(a, transfer)).Some?
    ensures var s := Run(NewSession(), FirstRound(a, transfer)).value;
            && s.holders == [] && !Stuck(s) && s.sent == [a]
            && (s.connected <==> transfer == Part) && (s.stranded <==> transfer == Nothing)
            && Handed(s.batches) == [Slot(a, true)] && !LastRefused(s.batches) && Reached(s.batches) == []
  {
    FirstRoundRuns(a, transfer);
    OneBatch(Batch([Slot(a, true)], Done(transfer)), transfer);
  }
}
