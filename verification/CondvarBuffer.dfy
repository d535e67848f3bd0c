/** labs/lab_22_condvar.c: one producer, any number of consumers, one mutex and two
    condition variables around a circular buffer. */
module CondvarBuffer {
  import opened Runs
  import opened Ring
  import opened Sums

  /** The producer: in `produce`, then in the code that sets `done`. */
  datatype Producer =
    | PLock | PTest | PWait | PWoken | PPut | PSignal | PUnlock
    | PDoneLock | PDoneSet | PBroadcast | PDoneUnlock | PExit

  /** A consumer in `consume`; CWait and PWait are the sleepers in pthread_cond_wait, CWoken and
      PWoken those that have been woken and must take the mutex back. */
  datatype Consumer =
    | CLock | CTest | CWait | CWoken | CGet | CSignal(v: int) | CUnlock(v: int) | CQuit | CExit

  datatype Holder = Nobody | TheProducer | TheConsumer(k: nat)

  datatype Take = Take(k: nat, v: int)

  /** `made` is the producer's loop counter.  `taken`, which no step reads, records which
      consumer took which value, in order. */
  datatype State = State(
    buffer: seq<int>, count: nat, inIdx: nat, outIdx: nat, done: bool, mutex: Holder,
    producer: Producer, made: nat, consumers: seq<Consumer>, taken: seq<Take>)

  /** P and C(k) are the threads' own next steps.  A signal on not_empty wakes some waiter,
      Wake(k) says which.  Wakeups for no reason are actions of their own. */
  datatype Action = P | C(k: nat) | Wake(k: nat) | SpuriousP | SpuriousC(k: nat)

  function Init(items: seq<int>, size: nat, consumers: nat): State {
    State(seq(size, _ => 0), 0, 0, 0, false, Nobody,
          if items == [] then PDoneLock else PLock, 0, seq(consumers, _ => CLock), [])
  }

  predicate NobodyWaits(s: State) {
    forall k :: 0 <= k < |s.consumers| ==> s.consumers[k] != CWait
  }

  function WakeAll(consumers: seq<Consumer>): seq<Consumer> {
    seq(|consumers|, k requires 0 <= k < |consumers| => if consumers[k] == CWait then CWoken else consumers[k])
  }

  function Lock(s: State, next: Producer): Option<State> {
    if s.mutex == Nobody then Some(s.(mutex := TheProducer, producer := next)) else None
  }

  /** Store the next item at the input index. */
  function PutItem(items: seq<int>, s: State): State
    requires s.inIdx < |s.buffer| && s.made < |items|
  {
    s.(buffer := s.buffer[s.inIdx := items[s.made]], inIdx := Slot(s.inIdx, 1, |s.buffer|),
       count := s.count + 1, made := s.made + 1)
  }

  /** Take the oldest item, at the output index. */
  function TakeItem(s: State, k: nat): State
    requires s.outIdx < |s.buffer| && s.count > 0
  {
    s.(outIdx := Slot(s.outIdx, 1, |s.buffer|), count := s.count - 1, taken := s.taken + [Take(k, s.buffer[s.outIdx])])
  }

  /** The producer's next step; items[i] is the i-th value it produces. */
  function ProducerStep(items: seq<int>, s: State): Option<State> {
    match s.producer
    case PLock => Lock(s, PTest)
    case PWoken => Lock(s, PTest)
    case PTest =>
      if s.count == |s.buffer| then Some(s.(mutex := Nobody, producer := PWait)) else Some(s.(producer := PPut))
    case PWait => None
    case PPut =>
      if s.inIdx < |s.buffer| && s.made < |items| then Some(PutItem(items, s).(producer := PSignal)) else None
    case PSignal => if NobodyWaits(s) then Some(s.(producer := PUnlock)) else None
    case PUnlock => Some(s.(mutex := Nobody, producer := if s.made < |items| then PLock else PDoneLock))
    case PDoneLock => Lock(s, PDoneSet)
    case PDoneSet => Some(s.(done := true, producer := PBroadcast))
    case PBroadcast => Some(s.(consumers := WakeAll(s.consumers), producer := PDoneUnlock))
    case PDoneUnlock => Some(s.(mutex := Nobody, producer := PExit))
    case PExit => None
  }

  function At(s: State, k: nat, pc: Consumer): State
    requires k < |s.consumers|
  {
    s.(consumers := s.consumers[k := pc])
  }

  /** Consumer k's next step.  `consumer` calls `consume` again while it returns a value >= 0. */
  function ConsumerStep(s: State, k: nat): Option<State> {
    if k >= |s.consumers| then None
    else
      match s.consumers[k]
      case CLock => if s.mutex == Nobody then Some(At(s, k, CTest).(mutex := TheConsumer(k))) else None
      case CWoken => if s.mutex == Nobody then Some(At(s, k, CTest).(mutex := TheConsumer(k))) else None
      case CTest =>
        if s.count == 0 && !s.done then Some(At(s, k, CWait).(mutex := Nobody))
        else if s.count == 0 then Some(At(s, k, CQuit))
        else Some(At(s, k, CGet))
      case CWait => None
      case CGet =>
        if s.outIdx < |s.buffer| && s.count > 0
        then Some(At(TakeItem(s, k), k, CSignal(s.buffer[s.outIdx]))) else None
      case CSignal(v) =>
        Some(At(s, k, CUnlock(v)).(producer := if s.producer == PWait then PWoken else s.producer))
      case CUnlock(v) => Some(At(s, k, if v >= 0 then CLock else CExit).(mutex := Nobody))
      case CQuit => Some(At(s, k, CExit).(mutex := Nobody))
      case CExit => None
  }

  function Step(items: seq<int>, s: State, a: Action): (r: Option<State>)
    ensures r.Some? ==> |r.value.consumers| == |s.consumers| && |r.value.buffer| == |s.buffer|
  {
    match a
    case P => ProducerStep(items, s)
    case C(k) => ConsumerStep(s, k)
    case Wake(k) =>
      if s.producer == PSignal && k < |s.consumers| && s.consumers[k] == CWait
      then Some(At(s, k, CWoken).(producer := PUnlock)) else None
    case SpuriousP => if s.producer == PWait then Some(s.(producer := PWoken)) else None
    case SpuriousC(k) =>
      if k < |s.consumers| && s.consumers[k] == CWait then Some(At(s, k, CWoken)) else None
  }

  function Monitor(items: seq<int>): Machine<State, Action> { (s, a) => Step(items, s, a) }

  // ------------------------------------------------------------- specification

  function Values(taken: seq<Take>): seq<int> {
    seq(|taken|, i requires 0 <= i < |taken| => taken[i].v)
  }

  /** The buffer is a first-in first-out queue: what was taken, followed by what the ring holds,
      is what was put. */
  ghost predicate Fifo(items: seq<int>, s: State) {
    && 0 < |s.buffer| && s.count <= |s.buffer| && s.outIdx < |s.buffer|
    && s.inIdx == Slot(s.outIdx, s.count, |s.buffer|)
    && s.made <= |items|
    && Values(s.taken) + Contents(s.buffer, s.outIdx, s.count) == items[..s.made]
  }

  ghost predicate Exited(s: State) {
    s.producer == PExit && forall k :: 0 <= k < |s.consumers| ==> s.consumers[k] == CExit
  }

  predicate Spurious(a: Action) { a.SpuriousP? || a.SpuriousC? }

  /** No thread can move unless someone is woken for no reason. */
  ghost predicate Blocked(items: seq<int>, s: State) {
    forall a :: !Spurious(a) ==> Step(items, s, a).None?
  }

  // ---------------------------------------------------------------- invariant

  predicate ProducerHolds(p: Producer) {
    p.PTest? || p.PPut? || p.PSignal? || p.PUnlock? || p.PDoneSet? || p.PBroadcast? || p.PDoneUnlock?
  }

  predicate ConsumerHolds(c: Consumer) {
    c.CTest? || c.CGet? || c.CSignal? || c.CUnlock? || c.CQuit?
  }

  /** The mutex is held by exactly the threads inside. */
  ghost predicate Exclusive(s: State) {
    && (ProducerHolds(s.producer) <==> s.mutex == TheProducer)
    && (forall k :: 0 <= k < |s.consumers| ==> (ConsumerHolds(s.consumers[k]) <==> s.mutex == TheConsumer(k)))
    && (s.mutex.TheConsumer? ==> s.mutex.k < |s.consumers|)
  }

  ghost predicate ProducerOk(items: seq<int>, s: State) {
    && (s.producer.PLock? || s.producer.PTest? || s.producer.PWait? || s.producer.PWoken? || s.producer.PPut? ==>
          s.made < |items|)
    && (s.producer.PDoneLock? || s.producer.PDoneSet? || s.producer.PBroadcast? || s.producer.PDoneUnlock? || s.producer.PExit? ==>
          s.made == |items|)
    && (s.done <==> s.producer.PBroadcast? || s.producer.PDoneUnlock? || s.producer.PExit?)
    && (s.producer == PPut ==> s.count < |s.buffer|)
  }

  ghost predicate ConsumerOk(s: State, c: Consumer) {
    && (c == CGet ==> s.count > 0)
    && (c == CQuit || c == CExit ==> s.done && s.count == 0)
    && (c.CSignal? || c.CUnlock? ==> c.v >= 0)
  }

  predicate AllWait(consumers: seq<Consumer>) {
    forall k :: 0 <= k < |consumers| ==> consumers[k] == CWait
  }

  predicate Signalling(consumers: seq<Consumer>) {
    exists k :: 0 <= k < |consumers| && consumers[k].CSignal?
  }

  /** No wakeup is lost:
      - the consumers are all asleep only while the buffer is empty, or its signal is due;
      - nobody is asleep once the broadcast is out;
      - the producer is asleep only while the buffer is full, or a consumer's signal is due. */
  ghost predicate NoLostWakeup(s: State) {
    && (AllWait(s.consumers) && s.consumers != [] && s.producer != PSignal ==> s.count == 0)
    && (s.producer == PDoneUnlock || s.producer == PExit ==> NobodyWaits(s))
    && (s.producer == PWait ==> s.count == |s.buffer| || Signalling(s.consumers))
  }

  ghost predicate Inv(items: seq<int>, s: State) {
    && Fifo(items, s)
    && Exclusive(s)
    && ProducerOk(items, s)
    && (forall k :: 0 <= k < |s.consumers| ==> ConsumerOk(s, s.consumers[k]))
    && NoLostWakeup(s)
  }

  ghost predicate NonNegative(items: seq<int>) {
    forall i :: 0 <= i < |items| ==> items[i] >= 0
  }

  lemma InitInv(items: seq<int>, size: nat, consumers: nat)
    requires size > 0
    ensures Inv(items, Init(items, size, consumers))
  {
    var s := Init(items, size, consumers);
    assert Values(s.taken) + Contents(s.buffer, 0, 0) == [];
  }

  // ------------------------------------------------------- every step keeps it

  lemma PutKeepsFifo(items: seq<int>, s: State)
    requires Fifo(items, s) && s.made < |items| && s.count < |s.buffer|
    ensures Fifo(items, PutItem(items, s))
  {
    PutAppends(s.buffer, s.outIdx, s.count, items[s.made]);
    EndMoves(s.outIdx, s.count, |s.buffer|);
    assert items[..s.made + 1] == items[..s.made] + [items[s.made]];
  }

  lemma TakeKeepsFifo(items: seq<int>, s: State, k: nat)
    requires Fifo(items, s) && s.count > 0
    ensures Fifo(items, TakeItem(s, k))
    ensures |s.taken| < |items| && s.buffer[s.outIdx] == items[|s.taken|]
  {
    TakeRemoves(s.buffer, s.outIdx, s.count);
    EndMoves(s.outIdx, s.count, |s.buffer|);
    var v := s.buffer[s.outIdx];
    assert Values(TakeItem(s, k).taken) == Values(s.taken) + [v];
    assert items[..s.made][|s.taken|] == v;
  }

  /** Steps that do not touch the buffer. */
  ghost predicate SameBuffer(s: State, s': State) {
    && s'.buffer == s.buffer && s'.count == s.count && s'.inIdx == s.inIdx && s'.outIdx == s.outIdx
    && s'.made == s.made && s'.taken == s.taken
  }

  lemma OthersSpareBuffer(items: seq<int>, s: State, a: Action)
    requires Step(items, s, a).Some? && !(a == P && s.producer == PPut) && !(a.C? && s.consumers[a.k] == CGet)
    ensures SameBuffer(s, Step(items, s, a).value)
  {
  }

  lemma StepKeepsFifo(items: seq<int>, s: State, a: Action)
    requires Inv(items, s) && Step(items, s, a).Some?
    ensures Fifo(items, Step(items, s, a).value)
  {
    if a == P && s.producer == PPut {
      PutKeepsFifo(items, s);
    } else if a.C? && s.consumers[a.k] == CGet {
      TakeKeepsFifo(items, s, a.k);
    } else {
      OthersSpareBuffer(items, s, a);
    }
  }

  lemma ProducerKeepsExclusive(items: seq<int>, s: State)
    requires Exclusive(s) && ProducerStep(items, s).Some?
    ensures Exclusive(ProducerStep(items, s).value)
  {
  }

  lemma ConsumerKeepsExclusive(s: State, k: nat)
    requires Exclusive(s) && ConsumerStep(s, k).Some?
    ensures Exclusive(ConsumerStep(s, k).value)
  {
    assert ConsumerHolds(s.consumers[k]) <==> s.mutex == TheConsumer(k);
  }

  lemma StepKeepsExclusive(items: seq<int>, s: State, a: Action)
    requires Exclusive(s) && Step(items, s, a).Some?
    ensures Exclusive(Step(items, s, a).value)
  {
    match a
    case P => ProducerKeepsExclusive(items, s);
    case C(k) => ConsumerKeepsExclusive(s, k);
    case _ =>
  }

  lemma ProducerKeepsOk(items: seq<int>, s: State)
    requires Inv(items, s) && ProducerStep(items, s).Some?
    ensures ProducerOk(items, ProducerStep(items, s).value)
  {
  }

  lemma ConsumerKeepsProducerOk(items: seq<int>, s: State, k: nat)
    requires ProducerOk(items, s) && Exclusive(s) && ConsumerStep(s, k).Some?
    ensures ProducerOk(items, ConsumerStep(s, k).value)
  {
    assert ConsumerHolds(s.consumers[k]) <==> s.mutex == TheConsumer(k);
  }

  lemma StepKeepsProducerOk(items: seq<int>, s: State, a: Action)
    requires Inv(items, s) && Step(items, s, a).Some?
    ensures ProducerOk(items, Step(items, s, a).value)
  {
    match a
    case P => ProducerKeepsOk(items, s);
    case C(k) => ConsumerKeepsProducerOk(items, s, k);
    case _ =>
  }

  lemma ProducerKeepsConsumerOk(items: seq<int>, s: State, k: nat)
    requires Inv(items, s) && ProducerStep(items, s).Some? && k < |s.consumers|
    ensures var s' := ProducerStep(items, s).value; |s'.consumers| == |s.consumers| && ConsumerOk(s', s'.consumers[k])
  {
    assert ConsumerOk(s, s.consumers[k]);
  }

  lemma ConsumerKeepsOwnOk(items: seq<int>, s: State, k: nat)
    requires Inv(items, s) && NonNegative(items) && ConsumerStep(s, k).Some?
    ensures var s' := ConsumerStep(s, k).value; |s'.consumers| == |s.consumers| && ConsumerOk(s', s'.consumers[k])
  {
    assert ConsumerOk(s, s.consumers[k]);
    if s.consumers[k] == CGet {
      TakeKeepsFifo(items, s, k);
    }
  }

  lemma ConsumerKeepsOtherOk(items: seq<int>, s: State, j: nat, k: nat)
    requires Inv(items, s) && ConsumerStep(s, j).Some? && k < |s.consumers| && j != k
    ensures var s' := ConsumerStep(s, j).value; |s'.consumers| == |s.consumers| && ConsumerOk(s', s'.consumers[k])
  {
    assert ConsumerOk(s, s.consumers[k]);
    assert ConsumerHolds(s.consumers[k]) <==> s.mutex == TheConsumer(k);
    assert ConsumerHolds(s.consumers[j]) <==> s.mutex == TheConsumer(j);
  }

  lemma ConsumerKeepsConsumerOk(items: seq<int>, s: State, j: nat, k: nat)
    requires Inv(items, s) && NonNegative(items) && ConsumerStep(s, j).Some? && k < |s.consumers|
    ensures var s' := ConsumerStep(s, j).value; |s'.consumers| == |s.consumers| && ConsumerOk(s', s'.consumers[k])
  {
    if j == k {
      ConsumerKeepsOwnOk(items, s, k);
    } else {
      ConsumerKeepsOtherOk(items, s, j, k);
    }
  }

  lemma StepKeepsConsumerOk(items: seq<int>, s: State, a: Action, k: nat)
    requires Inv(items, s) && NonNegative(items) && Step(items, s, a).Some? && k < |s.consumers|
    ensures var s' := Step(items, s, a).value; |s'.consumers| == |s.consumers| && ConsumerOk(s', s'.consumers[k])
  {
    assert ConsumerOk(s, s.consumers[k]);
    match a
    case P => ProducerKeepsConsumerOk(items, s, k);
    case C(j) => ConsumerKeepsConsumerOk(items, s, j, k);
    case _ =>
  }

  lemma ProducerKeepsWakeups(items: seq<int>, s: State)
    requires Inv(items, s) && ProducerStep(items, s).Some?
    ensures NoLostWakeup(ProducerStep(items, s).value)
  {
    if s.consumers != [] {
      var first := s.consumers[0];
      assert ProducerStep(items, s).value.consumers[0] == if s.producer == PBroadcast && first == CWait then CWoken else first;
    }
  }

  /** Waking one consumer, for a reason or not. */
  lemma WakeKeepsWakeups(s: State, k: nat)
    requires NoLostWakeup(s) && k < |s.consumers| && s.consumers[k] == CWait
    ensures NoLostWakeup(At(s, k, CWoken))
  {
    var s' := At(s, k, CWoken);
    assert s'.consumers[k] == CWoken;
    if Signalling(s.consumers) {
      var j :| 0 <= j < |s.consumers| && s.consumers[j].CSignal?;
      assert s'.consumers[j].CSignal?;
    }
  }

  lemma ConsumerKeepsWakeups(items: seq<int>, s: State, k: nat)
    requires Inv(items, s) && ConsumerStep(s, k).Some?
    ensures NoLostWakeup(ConsumerStep(s, k).value)
  {
    var s' := ConsumerStep(s, k).value;
    assert ConsumerOk(s, s.consumers[k]);
    assert ConsumerHolds(s.consumers[k]) <==> s.mutex == TheConsumer(k);
    assert AllWait(s'.consumers) ==> s'.consumers[k] == CWait;
    if s.consumers[k] == CGet {
      assert s'.consumers[k].CSignal?;
    } else if Signalling(s.consumers) && s.producer == PWait {
      var j :| 0 <= j < |s.consumers| && s.consumers[j].CSignal?;
      assert ConsumerHolds(s.consumers[j]) <==> s.mutex == TheConsumer(j);
    }
  }

  lemma StepKeepsWakeups(items: seq<int>, s: State, a: Action)
    requires Inv(items, s) && Step(items, s, a).Some?
    ensures NoLostWakeup(Step(items, s, a).value)
  {
    match a
    case P => ProducerKeepsWakeups(items, s);
    case C(k) => ConsumerKeepsWakeups(items, s, k);
    case Wake(k) => WakeKeepsWakeups(s, k);
      assert At(s, k, CWoken).consumers[k] == CWoken;
    case SpuriousC(k) => WakeKeepsWakeups(s, k);
    case SpuriousP =>
  }

  lemma StepKeepsInv(items: seq<int>, s: State, a: Action)
    requires Inv(items, s) && NonNegative(items) && Step(items, s, a).Some?
    ensures Inv(items, Step(items, s, a).value)
  {
    StepKeepsFifo(items, s, a);
    StepKeepsExclusive(items, s, a);
    StepKeepsProducerOk(items, s, a);
    StepKeepsWakeups(items, s, a);
    var s' := Step(items, s, a).value;
    forall k | 0 <= k < |s'.consumers| ensures ConsumerOk(s', s'.consumers[k]) {
      StepKeepsConsumerOk(items, s, a, k);
    }
  }

  lemma RunInv(items: seq<int>, size: nat, consumers: nat, schedule: seq<Action>)
    requires size > 0 && NonNegative(items) && Valid(Monitor(items), Init(items, size, consumers), schedule)
    ensures var s := Final(Monitor(items), Init(items, size, consumers), schedule);
            Inv(items, s) && |s.consumers| == consumers && |s.buffer| == size
  {
    InitInv(items, size, consumers);
    var inv := s => Inv(items, s) && |s.consumers| == consumers && |s.buffer| == size;
    forall s, a | inv(s) && Monitor(items)(s, a).Some? ensures inv(Monitor(items)(s, a).value) {
      StepKeepsInv(items, s, a);
    }
    RunKeeps(Monitor(items), inv, Init(items, size, consumers), schedule);
  }

  // --------------------------------------------------- what the consumers are given

  /** The consumer has taken a value and not returned it yet. */
  predicate InHand(c: Consumer) { c.CSignal? || c.CUnlock? }

  /** It is the value taken last. */
  ghost predicate HandsOver(s: State) {
    forall k :: 0 <= k < |s.consumers| && InHand(s.consumers[k]) ==>
      s.taken != [] && s.taken[|s.taken| - 1] == Take(k, s.consumers[k].v)
  }

  lemma ConsumerKeepsHandsOver(s: State, k: nat, j: nat)
    requires Exclusive(s) && HandsOver(s) && ConsumerStep(s, k).Some? && j < |s.consumers|
    ensures var s' := ConsumerStep(s, k).value;
            |s'.consumers| == |s.consumers| &&
            (InHand(s'.consumers[j]) ==> s'.taken != [] && s'.taken[|s'.taken| - 1] == Take(j, s'.consumers[j].v))
  {
    assert ConsumerHolds(s.consumers[k]) <==> s.mutex == TheConsumer(k);
    assert ConsumerHolds(s.consumers[j]) <==> s.mutex == TheConsumer(j);
  }

  lemma StepKeepsHandsOver(items: seq<int>, s: State, a: Action)
    requires Exclusive(s) && HandsOver(s) && Step(items, s, a).Some?
    ensures HandsOver(Step(items, s, a).value)
  {
    if a.C? {
      forall j | 0 <= j < |s.consumers| && InHand(ConsumerStep(s, a.k).value.consumers[j])
        ensures var s' := ConsumerStep(s, a.k).value;
                s'.taken != [] && s'.taken[|s'.taken| - 1] == Take(j, s'.consumers[j].v)
      {
        ConsumerKeepsHandsOver(s, a.k, j);
      }
    } else {
      assert Step(items, s, a).value.taken == s.taken;
    }
  }

  /** What `consume` returns when the step is the end of a call that took a value. */
  function Returned(s: State, a: Action): seq<Take> {
    if a.C? && a.k < |s.consumers| && s.consumers[a.k].CUnlock? then [Take(a.k, s.consumers[a.k].v)] else []
  }

  /** The values taken, without one that its taker has not returned yet. */
  function Settled(s: State): seq<Take> {
    if s.taken != [] && s.mutex.TheConsumer? && s.mutex.k < |s.consumers| && InHand(s.consumers[s.mutex.k])
    then s.taken[..|s.taken| - 1] else s.taken
  }

  lemma ConsumerSettles(s: State, k: nat)
    requires Exclusive(s) && HandsOver(s) && ConsumerStep(s, k).Some?
    ensures Settled(ConsumerStep(s, k).value) == Settled(s) + Returned(s, C(k))
  {
    assert ConsumerHolds(s.consumers[k]) <==> s.mutex == TheConsumer(k);
  }

  lemma StepSettles(items: seq<int>, s: State, a: Action)
    requires Exclusive(s) && HandsOver(s) && Step(items, s, a).Some?
    ensures Settled(Step(items, s, a).value) == Settled(s) + Returned(s, a)
  {
    if a.C? {
      ConsumerSettles(s, a.k);
    } else if s.mutex.TheConsumer? {
      assert ConsumerHolds(s.consumers[s.mutex.k]);
    }
  }

  ghost function Handing(items: seq<int>): State -> bool { s => Inv(items, s) && HandsOver(s) }

  lemma MonitorSettles(items: seq<int>)
    requires NonNegative(items)
    ensures Collects(Monitor(items), Handing(items), Returned, Settled)
  {
    forall s, a | Inv(items, s) && HandsOver(s) && Step(items, s, a).Some?
      ensures var s' := Step(items, s, a).value;
              Inv(items, s') && HandsOver(s') && Settled(s') == Settled(s) + Returned(s, a)
    {
      StepKeepsInv(items, s, a);
      StepKeepsHandsOver(items, s, a);
      StepSettles(items, s, a);
    }
  }

  lemma RunSettles(items: seq<int>, size: nat, consumers: nat, schedule: seq<Action>)
    requires size > 0 && NonNegative(items) && Valid(Monitor(items), Init(items, size, consumers), schedule)
    ensures Settled(Final(Monitor(items), Init(items, size, consumers), schedule))
         == Outputs(Monitor(items), Returned, Init(items, size, consumers), schedule)
  {
    InitInv(items, size, consumers);
    MonitorSettles(items);
    RunCollects(Monitor(items), Handing(items), Returned, Settled, Init(items, size, consumers), schedule);
  }

  lemma SettledValues(items: seq<int>, s: State)
    requires Fifo(items, s)
    ensures |Settled(s)| <= |items| && Values(Settled(s)) == items[..|Settled(s)|]
  {
    assert Values(s.taken) == items[..s.made][..|s.taken|];
  }

  /** In every run the calls of `consume` return the values produced, each once and in order, whichever
      consumers make them. */
  lemma ReturnsInOrder(items: seq<int>, size: nat, consumers: nat, schedule: seq<Action>)
    requires size > 0 && NonNegative(items) && Valid(Monitor(items), Init(items, size, consumers), schedule)
    ensures var returned := Outputs(Monitor(items), Returned, Init(items, size, consumers), schedule);
            |returned| <= |items| && Values(returned) == items[..|returned|]
  {
    RunInv(items, size, consumers, schedule);
    RunSettles(items, size, consumers, schedule);
    SettledValues(items, Final(Monitor(items), Init(items, size, consumers), schedule));
  }

  // --------------------------------------------------- the calls on their own

  lemma Reseat(s: State, k: nat, pc: Consumer, pc': Consumer)
    requires k < |s.consumers|
    ensures At(At(s, k, pc), k, pc') == At(s, k, pc')
  {
    assert s.consumers[k := pc][k := pc'] == s.consumers[k := pc'];
  }

  /** `produce` with room: two steps take the producer into the section. */
  lemma ProduceEnters(items: seq<int>, s: State)
    requires (s.producer == PLock || s.producer == PWoken) && s.mutex == Nobody && s.count < |s.buffer|
    ensures Valid(Monitor(items), s, [P, P])
    ensures Final(Monitor(items), s, [P, P]) == s.(mutex := TheProducer, producer := PPut)
  {
    TwoSteps(Monitor(items), s, P, s.(mutex := TheProducer, producer := PTest), P, s.(mutex := TheProducer, producer := PPut));
  }

  /** The next stores the item at the input index. */
  lemma ProduceStores(items: seq<int>, s: State)
    requires s.producer == PPut && s.inIdx < |s.buffer| && s.made < |items|
    ensures Monitor(items)(s, P) ==
            Some(s.(buffer := s.buffer[s.inIdx := items[s.made]], inIdx := (s.inIdx + 1) % |s.buffer|,
                    count := s.count + 1, made := s.made + 1, producer := PSignal))
  {
  }

  /** The given waiter is woken, or nobody. */
  function Signalled(s: State, waiter: Option<nat>): seq<Consumer>
    requires waiter.Some? ==> waiter.value < |s.consumers|
  {
    if waiter.None? then s.consumers else s.consumers[waiter.value := CWoken]
  }

  /** Two more steps wake the given waiter, or nobody if nobody waits, and unlock. */
  lemma ProduceLeaves(items: seq<int>, s: State, waiter: Option<nat>)
    requires s.producer == PSignal
    requires match waiter case None => NobodyWaits(s) case Some(k) => k < |s.consumers| && s.consumers[k] == CWait
    ensures var schedule := [if waiter.None? then P else Wake(waiter.value), P];
            && Valid(Monitor(items), s, schedule)
            && Final(Monitor(items), s, schedule)
            == s.(mutex := Nobody, consumers := Signalled(s, waiter), producer := if s.made < |items| then PLock else PDoneLock)
  {
    var s1 := s.(consumers := Signalled(s, waiter), producer := PUnlock);
    var s2 := s1.(mutex := Nobody, producer := if s.made < |items| then PLock else PDoneLock);
    TwoSteps(Monitor(items), s, if waiter.None? then P else Wake(waiter.value), s1, P, s2);
  }

  /** `produce` with the buffer full: the producer is asleep after two steps and the mutex free. */
  lemma ProduceWaits(items: seq<int>, s: State)
    requires (s.producer == PLock || s.producer == PWoken) && s.mutex == Nobody && s.count == |s.buffer|
    ensures Valid(Monitor(items), s, [P, P]) && Final(Monitor(items), s, [P, P]) == s.(producer := PWait)
  {
    TwoSteps(Monitor(items), s, P, s.(mutex := TheProducer, producer := PTest), P, s.(producer := PWait));
  }

  /** The end of the producer: four steps set `done` and wake everybody. */
  lemma FinishAlone(items: seq<int>, s: State)
    requires s.producer == PDoneLock && s.mutex == Nobody
    ensures Valid(Monitor(items), s, [P, P, P, P])
    ensures Final(Monitor(items), s, [P, P, P, P]) == s.(done := true, consumers := WakeAll(s.consumers), producer := PExit)
  {
    var s1 := s.(mutex := TheProducer, producer := PDoneSet);
    var s2 := s1.(done := true, producer := PBroadcast);
    var s3 := s2.(consumers := WakeAll(s.consumers), producer := PDoneUnlock);
    FourSteps(Monitor(items), s, P, s1, P, s2, P, s3, P, s3.(mutex := Nobody, producer := PExit));
  }

  /** `consume` with something there: two steps take the consumer into the section. */
  lemma ConsumeEnters(items: seq<int>, s: State, k: nat)
    requires k < |s.consumers| && (s.consumers[k] == CLock || s.consumers[k] == CWoken) && s.mutex == Nobody && s.count > 0
    ensures Valid(Monitor(items), s, [C(k), C(k)])
    ensures Final(Monitor(items), s, [C(k), C(k)]) == At(s, k, CGet).(mutex := TheConsumer(k))
  {
    var held := s.(mutex := TheConsumer(k));
    Reseat(held, k, CTest, CGet);
    TwoSteps(Monitor(items), s, C(k), At(held, k, CTest), C(k), At(held, k, CGet));
  }

  /** The next takes the value at the output index. */
  lemma ConsumeTakes(items: seq<int>, s: State, k: nat)
    requires k < |s.consumers| && s.consumers[k] == CGet && s.count > 0 && s.outIdx < |s.buffer|
    ensures var v := s.buffer[s.outIdx];
            Monitor(items)(s, C(k)) ==
            Some(s.(outIdx := (s.outIdx + 1) % |s.buffer|, count := s.count - 1, taken := s.taken + [Take(k, v)],
                    consumers := s.consumers[k := CSignal(v)]))
  {
  }

  /** Two more wake a sleeping producer, unlock and return the value; a negative one ends the consumer. */
  lemma ConsumeLeaves(items: seq<int>, s: State, k: nat, v: int)
    requires k < |s.consumers| && s.consumers[k] == CSignal(v)
    ensures Valid(Monitor(items), s, [C(k), C(k)])
    ensures Final(Monitor(items), s, [C(k), C(k)])
         == At(s, k, if v >= 0 then CLock else CExit).(
              mutex := Nobody, producer := if s.producer == PWait then PWoken else s.producer)
  {
    var woken := s.(producer := if s.producer == PWait then PWoken else s.producer);
    Reseat(woken, k, CUnlock(v), if v >= 0 then CLock else CExit);
    TwoSteps(Monitor(items), s, C(k), At(woken, k, CUnlock(v)),
             C(k), At(woken, k, if v >= 0 then CLock else CExit).(mutex := Nobody));
  }

  /** `consume` with nothing there: the consumer is asleep after two steps, or has exited after three if the
      producer is done. */
  lemma ConsumeNothing(items: seq<int>, s: State, k: nat)
    requires k < |s.consumers| && (s.consumers[k] == CLock || s.consumers[k] == CWoken) && s.mutex == Nobody && s.count == 0
    ensures var schedule := if s.done then [C(k), C(k), C(k)] else [C(k), C(k)];
            && Valid(Monitor(items), s, schedule)
            && Final(Monitor(items), s, schedule) == s.(consumers := s.consumers[k := if s.done then CExit else CWait])
  {
    var held := s.(mutex := TheConsumer(k));
    if s.done {
      Reseat(held, k, CTest, CQuit);
      Reseat(held, k, CQuit, CExit);
      ThreeSteps(Monitor(items), s, C(k), At(held, k, CTest), C(k), At(held, k, CQuit), C(k), At(s, k, CExit));
    } else {
      Reseat(held, k, CTest, CWait);
      TwoSteps(Monitor(items), s, C(k), At(held, k, CTest), C(k), At(s, k, CWait));
    }
  }

  /** Who waits for what: for the mutex while another thread has it, and for a wakeup while asleep; a signal
      wakes any waiter there is, and an unprovoked wakeup is possible exactly while asleep. */
  lemma WaitsExact(items: seq<int>, s: State, k: nat)
    requires Inv(items, s) && k < |s.consumers|
    ensures Monitor(items)(s, C(k)).None? <==>
              || s.consumers[k] == CWait || s.consumers[k] == CExit
              || ((s.consumers[k] == CLock || s.consumers[k] == CWoken) && s.mutex != Nobody)
    ensures Monitor(items)(s, P).None? <==>
              || s.producer == PWait || s.producer == PExit
              || ((s.producer == PLock || s.producer == PWoken || s.producer == PDoneLock) && s.mutex != Nobody)
              || (s.producer == PSignal && exists j :: 0 <= j < |s.consumers| && s.consumers[j] == CWait)
    ensures Monitor(items)(s, Wake(k)).Some? <==> s.producer == PSignal && s.consumers[k] == CWait
    ensures Monitor(items)(s, SpuriousC(k)).Some? <==> s.consumers[k] == CWait
    ensures Monitor(items)(s, SpuriousP).Some? <==> s.producer == PWait
  {
    assert ConsumerOk(s, s.consumers[k]);
  }

  // ------------------------------------------------------------ no deadlock

  lemma HolderMoves(items: seq<int>, s: State)
    requires Inv(items, s) && s.mutex != Nobody
    ensures !Blocked(items, s)
  {
    match s.mutex
    case TheProducer =>
      if s.producer == PSignal && !NobodyWaits(s) {
        var k :| 0 <= k < |s.consumers| && s.consumers[k] == CWait;
        assert Step(items, s, Wake(k)).Some?;
      } else {
        assert Step(items, s, P).Some?;
      }
    case TheConsumer(k) =>
      assert ConsumerOk(s, s.consumers[k]);
      assert Step(items, s, C(k)).Some?;
  }

  /** The producer cannot be asleep on a full buffer while all consumers are asleep on an empty one. */
  lemma SleepersMeet(items: seq<int>, s: State)
    requires Inv(items, s) && (s.consumers != [] || |items| <= |s.buffer|)
    requires s.mutex == Nobody
    requires forall k :: 0 <= k < |s.consumers| ==> s.consumers[k] == CWait || s.consumers[k] == CExit
    ensures s.producer != PWait
  {
    assert |Values(s.taken) + Contents(s.buffer, s.outIdx, s.count)| == s.made;
    forall k | 0 <= k < |s.consumers| ensures s.done || s.consumers[k] == CWait {
      assert ConsumerOk(s, s.consumers[k]);
    }
  }

  /** Nobody is ever left asleep: a reachable state in which no thread can move is one where
      all have exited, provided there is a consumer or the buffer holds everything. */
  lemma NoDeadlock(items: seq<int>, s: State)
    requires Inv(items, s) && (s.consumers != [] || |items| <= |s.buffer|)
    ensures Blocked(items, s) <==> Exited(s)
  {
    if s.mutex != Nobody {
      HolderMoves(items, s);
      if s.mutex.TheConsumer? {
        assert ConsumerHolds(s.consumers[s.mutex.k]);
      }
    } else if Blocked(items, s) {
      assert Step(items, s, P).None?;
      forall k | 0 <= k < |s.consumers| ensures s.consumers[k] == CWait || s.consumers[k] == CExit {
        assert Step(items, s, C(k)).None?;
      }
      SleepersMeet(items, s);
    }
  }

  // ------------------------------------------------------------ termination

  function ConsumerCost(c: Consumer): int {
    match c
    case CExit => 0
    case CQuit => 1
    case CWait => 1
    case CGet => 1
    case CTest => 2
    case CLock => 3
    case CWoken => 3
    case CUnlock(_) => 4
    case CSignal(_) => 7
  }

  function ProducerCost(p: Producer, consumers: nat): int {
    match p
    case PExit => 0
    case PDoneUnlock => 1
    case PBroadcast => 2 * consumers + 2
    case PDoneSet => 2 * consumers + 3
    case PDoneLock => 2 * consumers + 4
    case PWait => 2 * consumers + 5
    case PPut => 2 * consumers + 5
    case PTest => 2 * consumers + 6
    case PLock => 2 * consumers + 7
    case PWoken => 2 * consumers + 7
    case PUnlock => 2 * consumers + 8
    case PSignal => 2 * consumers + 11
  }

  /** An upper bound on the steps still to be made, not counting unprovoked wakeups. */
  function Work(items: seq<int>, s: State): int {
    14 * (|items| - s.made) + 7 * s.count + ProducerCost(s.producer, |s.consumers|) + Sum(ConsumerCost, s.consumers)
  }

  lemma {:induction false} WakeAllCost(consumers: seq<Consumer>)
    ensures Sum(ConsumerCost, WakeAll(consumers)) <= Sum(ConsumerCost, consumers) + 2 * |consumers|
  {
    if consumers != [] {
      assert WakeAll(consumers)[1..] == WakeAll(consumers[1..]);
      WakeAllCost(consumers[1..]);
    }
  }

  lemma ProducerWorks(items: seq<int>, s: State)
    requires Inv(items, s) && ProducerStep(items, s).Some?
    ensures Work(items, ProducerStep(items, s).value) < Work(items, s)
  {
    WakeAllCost(s.consumers);
  }

  /** What consumer k's step costs, the other consumers left out. */
  lemma ConsumerPays(s: State, k: nat)
    requires ConsumerStep(s, k).Some? && ConsumerOk(s, s.consumers[k])
    ensures var s' := ConsumerStep(s, k).value;
            && |s'.consumers| == |s.consumers| && s'.consumers == s.consumers[k := s'.consumers[k]] && s'.made == s.made
            && 7 * s'.count + ProducerCost(s'.producer, |s.consumers|) + ConsumerCost(s'.consumers[k])
               < 7 * s.count + ProducerCost(s.producer, |s.consumers|) + ConsumerCost(s.consumers[k])
  {
  }

  lemma ConsumerWorks(items: seq<int>, s: State, k: nat)
    requires Inv(items, s) && ConsumerStep(s, k).Some?
    ensures Work(items, ConsumerStep(s, k).value) < Work(items, s)
  {
    assert ConsumerOk(s, s.consumers[k]);
    ConsumerPays(s, k);
    SumUpdate(ConsumerCost, s.consumers, k, ConsumerStep(s, k).value.consumers[k]);
  }

  lemma StepWorks(items: seq<int>, s: State, a: Action)
    requires Inv(items, s) && Step(items, s, a).Some?
    ensures Work(items, Step(items, s, a).value) + 1 <= Work(items, s) + if Spurious(a) then 3 else 0
  {
    match a
    case P => ProducerWorks(items, s);
    case C(k) => ConsumerWorks(items, s, k);
    case Wake(k) => SumUpdate(ConsumerCost, s.consumers, k, CWoken);
    case SpuriousC(k) => SumUpdate(ConsumerCost, s.consumers, k, CWoken);
    case SpuriousP =>
  }

  lemma WorkNonNegative(items: seq<int>, s: State)
    requires Inv(items, s)
    ensures Work(items, s) >= 0
  {
    SumWithinNat(ConsumerCost, s.consumers);
  }

  lemma InitialWork(items: seq<int>, size: nat, consumers: nat)
    ensures Work(items, Init(items, size, consumers)) <= 14 * |items| + 5 * consumers + 7
  {
    SumWithin(ConsumerCost, Init(items, size, consumers).consumers, 3, 3);
  }

  lemma MonitorDrains(items: seq<int>)
    requires NonNegative(items)
    ensures Drains(Monitor(items), s => Inv(items, s), s => Work(items, s), Spurious, 3)
  {
    forall s, a | Inv(items, s) && Step(items, s, a).Some?
      ensures var s' := Step(items, s, a).value;
              && Inv(items, s') && 0 <= Work(items, s')
              && Work(items, s') + 1 <= Work(items, s) + if Spurious(a) then 3 else 0
    {
      StepKeepsInv(items, s, a);
      StepWorks(items, s, a);
      WorkNonNegative(items, Step(items, s, a).value);
    }
  }

  /** No run is longer than this, so with finitely many unprovoked wakeups every run ends. */
  lemma RunsAreBounded(items: seq<int>, size: nat, consumers: nat, schedule: seq<Action>)
    requires size > 0 && NonNegative(items) && Valid(Monitor(items), Init(items, size, consumers), schedule)
    ensures |schedule| <= 14 * |items| + 5 * consumers + 7 + 3 * Count(Spurious, schedule)
  {
    InitInv(items, size, consumers);
    InitialWork(items, size, consumers);
    WorkNonNegative(items, Init(items, size, consumers));
    MonitorDrains(items);
    RunDrains(Monitor(items), s => Inv(items, s), s => Work(items, s), Spurious, 3, Init(items, size, consumers), schedule);
  }

  /** When all have exited, everything has been taken and nothing is in anybody's hand. */
  lemma ExitedAll(items: seq<int>, s: State)
    requires Inv(items, s) && Exited(s) && s.consumers != []
    ensures Values(s.taken) == items && Settled(s) == s.taken
  {
    assert ConsumerOk(s, s.consumers[0]);
    assert Contents(s.buffer, s.outIdx, 0) == [];
    assert items[..|items|] == items;
  }

  /** Where a run ends: with a consumer, or room for everything, it ends only when all threads have
      exited; and with a consumer, the calls of `consume` have then returned everything produced, once
      and in order. */
  lemma RunsComplete(items: seq<int>, size: nat, consumers: nat, schedule: seq<Action>)
    requires size > 0 && NonNegative(items) && Valid(Monitor(items), Init(items, size, consumers), schedule)
    requires consumers > 0 || |items| <= size
    ensures var s := Final(Monitor(items), Init(items, size, consumers), schedule);
            && Fifo(items, s)
            && (Blocked(items, s) <==> Exited(s))
            && (Exited(s) && consumers > 0 ==>
                  Values(Outputs(Monitor(items), Returned, Init(items, size, consumers), schedule)) == items)
  {
    RunInv(items, size, consumers, schedule);
    RunSettles(items, size, consumers, schedule);
    var s := Final(Monitor(items), Init(items, size, consumers), schedule);
    NoDeadlock(items, s);
    if Exited(s) && consumers > 0 {
      ExitedAll(items, s);
    }
  }

  /** Without a consumer, more items than slots cannot all be put. */
  lemma NoConsumerNeverExits(items: seq<int>, size: nat, schedule: seq<Action>)
    requires size > 0 && NonNegative(items) && Valid(Monitor(items), Init(items, size, 0), schedule)
    requires |items| > size
    ensures !Exited(Final(Monitor(items), Init(items, size, 0), schedule))
  {
    var inv := s => Inv(items, s) && |s.consumers| == 0 && |s.buffer| == size && s.taken == [];
    InitInv(items, size, 0);
    forall s, a | inv(s) && Monitor(items)(s, a).Some? ensures inv(Monitor(items)(s, a).value) {
      StepKeepsInv(items, s, a);
    }
    RunKeeps(Monitor(items), inv, Init(items, size, 0), schedule);
    var s := Final(Monitor(items), Init(items, size, 0), schedule);
    assert |Values(s.taken) + Contents(s.buffer, s.outIdx, s.count)| == s.made;
  }

  lemma SomeRunStops(items: seq<int>, size: nat, consumers: nat) returns (schedule: seq<Action>)
    requires size > 0 && NonNegative(items)
    ensures Valid(Monitor(items), Init(items, size, consumers), schedule)
    ensures Blocked(items, Final(Monitor(items), Init(items, size, consumers), schedule))
  {
    InitInv(items, size, consumers);
    MonitorDrains(items);
    schedule := DrainedRun(Monitor(items), s => Inv(items, s), s => Work(items, s), Spurious, 3, Init(items, size, consumers));
    var s := Final(Monitor(items), Init(items, size, consumers), schedule);
    forall a | !Spurious(a) ensures Step(items, s, a).None? {
      assert Monitor(items)(s, a).None?;
    }
  }

  ghost predicate AlwaysExits(items: seq<int>, size: nat, consumers: nat) {
    forall schedule :: Valid(Monitor(items), Init(items, size, consumers), schedule) ==>
      var s := Final(Monitor(items), Init(items, size, consumers), schedule);
      Blocked(items, s) ==> Exited(s)
  }

  /** Every run that cannot go on has ended with all threads exited, exactly when there is a
      consumer or the buffer has room for everything. */
  lemma CompletionExact(items: seq<int>, size: nat, consumers: nat)
    requires size > 0 && NonNegative(items)
    ensures AlwaysExits(items, size, consumers) <==> consumers > 0 || |items| <= size
  {
    if consumers > 0 || |items| <= size {
      forall schedule | Valid(Monitor(items), Init(items, size, consumers), schedule)
        ensures var s := Final(Monitor(items), Init(items, size, consumers), schedule); Blocked(items, s) ==> Exited(s)
      {
        RunsComplete(items, size, consumers, schedule);
      }
    } else {
      var schedule := SomeRunStops(items, size, consumers);
      NoConsumerNeverExits(items, size, schedule);
    }
  }
}
