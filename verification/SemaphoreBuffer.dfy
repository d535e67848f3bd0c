/** labs/lab_23_mpmc_semaphore.c: any number of producers and consumers, two counting
    semaphores and a mutex around a circular buffer. */
module SemaphoreBuffer {
  import opened Runs
  import opened Ring
  import opened Sums

  datatype Role = Producer | Consumer

  /** Both loops wait for their semaphore, lock, make two accesses, unlock and post the other
      semaphore.  A producer's accesses are Fetch (`val=total_produced++`) and Store(val), a
      consumer's are Fetch (`val=buffer[out_i]`) and Store (`total_consumed++`). */
  datatype Pc = Wait | Lock | Fetch | Store(val: int) | Unlock | Post

  /** `left` is the number of loop iterations not completed yet. */
  datatype Worker = Worker(role: Role, left: nat, pc: Pc)

  /** `written` and `gets`, which no step reads, record how many values were stored and which
      were taken, in order. */
  datatype State = State(
    buffer: seq<int>, inI: nat, outI: nat, produced: nat, consumed: nat, empty: nat, full: nat,
    mutex: Option<nat>, workers: seq<Worker>, written: nat, gets: seq<int>)

  function Init(size: nat, producers: seq<nat>, consumers: seq<nat>): State {
    State(seq(size, _ => 0), 0, 0, 0, 0, size, 0, None,
          seq(|producers| + |consumers|, t requires 0 <= t < |producers| + |consumers| =>
            if t < |producers| then Worker(Producer, producers[t], Wait)
            else Worker(Consumer, consumers[t - |producers|], Wait)),
          0, [])
  }

  function At(s: State, t: nat, pc: Pc): State
    requires t < |s.workers|
  {
    s.(workers := s.workers[t := s.workers[t].(pc := pc)])
  }

  /** The first access: a producer draws its value, a consumer takes from the buffer. */
  function FetchStep(s: State, t: nat): Option<State>
    requires t < |s.workers|
  {
    if s.workers[t].role == Producer
    then Some(At(s, t, Store(s.produced)).(produced := s.produced + 1))
    else if s.outI < |s.buffer|
    then Some(At(s, t, Store(s.buffer[s.outI])).(outI := Slot(s.outI, 1, |s.buffer|), gets := s.gets + [s.buffer[s.outI]]))
    else None
  }

  /** The second access: a producer stores into the buffer, a consumer counts. */
  function StoreStep(s: State, t: nat, val: int): Option<State>
    requires t < |s.workers|
  {
    if s.workers[t].role == Consumer
    then Some(At(s, t, Unlock).(consumed := s.consumed + 1))
    else if s.inI < |s.buffer|
    then Some(At(s, t, Unlock).(buffer := s.buffer[s.inI := val], inI := Slot(s.inI, 1, |s.buffer|), written := s.written + 1))
    else None
  }

  /** Worker t's next step; None while it is blocked or when it has finished. */
  function Step(s: State, t: nat): (r: Option<State>)
    ensures r.Some? ==> t < |s.workers| == |r.value.workers|
  {
    if t >= |s.workers| then None
    else
      var w := s.workers[t];
      match w.pc
      case Wait =>
        if w.left == 0 then None
        else if w.role == Producer then
          if s.empty == 0 then None else Some(At(s, t, Lock).(empty := s.empty - 1))
        else
          if s.full == 0 then None else Some(At(s, t, Lock).(full := s.full - 1))
      case Lock => if s.mutex == None then Some(At(s, t, Fetch).(mutex := Some(t))) else None
      case Fetch => FetchStep(s, t)
      case Store(val) => StoreStep(s, t, val)
      case Unlock => Some(At(s, t, Post).(mutex := None))
      case Post =>
        if w.left == 0 then None
        else
          var s' := s.(workers := s.workers[t := Worker(w.role, w.left - 1, Wait)]);
          Some(if w.role == Producer then s'.(full := s.full + 1) else s'.(empty := s.empty + 1))
  }

  function Pool(): Machine<State, nat> { (s, t: nat) => Step(s, t) }

  ghost predicate Finished(s: State) {
    forall t :: 0 <= t < |s.workers| ==> s.workers[t].pc == Wait && s.workers[t].left == 0
  }

  // ---------------------------------------------------------------- counting

  /** A producer between taking an empty slot and filling it. */
  function Filling(w: Worker): int {
    if w.role == Producer && (w.pc.Lock? || w.pc.Fetch? || w.pc.Store?) then 1 else 0
  }

  /** A producer that has filled a slot but not posted it. */
  function Filled(w: Worker): int {
    if w.role == Producer && (w.pc.Unlock? || w.pc.Post?) then 1 else 0
  }

  /** A consumer between being granted a full slot and emptying it. */
  function Emptying(w: Worker): int {
    if w.role == Consumer && (w.pc.Lock? || w.pc.Fetch?) then 1 else 0
  }

  /** A consumer that has emptied a slot but not posted it. */
  function Emptied(w: Worker): int {
    if w.role == Consumer && (w.pc.Store? || w.pc.Unlock? || w.pc.Post?) then 1 else 0
  }

  function ToPut(w: Worker): int { if w.role == Producer then w.left - Filled(w) else 0 }

  function ToGet(w: Worker): int { if w.role == Consumer then w.left - Emptied(w) else 0 }

  function Drawn(w: Worker): int { if w.role == Producer && w.pc.Store? then 1 else 0 }

  function Uncounted(w: Worker): int { if w.role == Consumer && w.pc.Store? then 1 else 0 }

  /** Every slot is counted once: free or full by a semaphore, or in a thread's hands. */
  ghost predicate Balanced(s: State) {
    && s.written - |s.gets| == s.full + Sum(Filled, s.workers) + Sum(Emptying, s.workers)
    && |s.buffer| - (s.written - |s.gets|) == s.empty + Sum(Filling, s.workers) + Sum(Emptied, s.workers)
  }

  function UpTo(n: nat): seq<int> { seq(n, i => i) }

  /** The k-th value taken is k, and the ring holds the values not taken yet in order. */
  ghost predicate Numbered(s: State) {
    && |s.buffer| > 0 && s.outI < |s.buffer|
    && |s.gets| <= s.written <= |s.gets| + |s.buffer|
    && s.inI == Slot(s.outI, s.written - |s.gets|, |s.buffer|)
    && s.gets + Contents(s.buffer, s.outI, s.written - |s.gets|) == UpTo(s.written)
  }

  predicate Inside(pc: Pc) { pc.Fetch? || pc.Store? || pc.Unlock? }

  ghost predicate WorkerOk(s: State, t: nat)
    requires t < |s.workers|
  {
    var w := s.workers[t];
    && (Inside(w.pc) <==> s.mutex == Some(t))
    && (w.pc != Wait ==> w.left > 0)
    && (w.role == Producer && w.pc.Store? ==> w.pc.val == s.written)
    && (w.role == Consumer && w.pc.Store? ==> |s.gets| > 0 && w.pc.val == s.gets[|s.gets| - 1])
  }

  /** The totals printed at the end count what was stored and taken. */
  ghost predicate Counted(s: State) {
    && s.produced == s.written + Sum(Drawn, s.workers)
    && s.consumed == |s.gets| - Sum(Uncounted, s.workers)
  }

  ghost predicate Due(toPut: int, toGet: int, s: State) {
    s.written + Sum(ToPut, s.workers) == toPut && |s.gets| + Sum(ToGet, s.workers) == toGet
  }

  ghost predicate Inv(toPut: int, toGet: int, s: State) {
    && Balanced(s) && Numbered(s) && Counted(s) && Due(toPut, toGet, s)
    && (forall t :: 0 <= t < |s.workers| ==> WorkerOk(s, t))
    && (s.mutex.Some? ==> s.mutex.value < |s.workers|)
  }

  // ------------------------------------------------------- every step keeps it

  lemma StepMoves(s: State, t: nat)
    requires Step(s, t).Some?
    ensures var s' := Step(s, t).value; s'.workers == s.workers[t := s'.workers[t]]
  {
  }

  /** What a step changes in the books, slot by slot. */
  lemma StepBalances(s: State, t: nat)
    requires Step(s, t).Some? && WorkerOk(s, t)
    ensures var s' := Step(s, t).value; var w, w' := s.workers[t], s'.workers[t];
            && |s'.buffer| == |s.buffer|
            && (s'.written - |s'.gets|) - (s.written - |s.gets|)
                 == (s'.full + Filled(w') + Emptying(w')) - (s.full + Filled(w) + Emptying(w))
            && (s'.written - |s'.gets|) - (s.written - |s.gets|)
                 == (s.empty + Filling(w) + Emptied(w)) - (s'.empty + Filling(w') + Emptied(w'))
  {
  }

  lemma StepCounts(s: State, t: nat)
    requires Step(s, t).Some?
    ensures var s' := Step(s, t).value; var w, w' := s.workers[t], s'.workers[t];
            && s'.produced - s'.written - Drawn(w') == s.produced - s.written - Drawn(w)
            && |s'.gets| - s'.consumed - Uncounted(w') == |s.gets| - s.consumed - Uncounted(w)
  {
  }

  lemma StepKeepsBalanced(s: State, t: nat)
    requires Balanced(s) && t < |s.workers| && WorkerOk(s, t) && Step(s, t).Some?
    ensures Balanced(Step(s, t).value)
  {
    var w := Step(s, t).value.workers[t];
    StepMoves(s, t);
    StepBalances(s, t);
    SumUpdate(Filling, s.workers, t, w);
    SumUpdate(Filled, s.workers, t, w);
    SumUpdate(Emptying, s.workers, t, w);
    SumUpdate(Emptied, s.workers, t, w);
  }

  lemma StepKeepsDue(toPut: int, toGet: int, s: State, t: nat)
    requires Due(toPut, toGet, s) && t < |s.workers| && WorkerOk(s, t) && Step(s, t).Some?
    ensures Due(toPut, toGet, Step(s, t).value)
  {
    var w := Step(s, t).value.workers[t];
    StepMoves(s, t);
    SumUpdate(ToPut, s.workers, t, w);
    SumUpdate(ToGet, s.workers, t, w);
  }

  lemma StepKeepsCounted(s: State, t: nat)
    requires Counted(s) && Step(s, t).Some?
    ensures Counted(Step(s, t).value)
  {
    var w := Step(s, t).value.workers[t];
    StepMoves(s, t);
    StepCounts(s, t);
    SumUpdate(Drawn, s.workers, t, w);
    SumUpdate(Uncounted, s.workers, t, w);
  }

  /** A producer about to store has a free slot to store into. */
  lemma RoomToPut(s: State, t: nat)
    requires Balanced(s) && t < |s.workers| && Filling(s.workers[t]) == 1
    ensures s.written - |s.gets| < |s.buffer|
  {
    SumMember(Filling, s.workers, t);
    SumWithinNat(Emptied, s.workers);
  }

  /** A consumer about to take has a value to take. */
  lemma ValueToGet(s: State, t: nat)
    requires Balanced(s) && t < |s.workers| && Emptying(s.workers[t]) == 1
    ensures s.written - |s.gets| > 0
  {
    SumMember(Emptying, s.workers, t);
    SumWithinNat(Filled, s.workers);
  }

  lemma OthersSpareRing(s: State, t: nat)
    requires Step(s, t).Some?
    requires !(s.workers[t].role == Producer && s.workers[t].pc.Store?) && !(s.workers[t].role == Consumer && s.workers[t].pc.Fetch?)
    ensures var s' := Step(s, t).value;
            && s'.buffer == s.buffer && s'.inI == s.inI && s'.outI == s.outI
            && s'.written == s.written && s'.gets == s.gets
  {
  }

  lemma PutKeepsNumbered(s: State)
    requires Numbered(s) && s.written - |s.gets| < |s.buffer|
    ensures Numbered(s.(buffer := s.buffer[s.inI := s.written], inI := Slot(s.inI, 1, |s.buffer|), written := s.written + 1))
  {
    PutAppends(s.buffer, s.outI, s.written - |s.gets|, s.written);
    EndMoves(s.outI, s.written - |s.gets|, |s.buffer|);
    assert UpTo(s.written + 1) == UpTo(s.written) + [s.written];
  }

  lemma TakeKeepsNumbered(s: State)
    requires Numbered(s) && s.written - |s.gets| > 0
    ensures Numbered(s.(outI := Slot(s.outI, 1, |s.buffer|), gets := s.gets + [s.buffer[s.outI]]))
  {
    TakeRemoves(s.buffer, s.outI, s.written - |s.gets|);
    EndMoves(s.outI, s.written - |s.gets|, |s.buffer|);
  }

  lemma StepKeepsNumbered(toPut: int, toGet: int, s: State, t: nat)
    requires Inv(toPut, toGet, s) && Step(s, t).Some?
    ensures Numbered(Step(s, t).value)
  {
    var w := s.workers[t];
    assert WorkerOk(s, t);
    if w.role == Producer && w.pc.Store? {
      RoomToPut(s, t);
      PutKeepsNumbered(s);
    } else if w.role == Consumer && w.pc.Fetch? {
      ValueToGet(s, t);
      TakeKeepsNumbered(s);
    } else {
      OthersSpareRing(s, t);
    }
  }

  /** The mutex holder is the only one with a drawn value, so a fresh draw is the next number. */
  lemma DrawnAlone(toPut: int, toGet: int, s: State, t: nat)
    requires Inv(toPut, toGet, s) && t < |s.workers| && s.workers[t].pc.Fetch?
    ensures s.produced == s.written
  {
    forall u | 0 <= u < |s.workers| ensures Drawn(s.workers[u]) == 0 {
      assert WorkerOk(s, t) && WorkerOk(s, u);
    }
    SumWithin(Drawn, s.workers, 0, 0);
  }

  lemma StepKeepsWorkerOk(toPut: int, toGet: int, s: State, t: nat, u: nat)
    requires Inv(toPut, toGet, s) && Step(s, t).Some? && u < |s.workers|
    ensures WorkerOk(Step(s, t).value, u)
  {
    assert WorkerOk(s, t) && WorkerOk(s, u);
    if s.workers[t].role == Producer && s.workers[t].pc.Fetch? {
      DrawnAlone(toPut, toGet, s, t);
    }
  }

  lemma StepKeepsInv(toPut: int, toGet: int, s: State, t: nat)
    requires Inv(toPut, toGet, s) && Step(s, t).Some?
    ensures Inv(toPut, toGet, Step(s, t).value)
  {
    assert WorkerOk(s, t);
    StepKeepsBalanced(s, t);
    StepKeepsDue(toPut, toGet, s, t);
    StepKeepsCounted(s, t);
    StepKeepsNumbered(toPut, toGet, s, t);
    forall u | 0 <= u < |s.workers| ensures WorkerOk(Step(s, t).value, u) {
      StepKeepsWorkerOk(toPut, toGet, s, t, u);
    }
  }

  function Quota(n: nat): int { n }

  function Ready(role: Role, quotas: seq<nat>): seq<Worker> {
    seq(|quotas|, t requires 0 <= t < |quotas| => Worker(role, quotas[t], Wait))
  }

  lemma InitDue(producers: seq<nat>, consumers: seq<nat>)
    ensures var ws := Ready(Producer, producers) + Ready(Consumer, consumers);
            Sum(ToPut, ws) == Sum(Quota, producers) && Sum(ToGet, ws) == Sum(Quota, consumers)
  {
    var ps, cs := Ready(Producer, producers), Ready(Consumer, consumers);
    SumConcat(ToPut, ps, cs);
    SumConcat(ToGet, ps, cs);
    SumPointwise(ToPut, ps, Quota, producers);
    SumWithin(ToPut, cs, 0, 0);
    SumPointwise(ToGet, cs, Quota, consumers);
    SumWithin(ToGet, ps, 0, 0);
  }

  lemma NoneInFlight(ws: seq<Worker>)
    requires forall t :: 0 <= t < |ws| ==> ws[t].pc == Wait
    ensures Sum(Filling, ws) == Sum(Filled, ws) == Sum(Emptying, ws) == Sum(Emptied, ws) == 0
    ensures Sum(Drawn, ws) == Sum(Uncounted, ws) == 0
  {
    SumWithin(Filling, ws, 0, 0);
    SumWithin(Filled, ws, 0, 0);
    SumWithin(Emptying, ws, 0, 0);
    SumWithin(Emptied, ws, 0, 0);
    SumWithin(Drawn, ws, 0, 0);
    SumWithin(Uncounted, ws, 0, 0);
  }

  lemma InitInv(size: nat, producers: seq<nat>, consumers: seq<nat>)
    requires size > 0
    ensures Inv(Sum(Quota, producers), Sum(Quota, consumers), Init(size, producers, consumers))
  {
    var s := Init(size, producers, consumers);
    assert s.workers == Ready(Producer, producers) + Ready(Consumer, consumers);
    NoneInFlight(s.workers);
    InitDue(producers, consumers);
    assert s.gets + Contents(s.buffer, 0, 0) == UpTo(0);
  }

  lemma RunInv(size: nat, producers: seq<nat>, consumers: seq<nat>, schedule: seq<nat>)
    requires size > 0 && Valid(Pool(), Init(size, producers, consumers), schedule)
    ensures var s := Final(Pool(), Init(size, producers, consumers), schedule);
            Inv(Sum(Quota, producers), Sum(Quota, consumers), s) && |s.buffer| == size
  {
    var toPut, toGet := Sum(Quota, producers), Sum(Quota, consumers);
    InitInv(size, producers, consumers);
    var inv := s => Inv(toPut, toGet, s) && |s.buffer| == size;
    forall s, t: nat | inv(s) && Pool()(s, t).Some? ensures inv(Pool()(s, t).value) {
      StepKeepsInv(toPut, toGet, s, t);
    }
    RunKeeps(Pool(), inv, Init(size, producers, consumers), schedule);
  }

  /** In every reachable state: the semaphores and the threads in flight account for every slot
      exactly once, an unread slot is never overwritten, an unwritten one never read, and the
      k-th get returned k. */
  lemma Conservation(size: nat, producers: seq<nat>, consumers: seq<nat>, schedule: seq<nat>)
    requires size > 0 && Valid(Pool(), Init(size, producers, consumers), schedule)
    ensures var s := Final(Pool(), Init(size, producers, consumers), schedule);
            && s.empty + s.full + Sum(Filling, s.workers) + Sum(Filled, s.workers)
                 + Sum(Emptying, s.workers) + Sum(Emptied, s.workers) == size
            && Numbered(s)
            && (forall k :: 0 <= k < |s.gets| ==> s.gets[k] == k)
            && (forall t :: 0 <= t < |s.workers| ==>
                  && (Filling(s.workers[t]) == 1 ==> s.written - |s.gets| < size)
                  && (Emptying(s.workers[t]) == 1 ==> s.written - |s.gets| > 0))
  {
    RunInv(size, producers, consumers, schedule);
    var s := Final(Pool(), Init(size, producers, consumers), schedule);
    forall k | 0 <= k < |s.gets| ensures s.gets[k] == k {
      assert UpTo(s.written)[k] == k;
    }
    forall t | 0 <= t < |s.workers|
      ensures Filling(s.workers[t]) == 1 ==> s.written - |s.gets| < size
      ensures Emptying(s.workers[t]) == 1 ==> s.written - |s.gets| > 0
    {
      if Filling(s.workers[t]) == 1 {
        RoomToPut(s, t);
      }
      if Emptying(s.workers[t]) == 1 {
        ValueToGet(s, t);
      }
    }
  }

  // --------------------------------------------------- an iteration on its own

  function Entering(s: State, t: nat, pc: Pc): State
    requires t < |s.workers|
  {
    At(s, t, pc).(mutex := Some(t))
  }

  lemma PutFetches(s: State, t: nat)
    requires t < |s.workers| && s.workers[t].role == Producer && s.workers[t].pc == Fetch
    ensures Pool()(s, t) == Some(At(s, t, Store(s.produced)).(produced := s.produced + 1))
  {
  }

  lemma PutEnters(s: State, t: nat)
    requires t < |s.workers| && s.workers[t].role == Producer && s.workers[t].pc == Wait && s.workers[t].left > 0
    requires s.empty > 0 && s.mutex == None
    ensures Valid(Pool(), s, [t, t, t])
    ensures Final(Pool(), s, [t, t, t]) == Entering(s, t, Store(s.produced)).(empty := s.empty - 1, produced := s.produced + 1)
  {
    var s1 := At(s, t, Lock).(empty := s.empty - 1);
    var s2 := Entering(s, t, Fetch).(empty := s.empty - 1);
    assert s1.workers[t := s2.workers[t]] == s2.workers;
    PutFetches(s2, t);
    var s3 := At(s2, t, Store(s.produced)).(produced := s.produced + 1);
    ThreeSteps(Pool(), s, t, s1, t, s2, t, s3);
    assert s3.workers == Entering(s, t, Store(s.produced)).workers;
  }

  lemma GetFetches(s: State, t: nat)
    requires t < |s.workers| && s.workers[t].role == Consumer && s.workers[t].pc == Fetch && s.outI < |s.buffer|
    ensures Pool()(s, t) == Some(At(s, t, Store(s.buffer[s.outI])).(
                                 outI := Slot(s.outI, 1, |s.buffer|), gets := s.gets + [s.buffer[s.outI]]))
  {
  }

  lemma GetEnters(s: State, t: nat)
    requires t < |s.workers| && s.workers[t].role == Consumer && s.workers[t].pc == Wait && s.workers[t].left > 0
    requires s.full > 0 && s.mutex == None && s.outI < |s.buffer|
    ensures Valid(Pool(), s, [t, t, t])
    ensures Final(Pool(), s, [t, t, t])
         == Entering(s, t, Store(s.buffer[s.outI])).(
              full := s.full - 1, outI := Slot(s.outI, 1, |s.buffer|), gets := s.gets + [s.buffer[s.outI]])
  {
    var s1 := At(s, t, Lock).(full := s.full - 1);
    var s2 := Entering(s, t, Fetch).(full := s.full - 1);
    assert s1.workers[t := s2.workers[t]] == s2.workers;
    GetFetches(s2, t);
    var s3 := At(s2, t, Store(s.buffer[s.outI])).(outI := Slot(s.outI, 1, |s.buffer|), gets := s.gets + [s.buffer[s.outI]]);
    ThreeSteps(Pool(), s, t, s1, t, s2, t, s3);
    assert s3.workers == Entering(s, t, Store(s.buffer[s.outI])).workers;
  }

  /** The last three steps of an iteration: the second access, unlock and post. */
  lemma Leaves(s: State, t: nat, s3: State)
    requires t < |s.workers| && s.workers[t].pc.Store? && s.workers[t].left > 0
    requires StoreStep(s, t, s.workers[t].pc.val).Some?
    requires var w := s.workers[t];
             var s1 := StoreStep(s, t, w.pc.val).value.(mutex := None, workers := s.workers[t := Worker(w.role, w.left - 1, Wait)]);
             s3 == if w.role == Producer then s1.(full := s.full + 1) else s1.(empty := s.empty + 1)
    ensures Valid(Pool(), s, [t, t, t]) && Final(Pool(), s, [t, t, t]) == s3
  {
    var s1 := StoreStep(s, t, s.workers[t].pc.val).value;
    var s2 := At(s, t, Post).(buffer := s1.buffer, inI := s1.inI, written := s1.written, consumed := s1.consumed, mutex := None);
    assert At(s1, t, Post).workers == s2.workers;
    assert s2.workers[t := s3.workers[t]] == s3.workers;
    ThreeSteps(Pool(), s, t, s1, t, s2, t, s3);
  }

  /** With a slot free and nobody in the section, an iteration of a producer draws the next number and
      stores it. */
  lemma PutAlone(s: State, t: nat)
    requires t < |s.workers| && s.workers[t].role == Producer && s.workers[t].pc == Wait && s.workers[t].left > 0
    requires s.empty > 0 && s.mutex == None && s.inI < |s.buffer|
    ensures Valid(Pool(), s, [t, t, t] + [t, t, t])
    ensures Final(Pool(), s, [t, t, t] + [t, t, t])
         == s.(buffer := s.buffer[s.inI := s.produced], inI := (s.inI + 1) % |s.buffer|, produced := s.produced + 1,
               empty := s.empty - 1, full := s.full + 1, written := s.written + 1,
               workers := s.workers[t := Worker(Producer, s.workers[t].left - 1, Wait)])
  {
    PutEnters(s, t);
    var s3 := Entering(s, t, Store(s.produced)).(empty := s.empty - 1, produced := s.produced + 1);
    var s6 := s.(buffer := s.buffer[s.inI := s.produced], inI := Slot(s.inI, 1, |s.buffer|), produced := s.produced + 1,
                 empty := s.empty - 1, full := s.full + 1, written := s.written + 1,
                 workers := s.workers[t := Worker(Producer, s.workers[t].left - 1, Wait)]);
    assert s3.workers[t := s6.workers[t]] == s6.workers;
    Leaves(s3, t, s6);
    Concat(Pool(), s, [t, t, t], [t, t, t]);
  }

  /** With a value there and nobody in the section, an iteration of a consumer takes the oldest. */
  lemma GetAlone(s: State, t: nat)
    requires t < |s.workers| && s.workers[t].role == Consumer && s.workers[t].pc == Wait && s.workers[t].left > 0
    requires s.full > 0 && s.mutex == None && s.outI < |s.buffer|
    ensures Valid(Pool(), s, [t, t, t] + [t, t, t])
    ensures Final(Pool(), s, [t, t, t] + [t, t, t])
         == s.(outI := (s.outI + 1) % |s.buffer|, consumed := s.consumed + 1, empty := s.empty + 1, full := s.full - 1,
               gets := s.gets + [s.buffer[s.outI]],
               workers := s.workers[t := Worker(Consumer, s.workers[t].left - 1, Wait)])
  {
    GetEnters(s, t);
    var v := s.buffer[s.outI];
    var s3 := Entering(s, t, Store(v)).(full := s.full - 1, outI := Slot(s.outI, 1, |s.buffer|), gets := s.gets + [v]);
    var s6 := s.(outI := Slot(s.outI, 1, |s.buffer|), consumed := s.consumed + 1, empty := s.empty + 1, full := s.full - 1,
                 gets := s.gets + [v], workers := s.workers[t := Worker(Consumer, s.workers[t].left - 1, Wait)]);
    assert s3.workers[t := s6.workers[t]] == s6.workers;
    Leaves(s3, t, s6);
    Concat(Pool(), s, [t, t, t], [t, t, t]);
  }

  /** Who waits for what: for its semaphore at the top of the loop, for the mutex exactly while another
      worker is in the section, and nowhere else. */
  lemma WaitsExact(toPut: int, toGet: int, s: State, t: nat)
    requires Inv(toPut, toGet, s) && t < |s.workers|
    ensures s.workers[t].pc == Wait ==>
              (Pool()(s, t).None? <==>
                s.workers[t].left == 0 || (if s.workers[t].role == Producer then s.empty else s.full) == 0)
    ensures s.workers[t].pc == Lock ==>
              (Pool()(s, t).None? <==> exists u :: 0 <= u < |s.workers| && Inside(s.workers[u].pc))
    ensures s.workers[t].pc != Wait && s.workers[t].pc != Lock ==> Pool()(s, t).Some?
  {
    assert WorkerOk(s, t);
    forall u | 0 <= u < |s.workers| && Inside(s.workers[u].pc) ensures s.mutex == Some(u) {
      assert WorkerOk(s, u);
    }
    if s.mutex.Some? {
      assert WorkerOk(s, s.mutex.value);
    }
  }

  // ------------------------------------------------------- what the consumers report

  /** What a step reports: the value a consumer has taken. */
  function Reported(s: State, t: nat): seq<int> {
    if t < |s.workers| && s.workers[t].role == Consumer && s.workers[t].pc.Store? then [s.workers[t].pc.val] else []
  }

  /** The values taken, without one that its taker has not reported yet. */
  function Settled(s: State): seq<int> {
    if s.mutex.Some? && Reported(s, s.mutex.value) != [] && s.gets != [] then s.gets[..|s.gets| - 1] else s.gets
  }

  lemma StepSettles(toPut: int, toGet: int, s: State, t: nat)
    requires Inv(toPut, toGet, s) && Step(s, t).Some?
    ensures Settled(Step(s, t).value) == Settled(s) + Reported(s, t)
  {
    assert WorkerOk(s, t);
    if s.mutex.Some? {
      assert WorkerOk(s, s.mutex.value);
    }
  }

  lemma PoolSettles(toPut: int, toGet: int)
    ensures Collects(Pool(), s => Inv(toPut, toGet, s), Reported, Settled)
  {
    forall s, t: nat | Inv(toPut, toGet, s) && Step(s, t).Some?
      ensures Inv(toPut, toGet, Step(s, t).value) && Settled(Step(s, t).value) == Settled(s) + Reported(s, t)
    {
      StepSettles(toPut, toGet, s, t);
      StepKeepsInv(toPut, toGet, s, t);
    }
  }

  lemma RunSettles(size: nat, producers: seq<nat>, consumers: seq<nat>, schedule: seq<nat>)
    requires size > 0 && Valid(Pool(), Init(size, producers, consumers), schedule)
    ensures Settled(Final(Pool(), Init(size, producers, consumers), schedule))
         == Outputs(Pool(), Reported, Init(size, producers, consumers), schedule)
  {
    var toPut, toGet := Sum(Quota, producers), Sum(Quota, consumers);
    InitInv(size, producers, consumers);
    PoolSettles(toPut, toGet);
    RunCollects(Pool(), s => Inv(toPut, toGet, s), Reported, Settled, Init(size, producers, consumers), schedule);
  }

  /** In every run the consumers report 0, 1, 2 and so on, in this order. */
  lemma ReportsInOrder(size: nat, producers: seq<nat>, consumers: seq<nat>, schedule: seq<nat>)
    requires size > 0 && Valid(Pool(), Init(size, producers, consumers), schedule)
    ensures var reported := Outputs(Pool(), Reported, Init(size, producers, consumers), schedule);
            var s := Final(Pool(), Init(size, producers, consumers), schedule);
            reported == UpTo(|reported|) && (s.mutex == None ==> reported == s.gets)
  {
    RunInv(size, producers, consumers, schedule);
    RunSettles(size, producers, consumers, schedule);
    var s := Final(Pool(), Init(size, producers, consumers), schedule);
    forall k | 0 <= k < |Settled(s)| ensures Settled(s)[k] == k {
      assert UpTo(s.written)[k] == k;
    }
  }

  // -------------------------------------------------------------- completion

  /** Everything produced can be consumed, and what is left over fits in the buffer. */
  predicate Matched(size: nat, toPut: int, toGet: int) {
    toGet <= toPut <= toGet + size
  }

  function Progress(pc: Pc): int {
    match pc case Wait => 0 case Lock => 1 case Fetch => 2 case Store(_) => 3 case Unlock => 4 case Post => 5
  }

  function Cost(w: Worker): int { 6 * w.left - Progress(w.pc) }

  function Work(s: State): int { Sum(Cost, s.workers) }

  /** Every step is one of the six of some iteration. */
  lemma StepWorks(s: State, t: nat)
    requires Step(s, t).Some?
    ensures Work(Step(s, t).value) == Work(s) - 1
  {
    StepMoves(s, t);
    SumUpdate(Cost, s.workers, t, Step(s, t).value.workers[t]);
  }

  lemma WorkNonNegative(toPut: int, toGet: int, s: State)
    requires Inv(toPut, toGet, s)
    ensures Work(s) >= 0
  {
    forall t | 0 <= t < |s.workers| ensures Cost(s.workers[t]) >= 0 {
      assert WorkerOk(s, t);
    }
    SumWithinNat(Cost, s.workers);
  }

  /** When all are between iterations, the semaphores alone count the slots. */
  lemma AllWaiting(toPut: int, toGet: int, s: State)
    requires Inv(toPut, toGet, s) && forall t :: 0 <= t < |s.workers| ==> s.workers[t].pc == Wait
    ensures s.full == s.written - |s.gets| && s.empty == |s.buffer| - s.full
    ensures s.produced == s.written && s.consumed == |s.gets|
  {
    NoneInFlight(s.workers);
  }

  lemma FinishedMatched(toPut: int, toGet: int, s: State)
    requires Inv(toPut, toGet, s) && Finished(s)
    ensures Matched(|s.buffer|, toPut, toGet)
    ensures s.produced == toPut && s.consumed == toGet
  {
    AllWaiting(toPut, toGet, s);
    SumWithin(ToPut, s.workers, 0, 0);
    SumWithin(ToGet, s.workers, 0, 0);
  }

  /** Whoever holds the mutex can go on. */
  lemma HolderMoves(toPut: int, toGet: int, s: State)
    requires Inv(toPut, toGet, s) && s.mutex.Some?
    ensures Pool()(s, s.mutex.value).Some?
  {
    var t := s.mutex.value;
    assert WorkerOk(s, t);
    if s.workers[t].role == Producer && s.workers[t].pc.Store? {
      RoomToPut(s, t);
    }
  }

  lemma StuckAllWait(toPut: int, toGet: int, s: State)
    requires Inv(toPut, toGet, s) && Stuck(Pool(), s)
    ensures forall t :: 0 <= t < |s.workers| ==> s.workers[t].pc == Wait
  {
    if s.mutex.Some? {
      HolderMoves(toPut, toGet, s);
    }
    forall t | 0 <= t < |s.workers| ensures s.workers[t].pc == Wait {
      assert WorkerOk(s, t);
      assert Pool()(s, t).None?;
    }
  }

  lemma StuckFinished(toPut: int, toGet: int, s: State)
    requires Inv(toPut, toGet, s) && Matched(|s.buffer|, toPut, toGet)
    requires forall t :: 0 <= t < |s.workers| ==> s.workers[t].pc == Wait
    requires s.full == s.written - |s.gets| && s.empty == |s.buffer| - s.full
    requires forall t :: 0 <= t < |s.workers| ==>
               s.workers[t].left == 0 || (if s.workers[t].role == Producer then s.empty else s.full) == 0
    ensures Finished(s)
  {
    if s.empty > 0 {
      SumWithin(ToPut, s.workers, 0, 0);
    }
    if s.full > 0 {
      SumWithin(ToGet, s.workers, 0, 0);
    }
    forall t | 0 <= t < |s.workers| ensures s.workers[t].left == 0 {
      SumMember(ToPut, s.workers, t);
      SumMember(ToGet, s.workers, t);
    }
  }

  /** Unless all have finished, somebody can move. */
  lemma NoDeadlock(toPut: int, toGet: int, s: State)
    requires Inv(toPut, toGet, s) && Matched(|s.buffer|, toPut, toGet)
    ensures Stuck(Pool(), s) ==> Finished(s)
  {
    if Stuck(Pool(), s) {
      StuckAllWait(toPut, toGet, s);
      AllWaiting(toPut, toGet, s);
      forall t | 0 <= t < |s.workers|
        ensures s.workers[t].left == 0 || (if s.workers[t].role == Producer then s.empty else s.full) == 0
      {
        assert Pool()(s, t).None?;
      }
      StuckFinished(toPut, toGet, s);
    }
  }

  ghost predicate RunTo(size: nat, producers: seq<nat>, consumers: seq<nat>, schedule: seq<nat>, s: State) {
    && Valid(Pool(), Init(size, producers, consumers), schedule)
    && Final(Pool(), Init(size, producers, consumers), schedule) == s
  }

  ghost predicate AlwaysFinishes(size: nat, producers: seq<nat>, consumers: seq<nat>) {
    forall schedule, s :: RunTo(size, producers, consumers, schedule, s) && Stuck(Pool(), s) ==> Finished(s)
  }

  ghost predicate CanFinish(size: nat, producers: seq<nat>, consumers: seq<nat>) {
    exists schedule, s :: RunTo(size, producers, consumers, schedule, s) && Finished(s)
  }

  lemma SomeRunStops(size: nat, producers: seq<nat>, consumers: seq<nat>) returns (schedule: seq<nat>, s: State)
    requires size > 0
    ensures RunTo(size, producers, consumers, schedule, s) && Stuck(Pool(), s)
  {
    var toPut, toGet := Sum(Quota, producers), Sum(Quota, consumers);
    InitInv(size, producers, consumers);
    var inv := s => Inv(toPut, toGet, s);
    forall s, t: nat | inv(s) && Pool()(s, t).Some?
      ensures inv(Pool()(s, t).value) && 0 <= Work(Pool()(s, t).value) < Work(s)
    {
      StepKeepsInv(toPut, toGet, s, t);
      StepWorks(s, t);
      WorkNonNegative(toPut, toGet, Pool()(s, t).value);
    }
    schedule := MaximalRun(Pool(), inv, Work, Init(size, producers, consumers));
    s := Final(Pool(), Init(size, producers, consumers), schedule);
  }

  /** For any buffer size and any quotas: every run that cannot go on has finished, exactly when
      the quotas match; and when they do not match, no run finishes. */
  lemma CompletionExact(size: nat, producers: seq<nat>, consumers: seq<nat>)
    requires size > 0
    ensures AlwaysFinishes(size, producers, consumers) <==> Matched(size, Sum(Quota, producers), Sum(Quota, consumers))
    ensures CanFinish(size, producers, consumers) <==> Matched(size, Sum(Quota, producers), Sum(Quota, consumers))
  {
    var toPut, toGet := Sum(Quota, producers), Sum(Quota, consumers);
    forall schedule, s | RunTo(size, producers, consumers, schedule, s)
      ensures Finished(s) ==> Matched(size, toPut, toGet)
      ensures Matched(size, toPut, toGet) && Stuck(Pool(), s) ==> Finished(s)
    {
      RunInv(size, producers, consumers, schedule);
      if Finished(s) {
        FinishedMatched(toPut, toGet, s);
      }
      if Matched(size, toPut, toGet) {
        NoDeadlock(toPut, toGet, s);
      }
    }
    var schedule, s := SomeRunStops(size, producers, consumers);
    assert RunTo(size, producers, consumers, schedule, s);
  }

  lemma {:induction false} RunLength(s: State, schedule: seq<nat>)
    requires Valid(Pool(), s, schedule)
    ensures |schedule| == Work(s) - Work(Final(Pool(), s, schedule))
    decreases |schedule|
  {
    if schedule != [] {
      StepWorks(s, schedule[0]);
      RunLength(Step(s, schedule[0]).value, schedule[1..]);
    }
  }

  /** The lab's run, two producers and two consumers of ten items each: it always finishes, with
      both totals at 20, the values 0 to 19 taken in order, and the buffer empty. */
  lemma LabRun(schedule: seq<nat>, s: State)
    requires RunTo(5, [10, 10], [10, 10], schedule, s)
    ensures Stuck(Pool(), s) ==> Finished(s)
    ensures Finished(s) ==> s.produced == s.consumed == 20 && s.gets == UpTo(20) && |schedule| == 240
  {
    RunInv(5, [10, 10], [10, 10], schedule);
    assert Sum(Quota, [10, 10]) == 20;
    NoDeadlock(20, 20, s);
    if Finished(s) {
      FinishedMatched(20, 20, s);
      AllWaiting(20, 20, s);
      RunLength(Init(5, [10, 10], [10, 10]), schedule);
      SumWithin(Cost, s.workers, 0, 0);
      SumWithin(Cost, Init(5, [10, 10], [10, 10]).workers, 60, 60);
      assert s.gets == s.gets + Contents(s.buffer, s.outI, 0);
    }
  }
}
