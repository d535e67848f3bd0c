/** Every run of the lock-free stack comes to an end, and where it ends all operations have returned. */
module TreiberProgress {
  import opened Runs
  import opened Sums
  import opened Arithmetic
  import opened TreiberStack
  import opened TreiberProof
  import opened TreiberReclaim

  ghost predicate AllReturned(s: State) {
    forall t :: 0 <= t < |s.threads| ==> s.threads[t].pc == Idle && |s.threads[t].results| == |s.threads[t].prog|
  }

  function Length(prog: seq<Op>): int { |prog| }

  predicate Unprovoked(a: Action) { a.Spurious? }

  // ------------------------------------------------------------ no deadlock

  /** A thread that is not about to free can always go on; `malloc` always finds an address. */
  lemma ThreadMoves(s: State, t: nat) returns (a: Action)
    requires Shape(s) && t < |s.threads| && !s.threads[t].pc.PopFree?
    requires s.threads[t].pc == Idle ==> |s.threads[t].results| != |s.threads[t].prog|
    ensures Step(true, s, a).Some?
  {
    var th := s.threads[t];
    assert Placed(s.heap, s.chain, th);
    a := Move(t);
    if th.pc == Idle && th.prog[|th.results|].Push? {
      var addr := BoundOf(s.heap.Keys);
      a := Malloc(t, addr, 0);
    }
  }

  /** A thread that waits to free a node waits for one that can go on. */
  lemma FreeMoves(s: State, t: nat) returns (a: Action)
    requires Shape(s) && t < |s.threads| && s.threads[t].pc.PopFree?
    ensures Step(true, s, a).Some?
  {
    assert Placed(s.heap, s.chain, s.threads[t]);
    if Unheld(s, t, s.threads[t].pc.seen) {
      a := Move(t);
    } else {
      var u :| 0 <= u < |s.threads| && u != t && Held(s.threads[u].pc) == s.threads[t].pc.seen;
      a := ThreadMoves(s, u);
    }
  }

  lemma UnreturnedMoves(guarded: bool, s: State, t: nat)
    requires Shape(s) && t < |s.threads|
    requires s.threads[t].pc == Idle ==> |s.threads[t].results| != |s.threads[t].prog|
    ensures !Stuck(Stack(guarded), s)
  {
    var a;
    if s.threads[t].pc.PopFree? {
      a := FreeMoves(s, t);
    } else {
      a := ThreadMoves(s, t);
    }
    assert Stack(guarded)(s, a).Some?;
  }

  /** No deadlock, with the reclamation guard or without: nobody can move exactly when all operations of
      all threads have returned. */
  lemma StuckReturned(guarded: bool, s: State)
    requires Inv(s)
    ensures Stuck(Stack(guarded), s) <==> AllReturned(s)
  {
    forall t | 0 <= t < |s.threads| && !(s.threads[t].pc == Idle && |s.threads[t].results| == |s.threads[t].prog|)
      ensures !Stuck(Stack(guarded), s)
    {
      UnreturnedMoves(guarded, s, t);
    }
  }

  /** Who waits for what: the free of a popped node, under the guard, exactly while another thread's pop loop
      refers to that node; `malloc` may return any free address with any contents. */
  lemma WaitsExact(s: State, t: nat, addr: nat, junk: nat)
    requires Inv(s) && t < |s.threads|
    ensures s.threads[t].pc.PopFree? ==>
              && Stack(false)(s, Move(t)).Some?
              && (Stack(true)(s, Move(t)).None? <==>
                   exists u :: 0 <= u < |s.threads| && u != t && (s.threads[u].pc.PopNext? || s.threads[u].pc.PopCas?)
                               && s.threads[u].pc.seen == s.threads[t].pc.seen)
    ensures s.threads[t].pc == Idle && |s.threads[t].results| < |s.threads[t].prog| && s.threads[t].prog[|s.threads[t].results|].Push? ==>
              (Stack(true)(s, Malloc(t, addr, junk)).Some? <==> addr != NULL && addr !in s.heap)
  {
    assert Placed(s.heap, s.chain, s.threads[t]);
  }

  /** The top of the loop that a thread is in. */
  function Restart(pc: Pc): Pc { if pc.PushCas? then PushLoad(pc.n) else PopLoad }

  /** A compare-and-swap fails when the top has changed, and may fail for no reason only when it has not; either
      way the thread goes round its loop again and nothing else has changed. */
  lemma SwapFails(guarded: bool, s: State, t: nat)
    requires t < |s.threads| && (s.threads[t].pc.PushCas? || s.threads[t].pc.PopCas?)
    ensures var again := Some(At(s, t, Restart(s.threads[t].pc)));
            if s.top == s.threads[t].pc.seen then
              && Stack(guarded)(s, Spurious(t)) == again
              && Stack(guarded)(s, Move(t)).Some? && Stack(guarded)(s, Move(t)).value.log != s.log
            else Stack(guarded)(s, Move(t)) == again && Stack(guarded)(s, Spurious(t)).None?
  {
  }

  // ------------------------------------------------------------- termination

  function Progress(pc: Pc): int {
    match pc
    case Idle => 0
    case PushLoad(_) => 3
    case PushLink(_, _) => 4
    case PushCas(_, _) => 5
    case PopLoad => 1
    case PopNext(_) => 2
    case PopCas(_, _) => 3
    case PopVal(_) => 4
    case PopFree(_, _) => 5
  }

  /** Steps a thread still has to make if no compare-and-swap fails. */
  function Cost(th: Thread): int { 6 * (|th.prog| - |th.results|) - Progress(th.pc) }

  /** Compare-and-swaps a thread still has to win. */
  function Unwon(th: Thread): int {
    |th.prog| - |th.results| - if th.pc.PopVal? || th.pc.PopFree? then 1 else 0
  }

  /** A bound on the steps still to be made: each success yet to come can make one load of every other
      thread stale, and each stale load costs one more round of its loop. */
  function Work(s: State): int {
    Sum(Cost, s.threads) + 3 * (Sum(Unwon, s.threads) * (|s.threads| - 1) + Sum(Stale(s.top), s.threads))
  }

  predicate Within(th: Thread) {
    |th.results| <= |th.prog| && (th.pc != Idle ==> |th.results| < |th.prog|)
  }

  ghost predicate AllWithin(s: State) {
    forall t :: 0 <= t < |s.threads| ==> Within(s.threads[t])
  }

  /** The step is a success of a compare-and-swap. */
  predicate Won(s: State, s': State) {
    s'.log != s.log && s'.log != [] && !s'.log[|s'.log| - 1].Empty?
  }

  lemma StepCosts(guarded: bool, s: State, a: Action)
    requires Step(guarded, s, a).Some? && Within(s.threads[a.t])
    ensures var s' := Step(guarded, s, a).value; var th, th' := s.threads[a.t], s'.threads[a.t];
            && Within(th') && th'.prog == th.prog
            && Cost(th') + 1 <= Cost(th) + (if Loses(s, a) then 3 else 0) + (if Unprovoked(a) then 3 else 0)
            && Unwon(th') <= Unwon(th) - (if Won(s, s') then 1 else 0)
            && (Won(s, s') ==> !Loses(s, a))
  {
  }

  lemma OneLess(more: int, less: int, others: nat)
    ensures less <= more ==> less * others <= more * others
    ensures less <= more - 1 ==> less * others + others <= more * others
  {
    MulMonotone(less, more, others);
    MulMonotone(less + 1, more, others);
    assert (less + 1) * others == less * others + others;
  }

  lemma WorkFrom(s: State, s': State, t: nat, lost: nat, spurious: nat)
    requires t < |s.threads| == |s'.threads| && s'.threads == s.threads[t := s'.threads[t]]
    requires Cost(s'.threads[t]) + 1 <= Cost(s.threads[t]) + 3 * lost + spurious
    requires if Won(s, s')
             then lost == 0 && !Loaded(s'.threads[t].pc) && Unwon(s'.threads[t]) <= Unwon(s.threads[t]) - 1
             else s'.top == s.top && Unwon(s'.threads[t]) <= Unwon(s.threads[t])
                  && lost + Stale(s.top)(s'.threads[t]) <= Stale(s.top)(s.threads[t])
    ensures Work(s') + 1 <= Work(s) + spurious
  {
    SumUpdate(Cost, s.threads, t, s'.threads[t]);
    SumUpdate(Unwon, s.threads, t, s'.threads[t]);
    OneLess(Sum(Unwon, s.threads), Sum(Unwon, s'.threads), |s.threads| - 1);
    if Won(s, s') {
      SumBelow(Stale(s'.top), s'.threads, t);
      SumWithinNat(Stale(s.top), s.threads);
    } else {
      SumUpdate(Stale(s.top), s.threads, t, s'.threads[t]);
    }
  }

  lemma StepWorks(guarded: bool, s: State, a: Action)
    requires Step(guarded, s, a).Some? && AllWithin(s)
    ensures var s' := Step(guarded, s, a).value;
            AllWithin(s') && Work(s') + 1 <= Work(s) + if Unprovoked(a) then 3 else 0
  {
    StepSeen(guarded, s, a);
    StepCosts(guarded, s, a);
    WorkFrom(s, Step(guarded, s, a).value, a.t, if Loses(s, a) then 1 else 0, if Unprovoked(a) then 3 else 0);
  }

  lemma WorkNonNegative(s: State)
    requires AllWithin(s)
    ensures 0 <= Work(s)
  {
    SumWithinNat(Cost, s.threads);
    SumWithinNat(Unwon, s.threads);
    SumWithinNat(Stale(s.top), s.threads);
    if s.threads != [] {
      MulMonotone(0, Sum(Unwon, s.threads), |s.threads| - 1);
    }
  }

  lemma StackDrains(guarded: bool)
    ensures Drains(Stack(guarded), AllWithin, Work, Unprovoked, 3)
  {
    forall s, a | AllWithin(s) && Step(guarded, s, a).Some?
      ensures var s' := Step(guarded, s, a).value;
              AllWithin(s') && 0 <= Work(s') && Work(s') + 1 <= Work(s) + if Unprovoked(a) then 3 else 0
    {
      StepWorks(guarded, s, a);
      WorkNonNegative(Step(guarded, s, a).value);
    }
  }

  lemma Collect(threads: nat, ops: int)
    ensures 6 * ops + 3 * (ops * (threads - 1)) == 3 * (threads + 1) * ops
  {
  }

  lemma InitialWork(progs: seq<seq<Op>>)
    ensures Work(Init(progs)) == 3 * (|progs| + 1) * Sum(Length, progs)
  {
    var threads, ops := Init(progs).threads, Sum(Length, progs);
    SumPointwise(Unwon, threads, Length, progs);
    SumScale(Unwon, 6, threads, Cost);
    SumWithin(Stale(NULL), threads, 0, 0);
    Collect(|progs|, ops);
  }

  /** No run of T threads is longer than 3(T+1) steps per operation, and three per compare-and-swap that
      fails for no reason, whether nodes are freed at once or not. */
  lemma RunsAreBounded(guarded: bool, progs: seq<seq<Op>>, schedule: seq<Action>)
    requires Valid(Stack(guarded), Init(progs), schedule)
    ensures |schedule| <= 3 * (|progs| + 1) * Sum(Length, progs) + 3 * Count(Unprovoked, schedule)
  {
    InitialWork(progs);
    WorkNonNegative(Init(progs));
    StackDrains(guarded);
    RunDrains(Stack(guarded), AllWithin, Work, Unprovoked, 3, Init(progs), schedule);
  }

  // -------------------------------------------------------------- completion

  /** With the reclamation guard a run that cannot go on has completed all programs. */
  lemma GuardedCompletes(progs: seq<seq<Op>>, schedule: seq<Action>)
    requires Valid(Stack(true), Init(progs), schedule)
    ensures var s := Final(Stack(true), Init(progs), schedule); Stuck(Stack(true), s) <==> AllReturned(s)
  {
    GuardedRunInv(progs, schedule);
    StuckReturned(true, Final(Stack(true), Init(progs), schedule));
  }

  /** So has one that frees at once, if its programs have no hazard. */
  lemma NoHazardCompletes(progs: seq<seq<Op>>, schedule: seq<Action>)
    requires !Hazard(progs) && Valid(Stack(false), Init(progs), schedule)
    ensures var s := Final(Stack(false), Init(progs), schedule); Stuck(Stack(false), s) <==> AllReturned(s)
  {
    InitInv(progs);
    FreeAtOnceIsGuarded(progs, Init(progs), schedule);
    GuardedRunInv(progs, schedule);
    StuckReturned(false, Final(Stack(false), Init(progs), schedule));
  }

  /** The step is a spurious failure or allocates p. */
  function FailsOrAllocates(p: nat): Action -> bool { (a: Action) => Unprovoked(a) || (a.Malloc? && a.addr == p) }

  function Avoiding(p: nat): Machine<State, Action> { Without(Stack(false), FailsOrAllocates(p)) }

  /** Thread t is stopped at memory that is not allocated. */
  ghost predicate Stopped(s: State, t: nat, p: nat) {
    && AllWithin(s) && p != NULL && p !in s.heap
    && t < |s.threads| && Touches(s.threads[t].pc) == p
  }

  /** Only the allocation of p brings it back, so whoever needs it does not move. */
  lemma StaysFreed(s: State, a: Action, t: nat, p: nat)
    requires p != NULL && p !in s.heap && t < |s.threads| && Touches(s.threads[t].pc) == p
    requires !FailsOrAllocates(p)(a) && Step(false, s, a).Some?
    ensures p !in Step(false, s, a).value.heap && Step(false, s, a).value.threads[t] == s.threads[t]
  {
  }

  lemma StoppedStays(s: State, a: Action, t: nat, p: nat)
    requires Stopped(s, t, p) && !FailsOrAllocates(p)(a) && Step(false, s, a).Some?
    ensures Stopped(Step(false, s, a).value, t, p)
  {
    StaysFreed(s, a, t, p);
    StepWorks(false, s, a);
  }

  /** If something can happen, something other than a spurious failure or the allocation of p can. */
  lemma OtherAction(s: State, a: Action, p: nat) returns (b: Action)
    requires Step(false, s, a).Some?
    ensures Avoiding(p)(s, b).Some?
  {
    b := a;
    if Unprovoked(a) {
      b := Move(a.t);
    } else if FailsOrAllocates(p)(a) {
      var addr := BoundOf(s.heap.Keys + {p});
      b := Malloc(a.t, addr, a.junk);
    }
  }

  /** After a fault the others can finish, without ever reusing the freed node, and leave the thread that
      touched it behind. */
  lemma LeftBehind(s: State, t: nat, p: nat) returns (schedule: seq<Action>)
    requires Stopped(s, t, p)
    ensures Valid(Stack(false), s, schedule)
    ensures var s' := Final(Stack(false), s, schedule); Stuck(Stack(false), s') && !AllReturned(s')
  {
    var m, quiet, inv := Stack(false), Avoiding(p), s => Stopped(s, t, p);
    forall s, a | inv(s) && quiet(s, a).Some? ensures inv(quiet(s, a).value) && 0 <= Work(quiet(s, a).value) < Work(s) {
      StoppedStays(s, a, t, p);
      StepWorks(false, s, a);
      WorkNonNegative(quiet(s, a).value);
    }
    schedule := MaximalRun(quiet, inv, Work, s);
    RunKeeps(quiet, inv, s, schedule);
    WithoutIsRun(m, FailsOrAllocates(p), s, schedule);
    var s' := Final(m, s, schedule);
    forall a ensures m(s', a).None? {
      if m(s', a).Some? {
        var b := OtherAction(s', a, p);
      }
    }
  }

  /** Every run that cannot go on has completed all programs. */
  ghost predicate AlwaysCompletes(progs: seq<seq<Op>>) {
    forall schedule :: Valid(Stack(false), Init(progs), schedule) ==>
      var s := Final(Stack(false), Init(progs), schedule);
      Stuck(Stack(false), s) ==> AllReturned(s)
  }

  /** The lab's stack, which frees at once, completes in every run under exactly the condition under
      which it is correct in every run. */
  lemma CompletionExact(progs: seq<seq<Op>>)
    ensures AlwaysCompletes(progs) <==> !Hazard(progs)
  {
    if Hazard(progs) {
      var first := HazardCrashes(progs);
      var s := Final(Stack(false), Init(progs), first);
      var t :| 0 <= t < |s.threads| && Touches(s.threads[t].pc) != NULL && Touches(s.threads[t].pc) !in s.heap;
      StackDrains(false);
      RunKeeps(Stack(false), AllWithin, Init(progs), first);
      var rest := LeftBehind(s, t, Touches(s.threads[t].pc));
      Concat(Stack(false), Init(progs), first, rest);
      assert Valid(Stack(false), Init(progs), first + rest);
    } else {
      forall schedule | Valid(Stack(false), Init(progs), schedule)
        ensures var s := Final(Stack(false), Init(progs), schedule); Stuck(Stack(false), s) ==> AllReturned(s)
      {
        NoHazardCompletes(progs, schedule);
      }
    }
  }
}
