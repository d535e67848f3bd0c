/** What the lab's `main` does with the stack: threads push concurrently, then one thread
    pops until the stack is empty. */
module TreiberDrain {
  import opened Runs
  import opened Sums
  import opened TreiberStack
  import opened TreiberProof
  import opened TreiberReclaim
  import opened TreiberProgress

  // ------------------------------------------------------------ push phase

  ghost predicate PushOnly(progs: seq<seq<Op>>) {
    forall t, i :: 0 <= t < |progs| && 0 <= i < |progs[t]| ==> progs[t][i].Push?
  }

  function PushesOf(v: int): Op -> int { (op: Op) => if op == Push(v) then 1 else 0 }

  function Weight(v: int): Event -> int { (e: Event) => if e == Pushed(e.t, v) then 1 else 0 }

  /** How often a program pushes v. */
  function Pushes(v: int): seq<Op> -> int { (prog: seq<Op>) => Sum(PushesOf(v), prog) }

  /** Every logged operation belongs to some thread, so a total over the log is the total
      over the threads of their parts of it. */
  ghost function ByThread(f: Event -> int, log: seq<Event>, threads: nat): int {
    if threads == 0 then 0 else ByThread(f, log, threads - 1) + Sum(f, Project(log, threads - 1))
  }

  lemma ProjectSum(f: Event -> int, log: seq<Event>, e: Event, t: nat)
    ensures Sum(f, Project(log + [e], t)) == Sum(f, Project(log, t)) + if e.t == t then f(e) else 0
  {
    ProjectAppend(log, e, t);
    if e.t == t {
      SumSnoc(f, Project(log, t), e);
    }
  }

  lemma {:induction false} ByThreadAppend(f: Event -> int, log: seq<Event>, e: Event, threads: nat)
    ensures ByThread(f, log + [e], threads) == ByThread(f, log, threads) + if e.t < threads then f(e) else 0
  {
    if threads > 0 {
      ByThreadAppend(f, log, e, threads - 1);
      ProjectSum(f, log, e, threads - 1);
    }
  }

  lemma {:induction false} ByThreadEmpty(f: Event -> int, threads: nat)
    ensures ByThread(f, [], threads) == 0
  {
    if threads > 0 {
      ByThreadEmpty(f, threads - 1);
    }
  }

  lemma {:induction false} SplitByThread(f: Event -> int, log: seq<Event>, threads: nat)
    requires forall i :: 0 <= i < |log| ==> log[i].t < threads
    ensures Sum(f, log) == ByThread(f, log, threads)
    decreases |log|
  {
    if log == [] {
      ByThreadEmpty(f, threads);
    } else {
      var before, e := log[..|log| - 1], log[|log| - 1];
      assert log == before + [e];
      SplitByThread(f, before, threads);
      SumSnoc(f, before, e);
      ByThreadAppend(f, before, e, threads);
    }
  }

  /** A log of pushes replays to its values, newest first. */
  lemma {:induction false} ReplayPushes(log: seq<Event>)
    requires forall i :: 0 <= i < |log| ==> log[i].Pushed?
    ensures Replay(log).Some? && |Replay(log).value| == |log|
    ensures forall i :: 0 <= i < |log| ==> Replay(log).value[i] == log[|log| - 1 - i].v
    decreases |log|
  {
    if log != [] {
      ReplayPushes(log[..|log| - 1]);
    }
  }

  lemma {:induction false} ReplayTally(log: seq<Event>, v: int)
    requires forall i :: 0 <= i < |log| ==> log[i].Pushed?
    ensures Replay(log).Some? && multiset(Replay(log).value)[v] == Sum(Weight(v), log)
    decreases |log|
  {
    if log != [] {
      var before, e := log[..|log| - 1], log[|log| - 1];
      assert log == before + [e];
      ReplayTally(before, v);
      SumSnoc(Weight(v), before, e);
    }
  }

  lemma {:induction false} ProjectHas(log: seq<Event>, i: nat)
    requires i < |log|
    ensures log[i] in Project(log, log[i].t)
    decreases |log|
  {
    if i < |log| - 1 {
      ProjectHas(log[..|log| - 1], i);
    }
  }

  lemma {:induction false} ByThreadIs(f: Event -> int, log: seq<Event>, g: seq<Op> -> int, progs: seq<seq<Op>>, k: nat)
    requires k <= |progs| && forall t :: 0 <= t < |progs| ==> Sum(f, Project(log, t)) == g(progs[t])
    ensures ByThread(f, log, k) == Sum(g, progs[..k])
  {
    if k > 0 {
      ByThreadIs(f, log, g, progs, k - 1);
      SumSnoc(g, progs[..k - 1], progs[k - 1]);
      assert progs[..k] == progs[..k - 1] + [progs[k - 1]];
    }
  }

  ghost predicate Attributed(s: State) {
    forall i :: 0 <= i < |s.log| ==> s.log[i].t < |s.threads|
  }

  lemma RunAttributed(progs: seq<seq<Op>>, schedule: seq<Action>)
    requires Valid(Stack(true), Init(progs), schedule)
    ensures Attributed(Final(Stack(true), Init(progs), schedule))
  {
    forall s, a | Attributed(s) && Stack(true)(s, a).Some? ensures Attributed(Stack(true)(s, a).value) {
      StepLogs(s, a);
    }
    RunKeeps(Stack(true), Attributed, Init(progs), schedule);
  }

  lemma RunExecutes(progs: seq<seq<Op>>, schedule: seq<Action>)
    requires Valid(Stack(true), Init(progs), schedule)
    ensures ReclaimInv(progs, Final(Stack(true), Init(progs), schedule))
  {
    InitInv(progs);
    var inv := s => ReclaimInv(progs, s);
    forall s, a | inv(s) && Stack(true)(s, a).Some? ensures inv(Stack(true)(s, a).value) {
      StepKeepsReclaimInv(progs, s, a);
    }
    RunKeeps(Stack(true), inv, Init(progs), schedule);
  }

  /** A program of pushes, as the events it logs. */
  function PushEvents(t: nat, prog: seq<Op>): seq<Event> {
    seq(|prog|, i requires 0 <= i < |prog| => EventOf(t, prog[i], Done))
  }

  /** The stack when every pusher has returned. */
  ghost predicate Filled(progs: seq<seq<Op>>, s: State) {
    && IsChain(s.heap, s.top, s.chain) && (forall p :: p in s.heap ==> p in s.chain)
    && |s.chain| == |s.log| == Sum(Length, progs)
    && (forall i :: 0 <= i < |s.log| ==> s.log[|s.log| - 1 - i] == Pushed(s.log[|s.log| - 1 - i].t, s.heap[s.chain[i]].val))
    && (forall t :: 0 <= t < |progs| ==> Project(s.log, t) == PushEvents(t, progs[t]))
    && (forall v :: multiset(Values(s.heap, s.chain))[v] == Sum(Pushes(v), progs))
  }

  lemma FilledLog(progs: seq<seq<Op>>, s: State)
    requires PushOnly(progs) && ReclaimInv(progs, s) && Attributed(s) && AllReturned(s)
    ensures forall t :: 0 <= t < |progs| ==> Project(s.log, t) == PushEvents(t, progs[t])
    ensures forall i :: 0 <= i < |s.log| ==> s.log[i].Pushed?
  {
    forall t | 0 <= t < |progs| ensures Project(s.log, t) == PushEvents(t, progs[t]) {
      assert Agrees(s, t);
      assert Returned(t, s.threads[t]) == PushEvents(t, progs[t]);
    }
    forall i | 0 <= i < |s.log| ensures s.log[i].Pushed? {
      ProjectHas(s.log, i);
      assert s.log[i] in PushEvents(s.log[i].t, progs[s.log[i].t]);
    }
  }

  lemma PushEventsTally(t: nat, prog: seq<Op>, v: int)
    requires forall i :: 0 <= i < |prog| ==> prog[i].Push?
    ensures Sum(Weight(v), PushEvents(t, prog)) == Pushes(v)(prog)
  {
    SumPointwise(Weight(v), PushEvents(t, prog), PushesOf(v), prog);
  }

  lemma FilledTally(progs: seq<seq<Op>>, s: State, v: int)
    requires PushOnly(progs) && ReclaimInv(progs, s) && Attributed(s) && AllReturned(s)
    ensures multiset(Values(s.heap, s.chain))[v] == Sum(Pushes(v), progs)
  {
    FilledLog(progs, s);
    ReplayTally(s.log, v);
    forall t | 0 <= t < |progs| ensures Sum(Weight(v), Project(s.log, t)) == Pushes(v)(progs[t]) {
      PushEventsTally(t, progs[t], v);
    }
    SplitByThread(Weight(v), s.log, |progs|);
    ByThreadIs(Weight(v), s.log, Pushes(v), progs, |progs|);
    assert progs[..|progs|] == progs;
  }

  lemma FilledOrder(s: State)
    requires Inv(s) && (forall i :: 0 <= i < |s.log| ==> s.log[i].Pushed?)
    ensures |s.chain| == |s.log|
    ensures forall i :: 0 <= i < |s.log| ==> s.log[|s.log| - 1 - i] == Pushed(s.log[|s.log| - 1 - i].t, s.heap[s.chain[i]].val)
  {
    ReplayPushes(s.log);
    var values := Values(s.heap, s.chain);
    assert Replay(s.log).value == values;
    forall i | 0 <= i < |s.log| ensures s.log[|s.log| - 1 - i] == Pushed(s.log[|s.log| - 1 - i].t, s.heap[s.chain[i]].val) {
      assert values[i] == s.log[|s.log| - 1 - i].v;
    }
  }

  function One(e: Event): int { 1 }

  lemma FilledCount(progs: seq<seq<Op>>, s: State)
    requires PushOnly(progs) && ReclaimInv(progs, s) && Attributed(s) && AllReturned(s)
    ensures |s.log| == Sum(Length, progs)
  {
    FilledLog(progs, s);
    SumWithin(One, s.log, 1, 1);
    forall t | 0 <= t < |progs| ensures Sum(One, Project(s.log, t)) == Length(progs[t]) {
      SumWithin(One, PushEvents(t, progs[t]), 1, 1);
    }
    SplitByThread(One, s.log, |progs|);
    ByThreadIs(One, s.log, Length, progs, |progs|);
    assert progs[..|progs|] == progs;
  }

  lemma AllReturnedFills(progs: seq<seq<Op>>, s: State)
    requires PushOnly(progs) && ReclaimInv(progs, s) && Attributed(s) && Accounted(s) && AllReturned(s)
    ensures Filled(progs, s)
  {
    FilledLog(progs, s);
    forall v ensures multiset(Values(s.heap, s.chain))[v] == Sum(Pushes(v), progs) {
      FilledTally(progs, s, v);
    }
    FilledOrder(s);
    FilledCount(progs, s);
    forall p | p in s.heap ensures p in s.chain {
      assert !OwnedBySome(s, p);
    }
  }

  /** After any interleaving of pushers the stack holds exactly the values pushed, and read from
      the top it is the reverse of an interleaving of the programs: each thread's own values
      newest first.  Nothing else is allocated. */
  lemma PushPhase(progs: seq<seq<Op>>, schedule: seq<Action>)
    requires PushOnly(progs) && Valid(Stack(false), Init(progs), schedule)
    requires AllReturned(Final(Stack(false), Init(progs), schedule))
    ensures Filled(progs, Final(Stack(false), Init(progs), schedule))
  {
    assert !Hazard(progs);
    InitInv(progs);
    FreeAtOnceIsGuarded(progs, Init(progs), schedule);
    RunExecutes(progs, schedule);
    RunAttributed(progs, schedule);
    GuardedRunAccounted(progs, schedule);
    AllReturnedFills(progs, Final(Stack(true), Init(progs), schedule));
  }

  /** The joins in `main` are passed: pushers cannot block one another, however they interleave. */
  lemma PushPhaseCompletes(progs: seq<seq<Op>>, schedule: seq<Action>)
    requires PushOnly(progs) && Valid(Stack(false), Init(progs), schedule)
    ensures |schedule| <= 3 * (|progs| + 1) * Sum(Length, progs) + 3 * Count(Unprovoked, schedule)
    ensures var s := Final(Stack(false), Init(progs), schedule);
            (Stuck(Stack(false), s) <==> AllReturned(s)) && (Stuck(Stack(false), s) ==> Filled(progs, s))
  {
    assert !Hazard(progs);
    RunsAreBounded(false, progs, schedule);
    NoHazardCompletes(progs, schedule);
    if AllReturned(Final(Stack(false), Init(progs), schedule)) {
      PushPhase(progs, schedule);
    }
  }

  // ------------------------------------------------- the drain, as `main` runs it

  lemma PopValues(heap: map<nat, Node>, top: nat, chain: seq<nat>)
    requires IsChain(heap, top, chain) && top != NULL
    ensures IsChain(heap - {top}, heap[top].next, chain[1..])
    ensures Values(heap, chain) == [heap[top].val] + Values(heap - {top}, chain[1..])
  {
    ChainPop(heap, top, chain);
  }

  lemma PushValues(heap: map<nat, Node>, top: nat, chain: seq<nat>, n: nat, val: int)
    requires IsChain(heap, top, chain) && n != NULL && n !in heap
    ensures var longer := heap[n := Node(val, top)];
            IsChain(longer, n, [n] + chain) && Values(longer, [n] + chain) == [val] + Values(heap, chain)
  {
    var longer := heap[n := Node(val, top)];
    assert n !in chain;
    assert IsChain(longer, top, chain);
    ChainPush(longer, top, chain, n);
  }

  /** `stack_top` and the heap it points into, changed in place by one thread. */
  class LockFreeStack {
    var heap: map<nat, Node>
    var stackTop: nat
    ghost var chain: seq<nat>

    ghost predicate Valid()
      reads this
    {
      IsChain(heap, stackTop, chain) && forall p :: p in heap ==> p in chain
    }

    /** The stack as the push phase left it. */
    constructor (s: State)
      requires IsChain(s.heap, s.top, s.chain) && forall p :: p in s.heap ==> p in s.chain
      ensures Valid() && heap == s.heap && stackTop == s.top && chain == s.chain
    {
      heap, stackTop, chain := s.heap, s.top, s.chain;
    }

    method CompareExchangeWeak(expected: nat, desired: nat, spurious: bool) returns (ok: bool)
      modifies this`stackTop
      ensures ok == (!spurious && old(stackTop) == expected)
      ensures stackTop == if ok then desired else old(stackTop)
    {
      ok := !spurious && stackTop == expected;
      if ok {
        stackTop := desired;
      }
    }

    /** `failures` is how often the weak compare-and-swap fails for no reason. */
    method Pop(failures: nat) returns (ok: bool, out: int)
      requires Valid()
      modifies this
      ensures Valid()
      ensures ok == (old(chain) != [])
      ensures !ok ==> heap == old(heap) && stackTop == old(stackTop) && chain == old(chain)
      ensures ok ==> && old(stackTop) in old(heap)
                     && heap == old(heap) - {old(stackTop)}
                     && stackTop == old(heap)[old(stackTop)].next
                     && chain == old(chain)[1..]
                     && Values(old(heap), old(chain)) == [out] + Values(heap, chain)
    {
      ok, out := false, 0;
      var left: nat, seen: nat := failures, NULL;
      while !ok
        invariant heap == old(heap) && chain == old(chain)
        invariant if ok then seen == old(stackTop) != NULL && seen in heap && stackTop == heap[seen].next else stackTop == old(stackTop)
        decreases if ok then 0 else left + 1
      {
        seen := stackTop;
        if seen == NULL {
          return;
        }
        ok := CompareExchangeWeak(seen, heap[seen].next, left > 0);
        left := if left > 0 then left - 1 else 0;
      }
      ChainPop(heap, seen, chain);
      out := heap[seen].val;
      heap := heap - {seen};
      assert chain == [seen] + chain[1..];
      chain := chain[1..];
      PopValues(old(heap), seen, old(chain));
    }

    /** `push`; n is the address malloc returned. */
    method Push(val: int, n: nat, failures: nat)
      requires Valid() && n != NULL && n !in heap
      modifies this
      ensures Valid() && chain == [n] + old(chain)
      ensures heap == old(heap)[n := Node(val, old(stackTop))] && stackTop == n
      ensures Values(heap, chain) == [val] + Values(old(heap), old(chain))
    {
      heap := heap[n := Node(val, NULL)];
      var left: nat := failures;
      var ok := false;
      while !ok
        invariant chain == old(chain) && stackTop == if ok then n else old(stackTop)
        invariant n in heap && heap == old(heap)[n := Node(val, heap[n].next)] && (ok ==> heap[n].next == old(stackTop))
        decreases if ok then 0 else left + 1
      {
        var seen := stackTop;
        heap := heap[n := Node(val, seen)];
        ok := CompareExchangeWeak(seen, n, left > 0);
        left := if left > 0 then left - 1 else 0;
      }
      PushValues(old(heap), old(stackTop), old(chain), n, val);
      chain := [n] + chain;
    }

    /** Pops until the stack is empty: every node is popped once, top first, and freed. */
    method Drain(failures: nat) returns (count: nat, got: seq<int>)
      requires Valid()
      modifies this
      ensures count == |old(chain)|
      ensures got == Values(old(heap), old(chain))
      ensures heap == map[] && stackTop == NULL
    {
      ghost var values := Values(heap, chain);
      count, got := 0, [];
      while true
        invariant Valid()
        invariant count == |got| && got + Values(heap, chain) == values
        decreases |chain|
      {
        ghost var left := Values(heap, chain);
        var ok, val := Pop(failures);
        if !ok {
          break;
        }
        assert got + left == got + [val] + Values(heap, chain);
        count, got := count + 1, got + [val];
      }
    }
  }

  // ---------------------------------------------------------------- the lab run

  /** `pusher`: push 0, 1, ..., n-1. */
  function Pusher(n: nat): seq<Op> { seq(n, i => Push(i)) }

  function Pushers(threads: nat, n: nat): seq<seq<Op>> { seq(threads, _ => Pusher(n)) }

  lemma {:induction false} PusherPushes(n: nat, v: int)
    ensures Sum(PushesOf(v), Pusher(n)) == if 0 <= v < n then 1 else 0
  {
    if n > 0 {
      PusherPushes(n - 1, v);
      assert Pusher(n) == Pusher(n - 1) + [Push(n - 1)];
      SumSnoc(PushesOf(v), Pusher(n - 1), Push(n - 1));
    }
  }

  /** Each of 0..n-1 is on the stack once per thread, and nothing else is. */
  lemma LabContents(threads: nat, n: nat, s: State)
    requires Filled(Pushers(threads, n), s)
    ensures |s.chain| == threads * n
    ensures forall v :: multiset(Values(s.heap, s.chain))[v] == if 0 <= v < n then threads else 0
  {
    var progs := Pushers(threads, n);
    SumWithin(Length, progs, n, n);
    forall v ensures Sum(Pushes(v), progs) == if 0 <= v < n then threads else 0 {
      PusherPushes(n, v);
      var each := if 0 <= v < n then 1 else 0;
      SumWithin(Pushes(v), progs, each, each);
    }
  }

  /** `main`: whatever the pushers' interleaving was, the drain counts threads * n items. */
  method PushThenDrain(threads: nat, n: nat, s: State, ghost schedule: seq<Action>, failures: nat)
    returns (count: nat, got: seq<int>)
    requires Valid(Stack(false), Init(Pushers(threads, n)), schedule)
    requires s == Final(Stack(false), Init(Pushers(threads, n)), schedule) && AllReturned(s)
    ensures count == |got| == threads * n
    ensures forall v :: multiset(got)[v] == if 0 <= v < n then threads else 0
  {
    PushPhase(Pushers(threads, n), schedule);
    LabContents(threads, n, s);
    var stack := new LockFreeStack(s);
    count, got := stack.Drain(failures);
  }
}
