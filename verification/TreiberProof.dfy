/** Linearizability of the lock-free stack when freeing waits for the pop loops. */
module TreiberProof {
  import opened Runs
  import opened Sums
  import opened TreiberStack

  // ----------------------------------------------------------------- memory

  /** The thread's operation, while it is inside one. */
  ghost predicate Doing(th: Thread, op: Op) {
    |th.results| < |th.prog| && th.prog[|th.results|] == op
  }

  /** What a thread's position says about memory. */
  ghost predicate Placed(heap: map<nat, Node>, chain: seq<nat>, th: Thread) {
    && |th.results| <= |th.prog|
    && (Owned(th.pc) != NULL ==> Owned(th.pc) in heap && Owned(th.pc) !in chain)
    && (Held(th.pc) != NULL ==> Held(th.pc) in heap)
    && match th.pc
       case Idle => true
       case PushLoad(n) => n != NULL && Doing(th, Push(heap[n].val))
       case PushLink(n, _) => n != NULL && Doing(th, Push(heap[n].val))
       case PushCas(n, seen) => n != NULL && heap[n].next == seen && Doing(th, Push(heap[n].val))
       case PopLoad => Doing(th, Pop)
       case PopNext(seen) => seen != NULL && Doing(th, Pop)
       case PopCas(seen, next) => seen != NULL && heap[seen].next == next && Doing(th, Pop)
       case PopVal(seen) => seen != NULL && Doing(th, Pop)
       case PopFree(seen, _) => seen != NULL && Doing(th, Pop)
  }

  ghost predicate Apart(threads: seq<Thread>) {
    && (forall t, u :: 0 <= t < |threads| && 0 <= u < |threads| && t != u && Owned(threads[t].pc) != NULL ==>
          Owned(threads[t].pc) != Owned(threads[u].pc))
    && (forall t, u :: 0 <= t < |threads| && 0 <= u < |threads| && Held(threads[t].pc) != NULL ==>
          Held(threads[t].pc) != PushOwned(threads[u].pc))
  }

  /** Published, owned and held nodes are where they should be: the chain is intact, an
      owned node is off the chain and owned once, and a node some pop loop refers to is
      allocated and not being prepared for a push, so its `next` cannot change. */
  ghost predicate Shape(s: State) {
    && IsChain(s.heap, s.top, s.chain)
    && (forall t :: 0 <= t < |s.threads| ==> Placed(s.heap, s.chain, s.threads[t]))
    && Apart(s.threads)
  }

  lemma ShapeNotFaulty(s: State)
    requires Shape(s)
    ensures !Faulty(s)
  {
    forall t | 0 <= t < |s.threads| ensures Touches(s.threads[t].pc) == NULL || Touches(s.threads[t].pc) in s.heap {
      assert Placed(s.heap, s.chain, s.threads[t]);
    }
  }

  lemma ChainPush(heap: map<nat, Node>, top: nat, chain: seq<nat>, n: nat)
    requires IsChain(heap, top, chain)
    requires n != NULL && n in heap && n !in chain && heap[n].next == top
    ensures IsChain(heap, n, [n] + chain)
  {
    var longer := [n] + chain;
    forall i | 0 <= i < |longer| ensures heap[longer[i]].next == After(longer, i) {
      if i > 0 {
        assert longer[i] == chain[i - 1] && After(longer, i) == After(chain, i - 1);
      }
    }
  }

  lemma ChainPop(heap: map<nat, Node>, top: nat, chain: seq<nat>)
    requires IsChain(heap, top, chain) && top != NULL
    ensures chain != [] && chain[0] == top && top !in chain[1..]
    ensures IsChain(heap, heap[top].next, chain[1..])
  {
    var shorter := chain[1..];
    assert heap[top].next == After(chain, 0);
    forall i | 0 <= i < |shorter| ensures heap[shorter[i]].next == After(shorter, i) {
      assert shorter[i] == chain[i + 1] && After(shorter, i) == After(chain, i + 1);
    }
  }

  /** What a step of thread t leaves alone: the other threads, every node but the one t
      owns, and a node on its way to be freed while some pop loop refers to it. */
  ghost predicate Local(s: State, s': State, t: nat) {
    && t < |s.threads| == |s'.threads|
    && s'.threads == s.threads[t := s'.threads[t]]
    && s'.threads[t].prog == s.threads[t].prog && s.threads[t].results <= s'.threads[t].results
    && var mine := Owned(s.threads[t].pc);
       && (forall p :: p in s.heap && p != mine ==> p in s'.heap && s'.heap[p] == s.heap[p])
       && (mine in s.heap ==>
             if mine in s'.heap then PushOwned(s.threads[t].pc) == mine || s'.heap[mine] == s.heap[mine]
             else Unheld(s, t, mine))
       && (forall p :: p in s'.chain ==> p in s.chain || p == mine)
  }

  lemma StepLocal(s: State, a: Action)
    requires Shape(s) && Step(true, s, a).Some?
    ensures Local(s, Step(true, s, a).value, a.t)
  {
    assert Placed(s.heap, s.chain, s.threads[a.t]);
  }

  lemma StepKeepsChain(s: State, a: Action)
    requires Shape(s) && Step(true, s, a).Some?
    ensures var s' := Step(true, s, a).value; IsChain(s'.heap, s'.top, s'.chain)
  {
    assert Placed(s.heap, s.chain, s.threads[a.t]);
    match s.threads[a.t].pc {
      case PushCas(n, seen) =>
        if s.top == seen {
          ChainPush(s.heap, s.top, s.chain, n);
        }
      case PopCas(seen, next) =>
        if s.top == seen {
          ChainPop(s.heap, s.top, s.chain);
        }
      case _ =>
    }
  }

  lemma OtherPlaced(s: State, s': State, t: nat, u: nat)
    requires Shape(s) && Local(s, s', t) && u < |s.threads| && u != t
    ensures Placed(s'.heap, s'.chain, s'.threads[u])
  {
    assert Placed(s.heap, s.chain, s.threads[t]) && Placed(s.heap, s.chain, s.threads[u]);
  }

  lemma OwnPlacedPushing(s: State, a: Action)
    requires Shape(s) && Step(true, s, a).Some? && (s.threads[a.t].pc == Idle || PushOwned(s.threads[a.t].pc) != NULL)
    ensures var s' := Step(true, s, a).value; Placed(s'.heap, s'.chain, s'.threads[a.t])
  {
    assert Placed(s.heap, s.chain, s.threads[a.t]);
  }

  lemma OwnPlacedPopping(s: State, a: Action)
    requires Shape(s) && Step(true, s, a).Some? && s.threads[a.t].pc != Idle && PushOwned(s.threads[a.t].pc) == NULL
    ensures var s' := Step(true, s, a).value; Placed(s'.heap, s'.chain, s'.threads[a.t])
  {
    assert Placed(s.heap, s.chain, s.threads[a.t]);
    if s.top != NULL {
      ChainPop(s.heap, s.top, s.chain);
    }
  }

  /** A new position keeps threads apart if what it owns and holds is apart from every other thread. */
  ghost predicate ApartFrom(pc: Pc, other: Pc) {
    && (Owned(pc) != NULL ==> Owned(pc) != Owned(other))
    && (Held(pc) != NULL ==> Held(pc) != PushOwned(other))
    && (Held(other) != NULL ==> Held(other) != PushOwned(pc))
  }

  lemma StepApartFrom(s: State, a: Action, u: nat)
    requires Shape(s) && Step(true, s, a).Some? && u < |s.threads| && u != a.t
    ensures ApartFrom(Step(true, s, a).value.threads[a.t].pc, s.threads[u].pc)
  {
    assert Placed(s.heap, s.chain, s.threads[a.t]);
    assert Placed(s.heap, s.chain, s.threads[u]);
    if s.top != NULL {
      ChainPop(s.heap, s.top, s.chain);
    }
  }

  lemma ApartUpdate(threads: seq<Thread>, t: nat, th: Thread)
    requires t < |threads| && Apart(threads)
    requires forall u :: 0 <= u < |threads| && u != t ==> ApartFrom(th.pc, threads[u].pc)
    ensures Apart(threads[t := th])
  {
  }

  lemma ShapeFrom(s: State, s': State, t: nat)
    requires Shape(s) && Local(s, s', t)
    requires IsChain(s'.heap, s'.top, s'.chain) && Placed(s'.heap, s'.chain, s'.threads[t])
    requires forall u :: 0 <= u < |s.threads| && u != t ==> ApartFrom(s'.threads[t].pc, s.threads[u].pc)
    ensures Shape(s')
  {
    forall u | 0 <= u < |s.threads| ensures Placed(s'.heap, s'.chain, s'.threads[u]) {
      if u != t {
        OtherPlaced(s, s', t, u);
      }
    }
    ApartUpdate(s.threads, t, s'.threads[t]);
  }

  lemma StepKeepsShape(s: State, a: Action)
    requires Shape(s) && Step(true, s, a).Some?
    ensures Shape(Step(true, s, a).value)
  {
    StepLocal(s, a);
    StepKeepsChain(s, a);
    if s.threads[a.t].pc == Idle || PushOwned(s.threads[a.t].pc) != NULL {
      OwnPlacedPushing(s, a);
    } else {
      OwnPlacedPopping(s, a);
    }
    forall u | 0 <= u < |s.threads| && u != a.t
      ensures ApartFrom(Step(true, s, a).value.threads[a.t].pc, s.threads[u].pc)
    {
      StepApartFrom(s, a, u);
    }
    ShapeFrom(s, Step(true, s, a).value, a.t);
  }

  // ---------------------------------------------------------------- history

  lemma ProjectAppend(log: seq<Event>, e: Event, t: nat)
    ensures Project(log + [e], t) == if e.t == t then Project(log, t) + [e] else Project(log, t)
  {
    assert (log + [e])[..|log|] == log;
  }

  /** What a step adds to the log. */
  function Logged(s: State, a: Action): seq<Event>
    requires a.t < |s.threads|
  {
    match s.threads[a.t].pc
    case PushCas(n, seen) =>
      if s.top == seen && a.Move? then [Pushed(a.t, ValAt(s.heap, n))] else []
    case PopCas(seen, _) =>
      if s.top == seen && a.Move? then [Popped(a.t, ValAt(s.heap, seen))] else []
    case PopLoad =>
      if s.top == NULL then [Empty(a.t)] else []
    case _ => []
  }

  lemma ValuesFrame(s: State, s': State, t: nat)
    requires Shape(s) && Local(s, s', t) && s'.chain == s.chain
    ensures Values(s'.heap, s'.chain) == Values(s.heap, s.chain)
  {
    assert Placed(s.heap, s.chain, s.threads[t]);
  }

  lemma StepLogs(s: State, a: Action)
    requires Step(true, s, a).Some?
    ensures Step(true, s, a).value.log == s.log + Logged(s, a)
    ensures Logged(s, a) == [] ==> Step(true, s, a).value.chain == s.chain
  {
  }

  /** The values on the chain change exactly as the logged event says. */
  lemma StepValues(s: State, a: Action)
    requires Shape(s) && Step(true, s, a).Some?
    ensures var s' := Step(true, s, a).value;
            var before, after := Values(s.heap, s.chain), Values(s'.heap, s'.chain);
            Some(after) == if Logged(s, a) == [] then Some(before) else Spec(before, Logged(s, a)[0])
  {
    var s' := Step(true, s, a).value;
    var before, after := Values(s.heap, s.chain), Values(s'.heap, s'.chain);
    if Logged(s, a) == [] {
      StepLocal(s, a);
      StepLogs(s, a);
      ValuesFrame(s, s', a.t);
    } else {
      assert Placed(s.heap, s.chain, s.threads[a.t]);
      match s.threads[a.t].pc {
        case PushCas(n, seen) => assert after == [ValAt(s.heap, n)] + before;
        case PopCas(seen, next) =>
          ChainPop(s.heap, s.top, s.chain);
          assert after == before[1..];
        case PopLoad => assert after == before;
      }
    }
  }

  lemma ReplayFrom(log: seq<Event>, logged: seq<Event>, before: seq<int>, after: seq<int>)
    requires |logged| <= 1 && Replay(log) == Some(before)
    requires Some(after) == if logged == [] then Some(before) else Spec(before, logged[0])
    ensures Replay(log + logged) == Some(after)
  {
    if logged == [] {
      assert log + logged == log;
    } else {
      assert (log + logged)[..|log|] == log;
    }
  }

  lemma StepKeepsReplay(s: State, a: Action)
    requires Shape(s) && Step(true, s, a).Some?
    requires Replay(s.log) == Some(Values(s.heap, s.chain))
    ensures var s' := Step(true, s, a).value; Replay(s'.log) == Some(Values(s'.heap, s'.chain))
  {
    StepValues(s, a);
    StepLogs(s, a);
    var s' := Step(true, s, a).value;
    ReplayFrom(s.log, Logged(s, a), Values(s.heap, s.chain), Values(s'.heap, s'.chain));
  }

  /** A thread's operations that took effect: returned, or about to. */
  function Effects(heap: map<nat, Node>, t: nat, th: Thread): seq<Event>
    requires |th.results| <= |th.prog|
  {
    Returned(t, th) + InFlight(heap, t, th.pc)
  }

  lemma ReturnedAppend(t: nat, th: Thread, r: Result, pc: Pc)
    requires |th.results| < |th.prog|
    ensures Returned(t, Thread(th.prog, th.results + [r], pc))
         == Returned(t, th) + [EventOf(t, th.prog[|th.results|], r)]
  {
  }

  /** They grow by exactly what the thread's own step logs, and by nothing else. */
  lemma OwnEffects(s: State, a: Action)
    requires Shape(s) && Step(true, s, a).Some?
    requires |s.threads[a.t].results| <= |s.threads[a.t].prog|
    ensures var s' := Step(true, s, a).value;
            && |s'.threads[a.t].results| <= |s'.threads[a.t].prog|
            && Effects(s'.heap, a.t, s'.threads[a.t]) == Effects(s.heap, a.t, s.threads[a.t]) + Logged(s, a)
  {
    var th, th' := s.threads[a.t], Step(true, s, a).value.threads[a.t];
    assert Placed(s.heap, s.chain, th);
    if th'.results != th.results {
      ReturnedAppend(a.t, th, th'.results[|th.results|], Idle);
    }
  }

  lemma OtherEffects(s: State, s': State, t: nat, u: nat)
    requires Shape(s) && Local(s, s', t) && u < |s.threads| && u != t
    requires |s.threads[u].results| <= |s.threads[u].prog|
    ensures Effects(s'.heap, u, s'.threads[u]) == Effects(s.heap, u, s.threads[u])
  {
    assert Placed(s.heap, s.chain, s.threads[u]);
  }

  lemma StepKeepsAgrees(s: State, a: Action, t: nat)
    requires Shape(s) && Step(true, s, a).Some? && t < |s.threads| && Agrees(s, t)
    ensures Agrees(Step(true, s, a).value, t)
  {
    StepLocal(s, a);
    StepLogs(s, a);
    if t == a.t {
      OwnEffects(s, a);
    } else {
      OtherEffects(s, Step(true, s, a).value, a.t, t);
    }
    if Logged(s, a) == [] {
      assert s.log + [] == s.log;
    } else {
      ProjectAppend(s.log, Logged(s, a)[0], t);
    }
  }

  ghost predicate Inv(s: State) {
    && Shape(s)
    && Replay(s.log) == Some(Values(s.heap, s.chain))
    && forall t :: 0 <= t < |s.threads| ==> Agrees(s, t)
  }

  lemma StepKeepsInv(s: State, a: Action)
    requires Inv(s) && Step(true, s, a).Some?
    ensures Inv(Step(true, s, a).value)
  {
    StepKeepsShape(s, a);
    StepKeepsReplay(s, a);
    forall t | 0 <= t < |s.threads| ensures Agrees(Step(true, s, a).value, t) {
      StepKeepsAgrees(s, a, t);
    }
  }

  lemma InitInv(progs: seq<seq<Op>>)
    ensures Inv(Init(progs))
  {
    var s := Init(progs);
    assert Values(s.heap, s.chain) == [];
    forall t | 0 <= t < |s.threads| ensures Agrees(s, t) {
      assert Returned(t, s.threads[t]) == [];
    }
  }

  lemma GuardedRunInv(progs: seq<seq<Op>>, schedule: seq<Action>)
    requires Valid(Stack(true), Init(progs), schedule)
    ensures Inv(Final(Stack(true), Init(progs), schedule))
  {
    InitInv(progs);
    forall s, a | Inv(s) && Stack(true)(s, a).Some? ensures Inv(Stack(true)(s, a).value) {
      StepKeepsInv(s, a);
    }
    RunKeeps(Stack(true), Inv, Init(progs), schedule);
  }

  /** Every run of every set of programs is linearizable, if no node is freed while another
      thread's pop loop still refers to it. */
  lemma GuardedLinearizable(progs: seq<seq<Op>>, schedule: seq<Action>)
    requires Valid(Stack(true), Init(progs), schedule)
    ensures Linearized(Final(Stack(true), Init(progs), schedule))
  {
    GuardedRunInv(progs, schedule);
    ShapeNotFaulty(Final(Stack(true), Init(progs), schedule));
  }

  /** A chain is determined by its first node, so following `next` from `stack_top` visits
      each of its nodes once and ends. */
  lemma {:induction false} ChainUnique(heap: map<nat, Node>, p: nat, c: seq<nat>, d: seq<nat>)
    requires IsChain(heap, p, c) && IsChain(heap, p, d)
    ensures c == d
    decreases |c|
  {
    if p != NULL {
      ChainPop(heap, p, c);
      ChainPop(heap, p, d);
      ChainUnique(heap, heap[p].next, c[1..], d[1..]);
      assert c == [c[0]] + c[1..] && d == [d[0]] + d[1..];
    }
  }

  ghost predicate OwnedBySome(s: State, p: nat) {
    exists t :: 0 <= t < |s.threads| && Owned(s.threads[t].pc) == p
  }

  /** Every allocated node is on the chain or owned by a thread: none leaks. */
  ghost predicate Accounted(s: State) {
    NULL !in s.heap && forall p :: p in s.heap ==> p in s.chain || OwnedBySome(s, p)
  }

  /** A node that comes, stays or leaves the chain is the mover's. */
  lemma StepAccounts(s: State, a: Action, p: nat)
    requires Shape(s) && Step(true, s, a).Some? && NULL !in s.heap
    ensures NULL !in Step(true, s, a).value.heap
    ensures var s' := Step(true, s, a).value;
            var mine, mine' := Owned(s.threads[a.t].pc), Owned(s'.threads[a.t].pc);
            && (p in s'.heap ==> p in s.heap || p == mine')
            && (p in s.chain ==> p in s'.chain || p == mine')
            && (p in s'.heap && p == mine ==> p == mine' || p in s'.chain)
  {
    assert Placed(s.heap, s.chain, s.threads[a.t]);
    if s.chain != [] {
      assert s.chain == [s.chain[0]] + s.chain[1..];
    }
    if s.threads[a.t].pc.PushCas? {
      assert p in [s.threads[a.t].pc.n] + s.chain <==> p == s.threads[a.t].pc.n || p in s.chain;
    }
  }

  lemma StepKeepsAccounted(s: State, a: Action)
    requires Shape(s) && Accounted(s) && Step(true, s, a).Some?
    ensures Accounted(Step(true, s, a).value)
  {
    var s' := Step(true, s, a).value;
    StepLocal(s, a);
    StepAccounts(s, a, NULL);
    forall p | p in s'.heap ensures p in s'.chain || OwnedBySome(s', p) {
      StepAccounts(s, a, p);
      if p !in s'.chain && p != Owned(s'.threads[a.t].pc) {
        var t :| 0 <= t < |s.threads| && Owned(s.threads[t].pc) == p;
        assert Owned(s'.threads[t].pc) == p;
      }
    }
  }

  lemma GuardedRunAccounted(progs: seq<seq<Op>>, schedule: seq<Action>)
    requires Valid(Stack(true), Init(progs), schedule)
    ensures Accounted(Final(Stack(true), Init(progs), schedule))
  {
    InitInv(progs);
    var inv := s => Inv(s) && Accounted(s);
    forall s, a | inv(s) && Stack(true)(s, a).Some? ensures inv(Stack(true)(s, a).value) {
      StepKeepsInv(s, a);
      StepKeepsAccounted(s, a);
    }
    RunKeeps(Stack(true), inv, Init(progs), schedule);
  }

  /** Operations take effect between their call and their return: at any moment the operations
      that have returned are in the log and those not yet called are not. */
  lemma LogHasReturned(s: State, t: nat)
    requires Inv(s) && t < |s.threads|
    ensures |s.threads[t].results| <= |Project(s.log, t)| <= |s.threads[t].results| + 1
    ensures s.threads[t].pc == Idle ==> |Project(s.log, t)| == |s.threads[t].results|
  {
    assert Agrees(s, t);
  }

  /** The log is only ever extended. */
  lemma {:induction false} LogGrows(s: State, schedule: seq<Action>)
    requires Valid(Stack(true), s, schedule)
    ensures s.log <= Final(Stack(true), s, schedule).log
    decreases |schedule|
  {
    if schedule != [] {
      StepLogs(s, schedule[0]);
      LogGrows(Step(true, s, schedule[0]).value, schedule[1..]);
    }
  }

  /** Where in the log thread t's j-th operation took effect. */
  function Position(log: seq<Event>, t: nat, j: nat): (i: nat)
    requires j < |Project(log, t)|
    ensures i < |log| && log[i] == Project(log, t)[j]
  {
    var before := log[..|log| - 1];
    if j < |Project(before, t)| then Position(before, t, j) else |log| - 1
  }

  lemma {:induction false} ProjectGrows(log: seq<Event>, n: nat, t: nat)
    requires n <= |log|
    ensures |Project(log[..n], t)| <= |Project(log, t)|
    decreases |log|
  {
    if n == |log| {
      assert log[..n] == log;
    } else {
      assert log[..n] == log[..|log| - 1][..n];
      ProjectGrows(log[..|log| - 1], n, t);
    }
  }

  /** Positions stay as the log grows, and what comes later comes after. */
  lemma {:induction false} PositionStays(log: seq<Event>, n: nat, t: nat, j: nat)
    requires n <= |log| && j < |Project(log, t)|
    ensures if j < |Project(log[..n], t)| then Position(log, t, j) == Position(log[..n], t, j) else Position(log, t, j) >= n
    decreases |log|
  {
    var before := log[..|log| - 1];
    if n == |log| {
      assert log[..n] == log;
    } else {
      assert log[..n] == before[..n];
      if j < |Project(before, t)| {
        PositionStays(before, n, t, j);
      } else {
        ProjectGrows(before, n, t);
      }
    }
  }

  /** The order of effects respects real time: if thread t's j-th operation has returned when thread u
      has not yet called its k-th, then it takes effect before it. */
  lemma RealTimeOrder(progs: seq<seq<Op>>, first: seq<Action>, second: seq<Action>, t: nat, j: nat, u: nat, k: nat)
    requires Valid(Stack(true), Init(progs), first)
    requires var s1 := Final(Stack(true), Init(progs), first);
             && Valid(Stack(true), s1, second)
             && t < |s1.threads| && j < |s1.threads[t].results|
             && u < |s1.threads| && s1.threads[u].pc == Idle && |s1.threads[u].results| <= k
    ensures var log := Final(Stack(true), Final(Stack(true), Init(progs), first), second).log;
            j < |Project(log, t)| && (k < |Project(log, u)| ==> Position(log, t, j) < Position(log, u, k))
  {
    var s1 := Final(Stack(true), Init(progs), first);
    var log := Final(Stack(true), s1, second).log;
    GuardedRunInv(progs, first);
    LogHasReturned(s1, t);
    LogHasReturned(s1, u);
    LogGrows(s1, second);
    assert log[..|s1.log|] == s1.log;
    ProjectGrows(log, |s1.log|, t);
    if k < |Project(log, u)| {
      PositionStays(log, |s1.log|, t, j);
      PositionStays(log, |s1.log|, u, k);
    }
  }

  // ------------------------------------------------------- retries are bounded

  /** The step is a compare-and-swap that fails because `stack_top` has changed. */
  predicate Loses(s: State, a: Action) {
    && a.t < |s.threads| && a.Move?
    && var pc := s.threads[a.t].pc;
       (pc.PushCas? || pc.PopCas?) && s.top != pc.seen
  }

  function Losses(guarded: bool, s: State, schedule: seq<Action>): nat
    requires Valid(Stack(guarded), s, schedule)
    decreases |schedule|
  {
    if schedule == [] then 0
    else (if Loses(s, schedule[0]) then 1 else 0) + Losses(guarded, Stack(guarded)(s, schedule[0]).value, schedule[1..])
  }

  /** Operations that took effect by a successful compare-and-swap. */
  function Wins(log: seq<Event>): nat {
    if log == [] then 0 else Wins(log[..|log| - 1]) + (if log[|log| - 1].Empty? then 0 else 1)
  }

  predicate Loaded(pc: Pc) { pc.PushLink? || pc.PushCas? || pc.PopNext? || pc.PopCas? }

  /** The thread has loaded a top that is no longer the top. */
  function Stale(top: nat): Thread -> int {
    (th: Thread) => if Loaded(th.pc) && th.pc.seen != top then 1 else 0
  }

  /** A failing compare-and-swap used up a stale load; a step either succeeds, or leaves the
      top alone and makes no load stale. */
  lemma StepSeen(guarded: bool, s: State, a: Action)
    requires Step(guarded, s, a).Some?
    ensures var s' := Step(guarded, s, a).value;
            && a.t < |s.threads| && s'.threads == s.threads[a.t := s'.threads[a.t]]
            && if s'.log != s.log && !s'.log[|s'.log| - 1].Empty?
               then |s'.log| == |s.log| + 1 && s'.log[..|s.log|] == s.log
                    && !Loses(s, a) && !Loaded(s'.threads[a.t].pc)
               else s'.top == s.top && (s'.log == s.log || (|s'.log| == |s.log| + 1 && s'.log[..|s.log|] == s.log))
                    && (if Loses(s, a) then 1 else 0) + Stale(s.top)(s'.threads[a.t]) <= Stale(s.top)(s.threads[a.t])
  {
  }

  /** Failures still allowed: T-1 for every success, less the loads that are stale already. */
  function Credit(s: State): int {
    (|s.threads| - 1) * Wins(s.log) - Sum(Stale(s.top), s.threads)
  }

  /** Only a success makes loads stale, at most one per other thread. */
  lemma BudgetFrom(s: State, s': State, t: nat, lost: nat)
    requires t < |s.threads| == |s'.threads| && s'.threads == s.threads[t := s'.threads[t]]
    requires if s'.log != s.log && s'.log != [] && !s'.log[|s'.log| - 1].Empty?
             then |s'.log| == |s.log| + 1 && s'.log[..|s.log|] == s.log && lost == 0 && !Loaded(s'.threads[t].pc)
             else s'.top == s.top && (s'.log == s.log || (|s'.log| == |s.log| + 1 && s'.log[..|s.log|] == s.log))
                  && lost + Stale(s.top)(s'.threads[t]) <= Stale(s.top)(s.threads[t])
    ensures lost + Credit(s) <= Credit(s')
  {
    if Wins(s'.log) == Wins(s.log) {
      SumUpdate(Stale(s.top), s.threads, t, s'.threads[t]);
    } else {
      SumBelow(Stale(s'.top), s'.threads, t);
      SumWithinNat(Stale(s.top), s.threads);
      assert (|s.threads| - 1) * (Wins(s.log) + 1) == (|s.threads| - 1) * Wins(s.log) + (|s.threads| - 1);
    }
  }

  lemma StepBudget(guarded: bool, s: State, a: Action)
    requires Step(guarded, s, a).Some?
    ensures (if Loses(s, a) then 1 else 0) + Credit(s) <= Credit(Step(guarded, s, a).value)
  {
    StepSeen(guarded, s, a);
    BudgetFrom(s, Step(guarded, s, a).value, a.t, if Loses(s, a) then 1 else 0);
  }

  lemma {:induction false} RunBudget(guarded: bool, s: State, schedule: seq<Action>)
    requires Valid(Stack(guarded), s, schedule)
    ensures |Final(Stack(guarded), s, schedule).threads| == |s.threads|
    ensures Losses(guarded, s, schedule) + Credit(s) <= Credit(Final(Stack(guarded), s, schedule))
    decreases |schedule|
  {
    if schedule != [] {
      StepBudget(guarded, s, schedule[0]);
      RunBudget(guarded, Step(guarded, s, schedule[0]).value, schedule[1..]);
    }
  }

  lemma CreditInit(progs: seq<seq<Op>>)
    ensures Credit(Init(progs)) == 0
  {
    SumWithin(Stale(NULL), Init(progs).threads, 0, 0);
  }

  lemma CreditBelow(s: State)
    ensures Credit(s) <= (|s.threads| - 1) * Wins(s.log)
  {
    SumWithinNat(Stale(s.top), s.threads);
  }

  /** Lock-freedom, quantified: in any run of any programs, with or without the reclamation
      guard, at most T-1 compare-and-swaps fail for each one that succeeds. */
  lemma RetriesBounded(guarded: bool, progs: seq<seq<Op>>, schedule: seq<Action>)
    requires Valid(Stack(guarded), Init(progs), schedule)
    ensures Losses(guarded, Init(progs), schedule)
              <= (|progs| - 1) * Wins(Final(Stack(guarded), Init(progs), schedule).log)
  {
    RunBudget(guarded, Init(progs), schedule);
    CreditInit(progs);
    CreditBelow(Final(Stack(guarded), Init(progs), schedule));
  }
}
