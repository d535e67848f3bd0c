/** labs/lab_24_lockfree.c: the lock-free stack, as steps of any number of threads.

    Each thread runs its own program of pushes and pops.  Every access to shared
    memory is a step of its own: the load of `stack_top`, the store or load of a
    node's `next`, the compare-and-swap, the read of `val`, the `free`.
 */
module TreiberStack {
  import opened Runs
  import opened Sums

  const NULL: nat := 0

  datatype Node = Node(val: int, next: nat)

  datatype Op = Push(v: int) | Pop

  datatype Result = Done | Got(v: int) | WasEmpty

  /** Where a thread stands inside `push` or `pop`, with its live local variables. */
  datatype Pc =
    | Idle
    | PushLoad(n: nat)
    | PushLink(n: nat, seen: nat)
    | PushCas(n: nat, seen: nat)
    | PopLoad
    | PopNext(seen: nat)
    | PopCas(seen: nat, next: nat)
    | PopVal(seen: nat)
    | PopFree(seen: nat, val: int)

  /** A thread's program, the results of its completed operations, and its position. */
  datatype Thread = Thread(prog: seq<Op>, results: seq<Result>, pc: Pc)

  datatype Event = Pushed(t: nat, v: int) | Popped(t: nat, v: int) | Empty(t: nat)

  /** `heap` and `top` are the shared memory.  The rest is bookkeeping no step tests:
      `chain` the published nodes from the top down, `log` the operations in the order
      they took effect. */
  datatype State = State(heap: map<nat, Node>, top: nat, threads: seq<Thread>, chain: seq<nat>, log: seq<Event>)

  /** Move is the only way on, except that `malloc` chooses a free address and the
      garbage found there, and a weak compare-and-swap may fail for no reason. */
  datatype Action =
    | Move(t: nat)
    | Malloc(t: nat, addr: nat, junk: nat)
    | Spurious(t: nat)

  function Init(progs: seq<seq<Op>>): State {
    State(map[], NULL, seq(|progs|, t requires 0 <= t < |progs| => Thread(progs[t], [], Idle)), [], [])
  }

  // ------------------------------------------------------------------ steps

  /** The node a thread owns: not yet published, or already unlinked by it. */
  function Owned(pc: Pc): nat {
    match pc
    case PushLoad(n) => n
    case PushLink(n, _) => n
    case PushCas(n, _) => n
    case PopVal(seen) => seen
    case PopFree(seen, _) => seen
    case _ => NULL
  }

  function PushOwned(pc: Pc): nat {
    match pc
    case PushLoad(n) => n
    case PushLink(n, _) => n
    case PushCas(n, _) => n
    case _ => NULL
  }

  /** The node a thread inside its pop loop still refers to. */
  function Held(pc: Pc): nat {
    match pc
    case PopNext(seen) => seen
    case PopCas(seen, _) => seen
    case _ => NULL
  }

  function At(s: State, t: nat, pc: Pc): State
    requires t < |s.threads|
  {
    s.(threads := s.threads[t := s.threads[t].(pc := pc)])
  }

  function Return(s: State, t: nat, r: Result): State
    requires t < |s.threads|
  {
    s.(threads := s.threads[t := Thread(s.threads[t].prog, s.threads[t].results + [r], Idle)])
  }

  /** No other thread is in its pop loop with this node: the reclamation guard. */
  predicate Unheld(s: State, t: nat, p: nat) {
    forall u :: 0 <= u < |s.threads| && u != t ==> Held(s.threads[u].pc) != p
  }

  function ValAt(heap: map<nat, Node>, p: nat): int {
    if p in heap then heap[p].val else 0
  }

  function Tail(chain: seq<nat>): seq<nat> {
    if chain == [] then [] else chain[1..]
  }

  function Begin(s: State, a: Action, op: Op): Option<State>
    requires a.t < |s.threads|
  {
    match op
    case Push(v) =>
      if a.Malloc? && a.addr != NULL && a.addr !in s.heap
      then Some(At(s, a.t, PushLoad(a.addr)).(heap := s.heap[a.addr := Node(v, a.junk)]))
      else None
    case Pop =>
      if a.Move? then Some(At(s, a.t, PopLoad)) else None
  }

  function PushCasStep(s: State, a: Action, n: nat, seen: nat): Option<State>
    requires a.t < |s.threads|
  {
    if s.top != seen then
      if a.Spurious? then None else Some(At(s, a.t, PushLoad(n)))
    else if a.Spurious? then Some(At(s, a.t, PushLoad(n)))
    else
      Some(Return(s, a.t, Done).(
        top := n, chain := [n] + s.chain, log := s.log + [Pushed(a.t, ValAt(s.heap, n))]))
  }

  function PopCasStep(s: State, a: Action, seen: nat, next: nat): Option<State>
    requires a.t < |s.threads|
  {
    if s.top != seen then
      if a.Spurious? then None else Some(At(s, a.t, PopLoad))
    else if a.Spurious? then Some(At(s, a.t, PopLoad))
    else
      Some(At(s, a.t, PopVal(seen)).(
        top := next, chain := Tail(s.chain), log := s.log + [Popped(a.t, ValAt(s.heap, seen))]))
  }

  /** One step of thread t.  With `guarded`, a popped node is freed only once no other
      pop loop refers to it; without, at once, as the source does.  An access to memory
      that is not allocated has no successor: see Faulty. */
  function Step(guarded: bool, s: State, a: Action): (r: Option<State>)
    ensures r.Some? ==> a.t < |s.threads| == |r.value.threads|
  {
    if a.t >= |s.threads| then None
    else
      var th := s.threads[a.t];
      match th.pc
      case Idle =>
        if |th.results| >= |th.prog| then None else Begin(s, a, th.prog[|th.results|])
      case PushLoad(n) =>
        if a.Move? then Some(At(s, a.t, PushLink(n, s.top))) else None
      case PushLink(n, seen) =>
        if a.Move? && n in s.heap
        then Some(At(s, a.t, PushCas(n, seen)).(heap := s.heap[n := s.heap[n].(next := seen)]))
        else None
      case PushCas(n, seen) =>
        if a.Malloc? then None else PushCasStep(s, a, n, seen)
      case PopLoad =>
        if !a.Move? then None
        else if s.top == NULL then Some(Return(s, a.t, WasEmpty).(log := s.log + [Empty(a.t)]))
        else Some(At(s, a.t, PopNext(s.top)))
      case PopNext(seen) =>
        if a.Move? && seen in s.heap then Some(At(s, a.t, PopCas(seen, s.heap[seen].next))) else None
      case PopCas(seen, next) =>
        if a.Malloc? then None else PopCasStep(s, a, seen, next)
      case PopVal(seen) =>
        if a.Move? && seen in s.heap then Some(At(s, a.t, PopFree(seen, s.heap[seen].val))) else None
      case PopFree(seen, val) =>
        if a.Move? && seen in s.heap && (guarded ==> Unheld(s, a.t, seen))
        then Some(Return(s, a.t, Got(val)).(heap := s.heap - {seen}))
        else None
  }

  function Stack(guarded: bool): Machine<State, Action> { (s, a) => Step(guarded, s, a) }

  // ----------------------------------------------------------- specification

  /** The sequential stack: what one operation does to the values, top first. */
  function Spec(values: seq<int>, e: Event): Option<seq<int>> {
    match e
    case Pushed(_, v) => Some([v] + values)
    case Popped(_, v) => if values != [] && values[0] == v then Some(values[1..]) else None
    case Empty(_) => if values == [] then Some([]) else None
  }

  /** The stack after the logged operations, if a sequential stack could do them in this order. */
  function Replay(log: seq<Event>): Option<seq<int>> {
    if log == [] then Some([])
    else
      var before := Replay(log[..|log| - 1]);
      if before.None? then None else Spec(before.value, log[|log| - 1])
  }

  /** The logged operations of thread t, in order. */
  function Project(log: seq<Event>, t: nat): seq<Event> {
    if log == [] then []
    else
      var before := Project(log[..|log| - 1], t);
      if log[|log| - 1].t == t then before + [log[|log| - 1]] else before
  }

  function EventOf(t: nat, op: Op, r: Result): Event {
    match op
    case Push(v) => Pushed(t, v)
    case Pop => if r.Got? then Popped(t, r.v) else Empty(t)
  }

  /** What thread t's operations have returned so far, as events. */
  function Returned(t: nat, th: Thread): seq<Event>
    requires |th.results| <= |th.prog|
  {
    seq(|th.results|, i requires 0 <= i < |th.results| => EventOf(t, th.prog[i], th.results[i]))
  }

  /** The operation that has taken effect but not returned yet, if there is one. */
  function InFlight(heap: map<nat, Node>, t: nat, pc: Pc): seq<Event> {
    match pc
    case PopVal(seen) => [Popped(t, ValAt(heap, seen))]
    case PopFree(_, val) => [Popped(t, val)]
    case _ => []
  }

  function After(chain: seq<nat>, i: nat): nat {
    if i + 1 < |chain| then chain[i + 1] else NULL
  }

  /** The nodes from p to NULL, each allocated, none twice. */
  predicate IsChain(heap: map<nat, Node>, p: nat, chain: seq<nat>) {
    && (forall i :: 0 <= i < |chain| ==> chain[i] != NULL && chain[i] in heap)
    && (forall i, j :: 0 <= i < j < |chain| ==> chain[i] != chain[j])
    && p == (if chain == [] then NULL else chain[0])
    && (forall i {:trigger After(chain, i)} :: 0 <= i < |chain| ==> heap[chain[i]].next == After(chain, i))
  }

  function Values(heap: map<nat, Node>, chain: seq<nat>): seq<int> {
    seq(|chain|, i requires 0 <= i < |chain| => ValAt(heap, chain[i]))
  }

  /** The address a thread's next step reads, writes or frees through, if any. */
  function Touches(pc: Pc): nat {
    match pc
    case PushLink(n, _) => n
    case PopNext(seen) => seen
    case PopVal(seen) => seen
    case PopFree(seen, _) => seen
    case _ => NULL
  }

  /** Some thread is about to touch memory that is not allocated. */
  predicate Faulty(s: State) {
    exists t :: 0 <= t < |s.threads| && Touches(s.threads[t].pc) != NULL && Touches(s.threads[t].pc) !in s.heap
  }

  ghost predicate Agrees(s: State, t: nat)
    requires t < |s.threads|
  {
    var th := s.threads[t];
    && |th.results| <= |th.prog|
    && Project(s.log, t) == Returned(t, th) + InFlight(s.heap, t, th.pc)
  }

  /** The stack behaves as one object that does one whole operation at a time:
      - the memory reached from `stack_top` is a finite chain of allocated nodes;
      - the logged operations are a legal history of a sequential stack, which ends with
        exactly the values on that chain;
      - each thread's part of the log is its program so far, with the results it was
        given, plus at most the operation it is in;
      - nobody is about to touch freed memory. */
  ghost predicate Linearized(s: State) {
    && IsChain(s.heap, s.top, s.chain)
    && Replay(s.log) == Some(Values(s.heap, s.chain))
    && (forall t :: 0 <= t < |s.threads| ==> Agrees(s, t))
    && !Faulty(s)
  }
}
