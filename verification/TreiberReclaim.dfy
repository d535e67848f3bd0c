/** When is it safe to free a popped node at once, as `pop` does?  The answer is a property
    of the threads' programs that can be read off before they start. */
module TreiberReclaim {
  import opened Runs
  import opened TreiberStack
  import opened TreiberProof

  ghost predicate HasPop(prog: seq<Op>) {
    exists j :: 0 <= j < |prog| && prog[j] == Pop
  }

  ghost predicate PopAfter(prog: seq<Op>, i: nat) {
    exists j :: i < j < |prog| && prog[j] == Pop
  }

  /** Threads a and b can both be inside `pop` after c's i-th operation, a push, is done. */
  ghost predicate HazardAt(progs: seq<seq<Op>>, a: nat, b: nat, c: nat, i: nat) {
    && a < |progs| && b < |progs| && c < |progs| && a != b
    && HasPop(progs[a]) && HasPop(progs[b])
    && i < |progs[c]| && progs[c][i].Push?
    && (c == a || c == b ==> PopAfter(progs[c], i))
  }

  ghost predicate Hazard(progs: seq<seq<Op>>) {
    exists a, b, c, i :: HazardAt(progs, a, b, c, i)
  }

  // ------------------------------------------------- no hazard: freeing is safe

  ghost predicate Supplied(s: State) {
    exists c, i :: 0 <= c < |s.threads| && 0 <= i < |s.threads[c].results| && i < |s.threads[c].prog| && s.threads[c].prog[i].Push?
  }

  /** There is something to hold only after a push has returned. */
  ghost predicate NothingFromNothing(s: State) {
    && (s.top != NULL ==> Supplied(s))
    && (forall t :: 0 <= t < |s.threads| ==> Held(s.threads[t].pc) != NULL ==> Supplied(s))
  }

  ghost predicate Executes(progs: seq<seq<Op>>, s: State) {
    |s.threads| == |progs| && forall t :: 0 <= t < |progs| ==> s.threads[t].prog == progs[t]
  }

  ghost predicate ReclaimInv(progs: seq<seq<Op>>, s: State) {
    Inv(s) && Executes(progs, s) && NothingFromNothing(s)
  }

  lemma SuppliedFrom(s: State, s': State, t: nat)
    requires Local(s, s', t) && Supplied(s)
    ensures Supplied(s')
  {
    var c, i :| 0 <= c < |s.threads| && 0 <= i < |s.threads[c].results| && i < |s.threads[c].prog| && s.threads[c].prog[i].Push?;
    assert s'.threads[c].prog[i].Push?;
  }

  /** From an empty stack nobody holds anything of, only a finished push leads on. */
  lemma StepFromNothing(s: State, a: Action)
    requires Shape(s) && Step(true, s, a).Some? && s.top == NULL && Held(s.threads[a.t].pc) == NULL
    ensures var s' := Step(true, s, a).value;
            (s'.top == NULL && Held(s'.threads[a.t].pc) == NULL) || Supplied(s')
  {
    var s', th := Step(true, s, a).value, s.threads[a.t];
    assert Placed(s.heap, s.chain, th);
    if th.pc.PushCas? && s'.top != NULL {
      assert s'.threads[a.t].prog[|th.results|].Push?;
    }
  }

  lemma StepKeepsReclaimInv(progs: seq<seq<Op>>, s: State, a: Action)
    requires ReclaimInv(progs, s) && Step(true, s, a).Some?
    ensures ReclaimInv(progs, Step(true, s, a).value)
  {
    StepKeepsInv(s, a);
    StepLocal(s, a);
    if Supplied(s) {
      SuppliedFrom(s, Step(true, s, a).value, a.t);
    } else {
      StepFromNothing(s, a);
    }
  }

  /** Two pop loops cannot meet at one node. */
  lemma GuardHolds(progs: seq<seq<Op>>, s: State, t: nat)
    requires ReclaimInv(progs, s) && !Hazard(progs)
    requires t < |s.threads| && s.threads[t].pc.PopFree?
    ensures Unheld(s, t, s.threads[t].pc.seen)
  {
    forall u | 0 <= u < |s.threads| && u != t && Held(s.threads[u].pc) == s.threads[t].pc.seen ensures false {
      assert Placed(s.heap, s.chain, s.threads[t]) && Placed(s.heap, s.chain, s.threads[u]);
      var c, i :| 0 <= c < |s.threads| && 0 <= i < |s.threads[c].results| && i < |s.threads[c].prog| && s.threads[c].prog[i].Push?;
      assert progs[t][|s.threads[t].results|] == Pop && progs[u][|s.threads[u].results|] == Pop;
      assert HazardAt(progs, t, u, c, i);
    }
  }

  lemma {:induction false} FreeAtOnceIsGuarded(progs: seq<seq<Op>>, s: State, schedule: seq<Action>)
    requires ReclaimInv(progs, s) && !Hazard(progs) && Valid(Stack(false), s, schedule)
    ensures Valid(Stack(true), s, schedule)
    ensures Final(Stack(true), s, schedule) == Final(Stack(false), s, schedule)
    decreases |schedule|
  {
    if schedule != [] {
      var a := schedule[0];
      if s.threads[a.t].pc.PopFree? {
        GuardHolds(progs, s, a.t);
      }
      assert Step(true, s, a) == Step(false, s, a);
      StepKeepsReclaimInv(progs, s, a);
      FreeAtOnceIsGuarded(progs, Step(true, s, a).value, schedule[1..]);
    }
  }

  lemma NoHazardLinearizable(progs: seq<seq<Op>>, schedule: seq<Action>)
    requires !Hazard(progs) && Valid(Stack(false), Init(progs), schedule)
    ensures Linearized(Final(Stack(false), Init(progs), schedule))
  {
    InitInv(progs);
    FreeAtOnceIsGuarded(progs, Init(progs), schedule);
    GuardedLinearizable(progs, schedule);
  }

  // ----------------------------------------- hazard: some run touches freed memory

  ghost predicate Quiet(s: State) {
    forall t :: 0 <= t < |s.threads| ==> s.threads[t].pc == Idle
  }

  lemma {:induction false} BoundOf(keys: set<nat>) returns (b: nat)
    ensures b > 0 && forall k :: k in keys ==> k < b
    decreases keys
  {
    b := 1;
    if keys != {} {
      var k :| k in keys;
      b := BoundOf(keys - {k});
      b := if k < b then b else k + 1;
      assert forall j :: j in keys ==> j == k || j in keys - {k};
    }
  }

  function AfterPush(s: State, t: nat, addr: nat, v: int): State
    requires t < |s.threads|
  {
    Return(s, t, Done).(
      heap := s.heap[addr := Node(v, s.top)], top := addr, chain := [addr] + s.chain, log := s.log + [Pushed(t, v)])
  }

  /** Malloc and three moves take an idle thread through a whole push, whatever the new node contained. */
  lemma SoloPush(s: State, t: nat, addr: nat, junk: nat, v: int)
    requires t < |s.threads| && s.threads[t].pc == Idle && Doing(s.threads[t], Push(v))
    requires addr != NULL && addr !in s.heap
    ensures var schedule := [Malloc(t, addr, junk), Move(t), Move(t), Move(t)];
            Valid(Stack(true), s, schedule) && Final(Stack(true), s, schedule) == AfterPush(s, t, addr, v)
  {
    var s1 := At(s, t, PushLoad(addr)).(heap := s.heap[addr := Node(v, junk)]);
    var s2 := At(s, t, PushLink(addr, s.top)).(heap := s.heap[addr := Node(v, junk)]);
    var s3 := At(s, t, PushCas(addr, s.top)).(heap := s.heap[addr := Node(v, s.top)]);
    var s4 := AfterPush(s, t, addr, v);
    assert s1.threads[t := s2.threads[t]] == s2.threads && s2.threads[t := s3.threads[t]] == s3.threads;
    assert s3.threads[t := s4.threads[t]] == s4.threads;
    assert s2.heap[addr := Node(v, s.top)] == s3.heap;
    FourSteps(Stack(true), s, Malloc(t, addr, junk), s1, Move(t), s2, Move(t), s3, Move(t), s4);
  }

  function AfterPop(s: State, t: nat): State
    requires t < |s.threads| && s.top in s.heap
  {
    Return(s, t, Got(s.heap[s.top].val)).(
      heap := s.heap - {s.top}, top := s.heap[s.top].next, chain := Tail(s.chain),
      log := s.log + [Popped(t, s.heap[s.top].val)])
  }

  /** Three moves take an idle thread as far as the compare-and-swap of its pop. */
  lemma SoloReads(guarded: bool, s: State, t: nat)
    requires t < |s.threads| && s.threads[t].pc == Idle && Doing(s.threads[t], Pop) && s.top != NULL && s.top in s.heap
    ensures var schedule := [Move(t), Move(t), Move(t)];
            && Valid(Stack(guarded), s, schedule)
            && Final(Stack(guarded), s, schedule) == At(s, t, PopCas(s.top, s.heap[s.top].next))
  {
    var m := Stack(guarded);
    var s1 := Step(guarded, s, Move(t)).value;
    var s2 := Step(guarded, s1, Move(t)).value;
    var s3 := Step(guarded, s2, Move(t)).value;
    assert s3.threads == At(s, t, PopCas(s.top, s.heap[s.top].next)).threads;
    Cons(m, s2, Move(t), []);
    Cons(m, s1, Move(t), [Move(t)]);
    Cons(m, s, Move(t), [Move(t), Move(t)]);
  }

  /** Three more unlink the top, read its value and free it. */
  lemma SoloTakes(guarded: bool, s: State, t: nat)
    requires t < |s.threads| && s.top in s.heap && s.threads[t].pc == PopCas(s.top, s.heap[s.top].next)
    requires guarded ==> Unheld(s, t, s.top)
    ensures var schedule := [Move(t), Move(t), Move(t)];
            Valid(Stack(guarded), s, schedule) && Final(Stack(guarded), s, schedule) == AfterPop(s, t)
  {
    var m := Stack(guarded);
    var s1 := Step(guarded, s, Move(t)).value;
    var s2 := Step(guarded, s1, Move(t)).value;
    assert s2.threads == At(s, t, PopFree(s.top, s.heap[s.top].val)).threads;
    var s3 := Step(guarded, s2, Move(t)).value;
    assert s3.threads == AfterPop(s, t).threads;
    Cons(m, s2, Move(t), []);
    Cons(m, s1, Move(t), [Move(t)]);
    Cons(m, s, Move(t), [Move(t), Move(t)]);
  }

  /** Six moves take an idle thread through a whole pop; the last one frees the node. */
  lemma SoloPop(guarded: bool, s: State, t: nat)
    requires t < |s.threads| && s.threads[t].pc == Idle && Doing(s.threads[t], Pop)
    requires s.top != NULL && s.top in s.heap && (guarded ==> Unheld(s, t, s.top))
    ensures var schedule := [Move(t), Move(t), Move(t), Move(t), Move(t), Move(t)];
            Valid(Stack(guarded), s, schedule) && Final(Stack(guarded), s, schedule) == AfterPop(s, t)
  {
    var half := [Move(t), Move(t), Move(t)];
    var s1 := At(s, t, PopCas(s.top, s.heap[s.top].next));
    SoloReads(guarded, s, t);
    SoloTakes(guarded, s1, t);
    assert AfterPop(s1, t) == AfterPop(s, t);
    Concat(Stack(guarded), s, half, half);
    assert half + half == [Move(t), Move(t), Move(t), Move(t), Move(t), Move(t)];
  }

  lemma SoloEmpty(s: State, t: nat)
    requires t < |s.threads| && s.threads[t].pc == Idle && Doing(s.threads[t], Pop) && s.top == NULL
    ensures var schedule := [Move(t), Move(t)];
            && Valid(Stack(true), s, schedule)
            && Final(Stack(true), s, schedule) == Return(s, t, WasEmpty).(log := s.log + [Empty(t)])
  {
    var s1 := Step(true, s, Move(t)).value;
    var s2 := Step(true, s1, Move(t)).value;
    assert s2.threads == Return(s, t, WasEmpty).threads;
    Cons(Stack(true), s1, Move(t), []);
    Cons(Stack(true), s, Move(t), [Move(t)]);
  }

  lemma {:induction false} RunKeepsInv(s: State, schedule: seq<Action>)
    requires Inv(s) && Valid(Stack(true), s, schedule)
    ensures Inv(Final(Stack(true), s, schedule))
    decreases |schedule|
  {
    if schedule != [] {
      StepKeepsInv(s, schedule[0]);
      RunKeepsInv(Step(true, s, schedule[0]).value, schedule[1..]);
    }
  }

  /** From s, thread t alone reached s': it is idle again with k operations done. */
  ghost predicate RanAlone(s: State, t: nat, k: nat, s': State) {
    && Inv(s') && Quiet(s')
    && t < |s.threads| == |s'.threads|
    && (forall u :: 0 <= u < |s.threads| ==> s'.threads[u].prog == s.threads[u].prog)
    && (forall u :: 0 <= u < |s.threads| && u != t ==> s'.threads[u] == s.threads[u])
    && |s'.threads[t].results| == k
  }

  lemma SoloOp(s: State, t: nat) returns (schedule: seq<Action>)
    requires Inv(s) && Quiet(s) && t < |s.threads| && |s.threads[t].results| < |s.threads[t].prog|
    ensures Valid(Stack(true), s, schedule)
    ensures RanAlone(s, t, |s.threads[t].results| + 1, Final(Stack(true), s, schedule))
    ensures s.threads[t].prog[|s.threads[t].results|].Push? ==> Final(Stack(true), s, schedule).top != NULL
  {
    match s.threads[t].prog[|s.threads[t].results|] {
      case Push(v) =>
        var addr := BoundOf(s.heap.Keys);
        SoloPush(s, t, addr, 0, v);
        schedule := [Malloc(t, addr, 0), Move(t), Move(t), Move(t)];
      case Pop =>
        if s.top == NULL {
          SoloEmpty(s, t);
          schedule := [Move(t), Move(t)];
        } else {
          ChainPop(s.heap, s.top, s.chain);
          SoloPop(true, s, t);
          schedule := [Move(t), Move(t), Move(t), Move(t), Move(t), Move(t)];
        }
    }
    RunKeepsInv(s, schedule);
  }

  lemma RanOn(s: State, s1: State, s2: State, t: nat, j: nat, k: nat)
    requires RanAlone(s, t, j, s1) && RanAlone(s1, t, k, s2)
    ensures RanAlone(s, t, k, s2)
  {
  }

  /** After a run of t alone, one operation more. */
  lemma SoloMore(s: State, t: nat, k: nat, first: seq<Action>) returns (schedule: seq<Action>)
    requires Valid(Stack(true), s, first) && RanAlone(s, t, k, Final(Stack(true), s, first)) && k < |s.threads[t].prog|
    ensures Valid(Stack(true), s, schedule)
    ensures RanAlone(s, t, k + 1, Final(Stack(true), s, schedule))
    ensures s.threads[t].prog[k].Push? ==> Final(Stack(true), s, schedule).top != NULL
  {
    var s1 := Final(Stack(true), s, first);
    var second := SoloOp(s1, t);
    Concat(Stack(true), s, first, second);
    RanOn(s, s1, Final(Stack(true), s1, second), t, k, k + 1);
    schedule := first + second;
  }

  /** Thread t alone runs on until k of its operations are done. */
  lemma {:induction false} SoloRun(s: State, t: nat, k: nat) returns (schedule: seq<Action>)
    requires Inv(s) && Quiet(s) && t < |s.threads| && |s.threads[t].results| <= k <= |s.threads[t].prog|
    ensures Valid(Stack(true), s, schedule)
    ensures RanAlone(s, t, k, Final(Stack(true), s, schedule))
    decreases k
  {
    schedule := [];
    if |s.threads[t].results| < k {
      schedule := SoloRun(s, t, k - 1);
      schedule := SoloMore(s, t, k - 1, schedule);
    }
  }

  /** Thread t alone runs on up to and including its k-th operation, a push. */
  lemma SoloRunPush(s: State, t: nat, k: nat) returns (schedule: seq<Action>)
    requires Inv(s) && Quiet(s) && t < |s.threads| && |s.threads[t].results| <= k < |s.threads[t].prog|
    requires s.threads[t].prog[k].Push?
    ensures Valid(Stack(true), s, schedule)
    ensures RanAlone(s, t, k + 1, Final(Stack(true), s, schedule)) && Final(Stack(true), s, schedule).top != NULL
  {
    schedule := SoloRun(s, t, k);
    schedule := SoloMore(s, t, k, schedule);
  }

  lemma {:induction false} GuardedIsFreeAtOnce(s: State, schedule: seq<Action>)
    requires Valid(Stack(true), s, schedule)
    ensures Valid(Stack(false), s, schedule) && Final(Stack(false), s, schedule) == Final(Stack(true), s, schedule)
    decreases |schedule|
  {
    if schedule != [] {
      assert Step(false, s, schedule[0]) == Step(true, s, schedule[0]);
      GuardedIsFreeAtOnce(Step(true, s, schedule[0]).value, schedule[1..]);
    }
  }

  ghost predicate NextIsPop(s: State, t: nat) {
    t < |s.threads| && s.threads[t].pc == Idle && Doing(s.threads[t], Pop)
  }

  /** Thread b loads the top; thread a pops and frees that node; b's next step reads it. */
  lemma Crash(s: State, a: nat, b: nat) returns (schedule: seq<Action>)
    requires Inv(s) && s.top != NULL && a != b && NextIsPop(s, a) && NextIsPop(s, b)
    ensures Valid(Stack(false), s, schedule) && Faulty(Final(Stack(false), s, schedule))
  {
    var m := Stack(false);
    ChainPop(s.heap, s.top, s.chain);
    var s1 := Step(false, s, Move(b)).value;
    var s2 := Step(false, s1, Move(b)).value;
    SoloPop(false, s2, a);
    schedule := [Move(a), Move(a), Move(a), Move(a), Move(a), Move(a)];
    Cons(m, s1, Move(b), schedule);
    Cons(m, s, Move(b), [Move(b)] + schedule);
    schedule := [Move(b)] + ([Move(b)] + schedule);
    assert Touches(AfterPop(s2, a).threads[b].pc) == s.top;
  }

  /** The first pop at or after position i. */
  lemma FirstPop(prog: seq<Op>, i: nat) returns (j: nat)
    requires exists k :: i <= k < |prog| && prog[k] == Pop
    ensures i <= j < |prog| && prog[j] == Pop && forall k :: i <= k < j ==> prog[k].Push?
    decreases |prog| - i
  {
    if prog[i] == Pop {
      j := i;
    } else {
      j := FirstPop(prog, i + 1);
    }
  }

  /** Threads run one after another until two of them are about to pop a non-empty stack. */
  ghost predicate Met(s: State, a: nat, b: nat) {
    Inv(s) && s.top != NULL && a != b && NextIsPop(s, a) && NextIsPop(s, b)
  }

  lemma MetAfterTwo(progs: seq<seq<Op>>, b: nat, jb: nat, s1: State, a: nat, ja: nat, s2: State)
    requires a != b && RanAlone(Init(progs), b, jb, s1) && RanAlone(s1, a, ja, s2) && s2.top != NULL
    requires a < |progs| && ja < |progs[a]| && progs[a][ja] == Pop && b < |progs| && jb < |progs[b]| && progs[b][jb] == Pop
    ensures Met(s2, a, b)
  {
    assert s2.threads[b] == s1.threads[b];
  }

  /** The push is a's own: b goes first, then a up to the first pop after that push. */
  lemma MeetTwo(progs: seq<seq<Op>>, a: nat, b: nat, i: nat) returns (schedule: seq<Action>)
    requires a < |progs| && b < |progs| && a != b && HasPop(progs[b])
    requires i < |progs[a]| && progs[a][i].Push? && PopAfter(progs[a], i)
    ensures Valid(Stack(true), Init(progs), schedule) && Met(Final(Stack(true), Init(progs), schedule), a, b)
  {
    InitInv(progs);
    var ja := FirstPop(progs[a], i + 1);
    var jb := FirstPop(progs[b], 0);
    var first := SoloRun(Init(progs), b, jb);
    var s1 := Final(Stack(true), Init(progs), first);
    var second := SoloRunPush(s1, a, ja - 1);
    MetAfterTwo(progs, b, jb, s1, a, ja, Final(Stack(true), s1, second));
    Concat(Stack(true), Init(progs), first, second);
    schedule := first + second;
  }

  lemma MetAfter(progs: seq<seq<Op>>, a: nat, ja: nat, s1: State, b: nat, jb: nat, s2: State, c: nat, jc: nat, s3: State)
    requires a != b && a != c && b != c && RanAlone(Init(progs), a, ja, s1) && RanAlone(s1, b, jb, s2)
    requires RanAlone(s2, c, jc, s3) && s3.top != NULL
    requires a < |progs| && ja < |progs[a]| && progs[a][ja] == Pop && b < |progs| && jb < |progs[b]| && progs[b][jb] == Pop
    ensures Met(s3, a, b)
  {
    assert s3.threads[a] == s1.threads[a] && s3.threads[b] == s2.threads[b];
  }

  /** The push is a third thread's: a and b go first, then c up to and including it. */
  lemma MeetThree(progs: seq<seq<Op>>, a: nat, b: nat, c: nat, i: nat) returns (schedule: seq<Action>)
    requires HazardAt(progs, a, b, c, i) && c != a && c != b
    ensures Valid(Stack(true), Init(progs), schedule) && Met(Final(Stack(true), Init(progs), schedule), a, b)
  {
    InitInv(progs);
    var ja := FirstPop(progs[a], 0);
    var jb := FirstPop(progs[b], 0);
    var first := SoloRun(Init(progs), a, ja);
    var s1 := Final(Stack(true), Init(progs), first);
    var second := SoloRun(s1, b, jb);
    var s2 := Final(Stack(true), s1, second);
    var third := SoloRunPush(s2, c, i);
    MetAfter(progs, a, ja, s1, b, jb, s2, c, i + 1, Final(Stack(true), s2, third));
    Concat3(Stack(true), Init(progs), first, second, third);
    schedule := first + (second + third);
  }

  lemma HazardCrashes(progs: seq<seq<Op>>) returns (schedule: seq<Action>)
    requires Hazard(progs)
    ensures Valid(Stack(false), Init(progs), schedule)
    ensures Faulty(Final(Stack(false), Init(progs), schedule))
  {
    var a, b, c, i :| HazardAt(progs, a, b, c, i);
    if c == a {
      schedule := MeetTwo(progs, a, b, i);
    } else if c == b {
      schedule := MeetTwo(progs, b, a, i);
      a, b := b, a;
    } else {
      schedule := MeetThree(progs, a, b, c, i);
    }
    GuardedIsFreeAtOnce(Init(progs), schedule);
    var last := Crash(Final(Stack(true), Init(progs), schedule), a, b);
    Concat(Stack(false), Init(progs), schedule, last);
    schedule := schedule + last;
  }

  ghost predicate AlwaysLinearized(progs: seq<seq<Op>>) {
    forall schedule :: Valid(Stack(false), Init(progs), schedule) ==> Linearized(Final(Stack(false), Init(progs), schedule))
  }

  /** The lab's stack, which frees at once, is correct in every run exactly when its programs
      give no two threads the chance to be popping after a push. */
  lemma FreeAtOnceExact(progs: seq<seq<Op>>)
    ensures AlwaysLinearized(progs) <==> !Hazard(progs)
  {
    if Hazard(progs) {
      var schedule := HazardCrashes(progs);
      assert !Linearized(Final(Stack(false), Init(progs), schedule));
    } else {
      forall schedule | Valid(Stack(false), Init(progs), schedule)
        ensures Linearized(Final(Stack(false), Init(progs), schedule))
      {
        NoHazardLinearizable(progs, schedule);
      }
    }
  }

  /** Thread 1 is about to pop twice and then push. */
  ghost predicate PopPopPush(s: State) {
    && |s.threads| > 1 && s.threads[1].pc == Idle
    && var k := |s.threads[1].results|;
       k + 3 <= |s.threads[1].prog| && s.threads[1].prog[k] == Pop && s.threads[1].prog[k + 1] == Pop
       && s.threads[1].prog[k + 2].Push?
  }

  /** Thread 1 pops the top x and the node y under it, and pushes a new node at x's address. */
  lemma Recycle(s: State) returns (schedule: seq<Action>)
    requires PopPopPush(s) && s.top != NULL && s.top in s.heap
    requires var y := s.heap[s.top].next; y != NULL && y != s.top && y in s.heap
    ensures Valid(Stack(false), s, schedule)
    ensures var s' := Final(Stack(false), s, schedule);
            s'.top == s.top && s.heap[s.top].next !in s'.heap && |s'.threads| == |s.threads| && s'.threads[0] == s.threads[0]
  {
    var m, k := Stack(false), |s.threads[1].results|;
    var pop := [Move(1), Move(1), Move(1), Move(1), Move(1), Move(1)];
    var push := [Malloc(1, s.top, 0), Move(1), Move(1), Move(1)];
    SoloPop(false, s, 1);
    var s1 := AfterPop(s, 1);
    SoloPop(false, s1, 1);
    var s2 := AfterPop(s1, 1);
    SoloPush(s2, 1, s.top, 0, s.threads[1].prog[k + 2].v);
    GuardedIsFreeAtOnce(s2, push);
    Concat3(m, s, pop, pop, push);
    schedule := pop + (pop + push);
  }

  /** The ABA scenario, from any state with two nodes on the stack: thread 0 reads the top and the
      node under it, thread 1 recycles the top's address, and thread 0's compare-and-swap then
      succeeds although the stack has changed, leaving `stack_top` pointing to freed memory. */
  lemma AbaCorrupts(s: State) returns (schedule: seq<Action>)
    requires NextIsPop(s, 0) && PopPopPush(s) && s.top != NULL && s.top in s.heap
    requires var y := s.heap[s.top].next; y != NULL && y != s.top && y in s.heap
    ensures Valid(Stack(false), s, schedule)
    ensures var s' := Final(Stack(false), s, schedule); s'.top == s.heap[s.top].next && s'.top !in s'.heap
  {
    var m := Stack(false);
    SoloReads(false, s, 0);
    var s1 := At(s, 0, PopCas(s.top, s.heap[s.top].next));
    var recycle := Recycle(s1);
    Cons(m, Final(m, s1, recycle), Move(0), []);
    Concat3(m, s, [Move(0), Move(0), Move(0)], recycle, [Move(0)]);
    schedule := [Move(0), Move(0), Move(0)] + (recycle + [Move(0)]);
  }

  /** The scenario from the start: one thread about to pop, one about to pop twice and push, and a third
      that has pushed two values. */
  lemma AbaReachable(v: int, x: int, y: int) returns (schedule: seq<Action>)
    ensures var s := Init([[Pop], [Pop, Pop, Push(v)], [Push(x), Push(y)]]);
            && Valid(Stack(false), s, schedule)
            && var s' := Final(Stack(false), s, schedule); s'.top != NULL && s'.top !in s'.heap
  {
    var s0 := Init([[Pop], [Pop, Pop, Push(v)], [Push(x), Push(y)]]);
    var lower, upper := [Malloc(2, 1, 0), Move(2), Move(2), Move(2)], [Malloc(2, 2, 0), Move(2), Move(2), Move(2)];
    var s1 := AfterPush(s0, 2, 1, x);
    var s2 := AfterPush(s1, 2, 2, y);
    SoloPush(s0, 2, 1, 0, x);
    GuardedIsFreeAtOnce(s0, lower);
    SoloPush(s1, 2, 2, 0, y);
    GuardedIsFreeAtOnce(s1, upper);
    var rest := AbaCorrupts(s2);
    Concat3(Stack(false), s0, lower, upper, rest);
    schedule := lower + (upper + rest);
  }
}
