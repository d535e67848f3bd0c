/** labs/lab_25_sync_primitives.c: threads sleep on a futex word until the main thread sets it. */
module Futex {
  import opened Runs
  import opened Sums

  /** `sleeper`: test the word, call futex_wait, sleep there, and once past the loop load the word
      again to report it. */
  datatype Sleeper = Test | Call | Asleep | Report | Returned(saw: int)

  /** `main`: store, then futex_wake with `left` wakeups still to give, then join. */
  datatype Waker = Store | Waking(left: nat) | Join | Done

  datatype State = State(word: int, waker: Waker, sleepers: seq<Sleeper>)

  /** M and S(k) are the threads' own steps; futex_wake wakes any sleeper it likes, Wake(k) says which;
      Spurious(k) is a return from futex_wait for no reason. */
  datatype Action = M | S(k: nat) | Wake(k: nat) | Spurious(k: nat)

  predicate Unprovoked(a: Action) { a.Spurious? }

  function Init(sleepers: nat): State { State(0, Store, seq(sleepers, _ => Test)) }

  function SleeperStep(word: int, p: Sleeper): Option<Sleeper> {
    match p
    case Test => Some(if word == 0 then Call else Report)
    case Call => Some(if word == 0 then Asleep else Test)
    case Asleep => None
    case Report => Some(Returned(word))
    case Returned(_) => None
  }

  predicate NobodyAsleep(s: State) { forall k :: 0 <= k < |s.sleepers| ==> s.sleepers[k] != Asleep }

  predicate AllReturned(s: State) { forall k :: 0 <= k < |s.sleepers| ==> s.sleepers[k].Returned? }

  function WakerStep(count: nat, s: State): Option<State> {
    match s.waker
    case Store => Some(s.(word := 1, waker := Waking(count)))
    case Waking(left) => if left == 0 || NobodyAsleep(s) then Some(s.(waker := Join)) else None
    case Join => if AllReturned(s) then Some(s.(waker := Done)) else None
    case Done => None
  }

  function Step(count: nat, s: State, a: Action): (r: Option<State>)
    ensures r.Some? ==> |r.value.sleepers| == |s.sleepers|
  {
    match a
    case M => WakerStep(count, s)
    case S(k) =>
      if k < |s.sleepers| && SleeperStep(s.word, s.sleepers[k]).Some?
      then Some(s.(sleepers := s.sleepers[k := SleeperStep(s.word, s.sleepers[k]).value])) else None
    case Wake(k) =>
      if k < |s.sleepers| && s.sleepers[k] == Asleep && s.waker.Waking? && s.waker.left > 0
      then Some(s.(waker := Waking(s.waker.left - 1), sleepers := s.sleepers[k := Test])) else None
    case Spurious(k) =>
      if k < |s.sleepers| && s.sleepers[k] == Asleep then Some(s.(sleepers := s.sleepers[k := Test])) else None
  }

  function Handoff(count: nat): Machine<State, Action> { (s, a) => Step(count, s, a) }

  // ---------------------------------------------------------- specification

  function IsAsleep(p: Sleeper): int { if p == Asleep then 1 else 0 }

  function CountAsleep(s: State): int { Sum(IsAsleep, s.sleepers) }

  ghost predicate Finished(s: State) { s.waker == Done && AllReturned(s) }

  /** No thread can move unless a sleeper wakes for no reason. */
  ghost predicate Blocked(count: nat, s: State) {
    forall a: Action :: !Unprovoked(a) ==> Step(count, s, a).None?
  }

  /** Nobody gets past the loop before the store; every wakeup given has taken one sleeper off the
      futex, so wakeups run out only if there are more sleepers. */
  ghost predicate Inv(count: nat, s: State) {
    && s.word == (if s.waker == Store then 0 else 1)
    && (forall k :: 0 <= k < |s.sleepers| && (s.sleepers[k] == Report || s.sleepers[k].Returned?) ==> s.word == 1)
    && (forall k :: 0 <= k < |s.sleepers| && s.sleepers[k].Returned? ==> s.sleepers[k].saw == 1)
    && (s.waker.Waking? ==> s.waker.left <= count && CountAsleep(s) + count - s.waker.left <= |s.sleepers|)
    && (s.waker == Join || s.waker == Done ==> NobodyAsleep(s) || CountAsleep(s) + count <= |s.sleepers|)
    && (s.waker == Done ==> AllReturned(s))
  }

  lemma AsleepBounds(s: State)
    ensures 0 <= CountAsleep(s) <= |s.sleepers|
  {
    SumWithin(IsAsleep, s.sleepers, 0, 1);
  }

  lemma NobodyIsZero(s: State)
    ensures NobodyAsleep(s) <==> CountAsleep(s) == 0
  {
    if NobodyAsleep(s) {
      SumWithin(IsAsleep, s.sleepers, 0, 0);
    } else {
      var k :| 0 <= k < |s.sleepers| && s.sleepers[k] == Asleep;
      SumMember(IsAsleep, s.sleepers, k);
    }
  }

  /** Once the word is set nobody falls asleep any more. */
  lemma NoSleepAfterStore(count: nat, s: State, a: Action, k: nat)
    requires s.word != 0 && Step(count, s, a).Some? && k < |s.sleepers|
    ensures Step(count, s, a).value.word != 0
    ensures Step(count, s, a).value.sleepers[k] == Asleep ==> s.sleepers[k] == Asleep
    ensures CountAsleep(Step(count, s, a).value) <= CountAsleep(s)
  {
    if !a.M? {
      SumUpdate(IsAsleep, s.sleepers, a.k, Step(count, s, a).value.sleepers[a.k]);
    }
  }

  lemma StepKeepsInv(count: nat, s: State, a: Action)
    requires Inv(count, s) && Step(count, s, a).Some?
    ensures Inv(count, Step(count, s, a).value)
  {
    var s' := Step(count, s, a).value;
    AsleepBounds(s);
    NobodyIsZero(s);
    NobodyIsZero(s');
    if !a.M? {
      SumUpdate(IsAsleep, s.sleepers, a.k, s'.sleepers[a.k]);
    }
  }

  lemma RunInv(count: nat, sleepers: nat, schedule: seq<Action>)
    requires Valid(Handoff(count), Init(sleepers), schedule)
    ensures var s := Final(Handoff(count), Init(sleepers), schedule); Inv(count, s) && |s.sleepers| == sleepers
  {
    var inv := s => Inv(count, s) && |s.sleepers| == sleepers;
    forall s, a | inv(s) && Handoff(count)(s, a).Some? ensures inv(Handoff(count)(s, a).value) {
      StepKeepsInv(count, s, a);
    }
    RunKeeps(Handoff(count), inv, Init(sleepers), schedule);
  }

  /** In every run: a sleeper that has returned saw the word set, after the store; once main is done
      waking, at most as many are asleep as there were too many for the wakeups; and main is past its
      joins only when all have returned. */
  lemma HandoffSafe(count: nat, sleepers: nat, schedule: seq<Action>)
    requires Valid(Handoff(count), Init(sleepers), schedule)
    ensures var s := Final(Handoff(count), Init(sleepers), schedule);
            && (forall k :: 0 <= k < |s.sleepers| && s.sleepers[k].Returned? ==> s.sleepers[k].saw == 1 && s.waker != Store)
            && (s.waker == Join || s.waker == Done ==> CountAsleep(s) <= if count < sleepers then sleepers - count else 0)
            && (s.waker == Done ==> AllReturned(s))
  {
    RunInv(count, sleepers, schedule);
    NobodyIsZero(Final(Handoff(count), Init(sleepers), schedule));
  }

  /** Who has to wait for what: main at the join until all have returned, futex_wake until it has used up
      its wakeups or nobody is left, a sleeper until it is woken, which any sleeper can be. */
  lemma WaitsExact(count: nat, s: State, k: nat)
    requires k < |s.sleepers|
    ensures s.waker == Join ==> (Handoff(count)(s, M).Some? <==> forall j :: 0 <= j < |s.sleepers| ==> s.sleepers[j].Returned?)
    ensures s.waker.Waking? ==> (Handoff(count)(s, M).Some? <==> s.waker.left == 0 || CountAsleep(s) == 0)
    ensures Handoff(count)(s, Wake(k)).Some? <==> s.waker.Waking? && s.waker.left > 0 && s.sleepers[k] == Asleep
    ensures Handoff(count)(s, Spurious(k)).Some? <==> s.sleepers[k] == Asleep
    ensures Handoff(count)(s, S(k)).None? <==> s.sleepers[k] == Asleep || s.sleepers[k].Returned?
  {
    NobodyIsZero(s);
  }

  /** The loop run alone: a sleeper that finds zero is asleep after two steps and nothing else has changed;
      one that finds another value reports it and returns. */
  lemma SleeperAlone(count: nat, s: State, k: nat)
    requires k < |s.sleepers| && s.sleepers[k] == Test
    ensures Valid(Handoff(count), s, [S(k), S(k)])
    ensures Final(Handoff(count), s, [S(k), S(k)])
         == s.(sleepers := s.sleepers[k := if s.word == 0 then Asleep else Returned(s.word)])
  {
    var s1 := Step(count, s, S(k)).value;
    Cons(Handoff(count), s1, S(k), []);
    Cons(Handoff(count), s, S(k), [S(k)]);
  }

  /** No lost wakeup: futex_wait called with an old value returns at once when the word has been set. */
  lemma CallAfterStore(count: nat, s: State, k: nat)
    requires k < |s.sleepers| && s.sleepers[k] == Call && s.word != 0
    ensures Valid(Handoff(count), s, [S(k), S(k), S(k)])
    ensures Final(Handoff(count), s, [S(k), S(k), S(k)]) == s.(sleepers := s.sleepers[k := Returned(s.word)])
  {
    var s1 := Step(count, s, S(k)).value;
    SleeperAlone(count, s1, k);
    Cons(Handoff(count), s, S(k), [S(k), S(k)]);
  }

  // ------------------------------------------------------------ termination

  function Cost(word: int, p: Sleeper): int {
    match p
    case Returned(_) => 0
    case Report => 1
    case Test => if word == 0 then 5 else 2
    case Asleep => 3
    case Call => 4
  }

  function WakerCost(w: Waker): int {
    match w case Done => 0 case Join => 1 case Waking(_) => 2 case Store => 3
  }

  function Work(s: State): int { WakerCost(s.waker) + Sum(p => Cost(s.word, p), s.sleepers) }

  lemma StepWorks(count: nat, s: State, a: Action)
    requires Inv(count, s) && Step(count, s, a).Some?
    ensures Work(Step(count, s, a).value) + 1 <= Work(s) + if Unprovoked(a) then 3 else 0
  {
    var s' := Step(count, s, a).value;
    if a == M {
      SumMonotone(p => Cost(s'.word, p), p => Cost(s.word, p), s.sleepers);
    } else {
      SumUpdate(p => Cost(s.word, p), s.sleepers, a.k, s'.sleepers[a.k]);
    }
  }

  lemma WorkBounds(s: State)
    ensures 0 <= Work(s) <= 5 * |s.sleepers| + 3
  {
    SumWithin(p => Cost(s.word, p), s.sleepers, 0, 5);
  }

  lemma HandoffDrains(count: nat)
    ensures Drains(Handoff(count), s => Inv(count, s), Work, Unprovoked, 3)
  {
    forall s, a | Inv(count, s) && Step(count, s, a).Some?
      ensures var s' := Step(count, s, a).value;
              Inv(count, s') && 0 <= Work(s') && Work(s') + 1 <= Work(s) + if Unprovoked(a) then 3 else 0
    {
      StepKeepsInv(count, s, a);
      StepWorks(count, s, a);
      WorkBounds(Step(count, s, a).value);
    }
  }

  /** No run is longer than this: nobody spins. */
  lemma RunsAreBounded(count: nat, sleepers: nat, schedule: seq<Action>)
    requires Valid(Handoff(count), Init(sleepers), schedule)
    ensures |schedule| <= 5 * sleepers + 3 + 3 * Count(Unprovoked, schedule)
  {
    WorkBounds(Init(sleepers));
    HandoffDrains(count);
    RunDrains(Handoff(count), s => Inv(count, s), Work, Unprovoked, 3, Init(sleepers), schedule);
  }

  // ------------------------------------------------------ when everybody returns

  ghost predicate AlwaysReturns(count: nat, sleepers: nat) {
    forall schedule :: Valid(Handoff(count), Init(sleepers), schedule) ==>
      var s := Final(Handoff(count), Init(sleepers), schedule);
      Blocked(count, s) ==> Finished(s)
  }

  /** With enough wakeups a state in which nobody can move is one where all have returned. */
  lemma EnoughWakeups(count: nat, s: State)
    requires Inv(count, s) && |s.sleepers| <= count && Blocked(count, s)
    ensures Finished(s)
  {
    assert Step(count, s, M).None?;
    NobodyIsZero(s);
    AsleepBounds(s);
    forall k | 0 <= k < |s.sleepers|
      ensures s.sleepers[k] == Asleep || s.sleepers[k].Returned?
      ensures s.sleepers[k] == Asleep && s.waker.Waking? ==> s.waker.left == 0
    {
      assert Step(count, s, S(k)).None? && Step(count, s, Wake(k)).None?;
    }
  }

  /** The first n sleepers have gone to sleep. */
  function Sleeping(sleepers: nat, n: nat): State {
    State(0, Store, seq(sleepers, k => if k < n then Asleep else Test))
  }

  lemma {:induction false} AllFallAsleep(count: nat, sleepers: nat, n: nat) returns (schedule: seq<Action>)
    requires n <= sleepers
    ensures Valid(Handoff(count), Init(sleepers), schedule)
    ensures Final(Handoff(count), Init(sleepers), schedule) == Sleeping(sleepers, n)
  {
    if n == 0 {
      schedule := [];
      assert Init(sleepers) == Sleeping(sleepers, 0);
    } else {
      schedule := AllFallAsleep(count, sleepers, n - 1);
      var s := Sleeping(sleepers, n - 1);
      var s1 := Step(count, s, S(n - 1)).value;
      var s2 := Step(count, s1, S(n - 1)).value;
      assert s2 == Sleeping(sleepers, n);
      Cons(Handoff(count), s1, S(n - 1), []);
      Cons(Handoff(count), s, S(n - 1), [S(n - 1)]);
      Concat(Handoff(count), Init(sleepers), schedule, [S(n - 1), S(n - 1)]);
      schedule := schedule + [S(n - 1), S(n - 1)];
    }
  }

  /** Each sleeper off the futex has cost a wakeup. */
  ghost predicate Charged(count: nat, s: State) {
    && (s.waker.Waking? ==> s.waker.left <= count && CountAsleep(s) + count - s.waker.left >= |s.sleepers|)
    && (s.waker == Store ==> CountAsleep(s) == |s.sleepers|)
    && (s.waker == Join || s.waker == Done ==> CountAsleep(s) + count >= |s.sleepers|)
  }

  lemma AllAsleep(s: State)
    requires CountAsleep(s) == |s.sleepers|
    ensures forall k :: 0 <= k < |s.sleepers| ==> s.sleepers[k] == Asleep
  {
    forall k | 0 <= k < |s.sleepers| ensures s.sleepers[k] == Asleep {
      if s.sleepers[k] != Asleep {
        SumBelow(IsAsleep, s.sleepers, k);
      }
    }
  }

  lemma QuietKeepsCharged(count: nat, s: State, a: Action)
    requires Charged(count, s) && Inv(count, s) && !Unprovoked(a) && Step(count, s, a).Some?
    ensures Charged(count, Step(count, s, a).value)
  {
    var s' := Step(count, s, a).value;
    AsleepBounds(s);
    if s.waker == Store {
      AllAsleep(s);
    }
    if !a.M? {
      SumUpdate(IsAsleep, s.sleepers, a.k, s'.sleepers[a.k]);
    }
  }

  /** With fewer wakeups than sleepers some run leaves a sleeper asleep for good. */
  lemma SomebodySleepsOn(count: nat, sleepers: nat) returns (schedule: seq<Action>)
    requires count < sleepers
    ensures Valid(Handoff(count), Init(sleepers), schedule)
    ensures var s := Final(Handoff(count), Init(sleepers), schedule); Blocked(count, s) && !NobodyAsleep(s)
  {
    var first := AllFallAsleep(count, sleepers, sleepers);
    var middle := Sleeping(sleepers, sleepers);
    var m, quiet := Handoff(count), Without(Handoff(count), Unprovoked);
    var inv := s => Inv(count, s) && Charged(count, s) && |s.sleepers| == sleepers;
    SumWithin(IsAsleep, middle.sleepers, 1, 1);
    RunInv(count, sleepers, first);
    forall s, a | inv(s) && quiet(s, a).Some?
      ensures inv(quiet(s, a).value) && 0 <= Work(quiet(s, a).value) < Work(s)
    {
      StepKeepsInv(count, s, a);
      QuietKeepsCharged(count, s, a);
      StepWorks(count, s, a);
      WorkBounds(quiet(s, a).value);
    }
    var rest := MaximalRun(quiet, inv, Work, middle);
    RunKeeps(quiet, inv, middle, rest);
    WithoutIsRun(m, Unprovoked, middle, rest);
    Concat(m, Init(sleepers), first, rest);
    schedule := first + rest;
    var s := Final(m, middle, rest);
    NobodyIsZero(s);
    forall a: Action | !Unprovoked(a) ensures Step(count, s, a).None? {
      assert quiet(s, a).None?;
    }
  }

  /** Every run ends with all sleepers returned and main past its joins, exactly when main gives at
      least as many wakeups as there are sleepers; the lab has one of each. */
  lemma HandoffExact(count: nat, sleepers: nat)
    ensures AlwaysReturns(count, sleepers) <==> sleepers <= count
  {
    if sleepers <= count {
      forall schedule | Valid(Handoff(count), Init(sleepers), schedule)
        ensures var s := Final(Handoff(count), Init(sleepers), schedule); Blocked(count, s) ==> Finished(s)
      {
        RunInv(count, sleepers, schedule);
        var s := Final(Handoff(count), Init(sleepers), schedule);
        if Blocked(count, s) {
          EnoughWakeups(count, s);
        }
      }
    } else {
      var schedule := SomebodySleepsOn(count, sleepers);
      var s := Final(Handoff(count), Init(sleepers), schedule);
      assert !Finished(s);
    }
  }
}
