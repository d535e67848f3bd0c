/** labs/lab_18_concurrency.c: T threads each increment a shared counter N times,
    first as a separate LOAD and STORE, then as one atomic fetch-and-add.
 */
module RacyCounter {
  import opened Runs
  import opened Sums

  /** One worker: increments completed, and the value loaded by the increment in flight. */
  datatype Thread = Thread(done: nat, loaded: Option<int>)

  datatype State = State(counter: int, threads: seq<Thread>)

  function Init(threads: nat): State {
    State(0, seq(threads, _ => Thread(0, None)))
  }

  /** Thread t makes its next memory access: the LOAD of an increment, or its STORE. */
  function RacyStep(n: nat, s: State, t: nat): Option<State> {
    if t >= |s.threads| || s.threads[t].done >= n then None
    else
      var th := s.threads[t];
      match th.loaded
      case None => Some(s.(threads := s.threads[t := th.(loaded := Some(s.counter))]))
      case Some(v) => Some(State(v + 1, s.threads[t := Thread(th.done + 1, None)]))
  }

  /** Thread t makes one indivisible increment. */
  function AtomicStep(n: nat, s: State, t: nat): Option<State> {
    if t >= |s.threads| || s.threads[t].done >= n then None
    else Some(State(s.counter + 1, s.threads[t := Thread(s.threads[t].done + 1, None)]))
  }

  function Racy(n: nat): Machine<State, nat> { (s, t: nat) => RacyStep(n, s, t) }

  function Atomic(n: nat): Machine<State, nat> { (s, t: nat) => AtomicStep(n, s, t) }

  predicate Finished(n: nat, s: State) {
    forall t :: 0 <= t < |s.threads| ==> s.threads[t].done == n
  }

  function Done(th: Thread): int { th.done }

  // ---------------------------------------------------------------- bounds

  /** The smallest final value: nothing is lost by a lone thread, and otherwise the
      thread that stores last has seen its own previous store. */
  function Least(threads: nat, n: nat): nat {
    if threads == 0 || n == 0 then 0
    else if threads == 1 then n
    else if n == 1 then 1
    else 2
  }

  ghost predicate LocalInv(n: nat, s: State, th: Thread) {
    && th.done <= n
    && (th.done > 0 ==> s.counter >= 1)
    && (th.loaded.Some? ==>
          && th.done < n
          && 0 <= th.loaded.value <= Sum(Done, s.threads)
          && (th.done > 0 ==> th.loaded.value >= 1)
          && (|s.threads| == 1 ==> th.loaded.value == s.counter))
  }

  /** What holds after every step: nothing seen or stored exceeds the increments
      completed, and a completed increment leaves its mark on later values. */
  ghost predicate Inv(n: nat, count: nat, s: State) {
    && |s.threads| == count
    && 0 <= s.counter <= Sum(Done, s.threads)
    && (forall t :: 0 <= t < count ==> LocalInv(n, s, s.threads[t]))
    && (count > 0 && n > 0 && Finished(n, s) ==> Least(count, n) <= s.counter)
    && (count == 1 ==> s.counter == s.threads[0].done)
  }

  lemma InitInv(n: nat, count: nat)
    ensures Inv(n, count, Init(count))
    ensures Sum(Done, Init(count).threads) == 0
  {
    SumWithin(Done, Init(count).threads, 0, 0);
  }

  lemma StepKeepsInv(n: nat, count: nat, s: State, t: nat)
    requires Inv(n, count, s) && RacyStep(n, s, t).Some?
    ensures Inv(n, count, RacyStep(n, s, t).value)
  {
    var s' := RacyStep(n, s, t).value;
    SumUpdate(Done, s.threads, t, s'.threads[t]);
    assert LocalInv(n, s, s.threads[t]);
    forall u | 0 <= u < count ensures LocalInv(n, s', s'.threads[u]) {
      assert LocalInv(n, s, s.threads[u]);
    }
    if s.threads[t].loaded.None? {
      assert s'.threads[t].done < n;
    }
  }

  lemma RunInv(n: nat, count: nat, schedule: seq<nat>)
    requires Valid(Racy(n), Init(count), schedule)
    ensures Inv(n, count, Final(Racy(n), Init(count), schedule))
  {
    var inv := s => Inv(n, count, s);
    InitInv(n, count);
    forall s, t | inv(s) && Racy(n)(s, t).Some? ensures inv(Racy(n)(s, t).value) {
      StepKeepsInv(n, count, s, t);
    }
    RunKeeps(Racy(n), inv, Init(count), schedule);
  }

  /** No run can end outside these bounds. */
  lemma RacyBounds(n: nat, count: nat, schedule: seq<nat>)
    requires Valid(Racy(n), Init(count), schedule)
    requires Finished(n, Final(Racy(n), Init(count), schedule))
    ensures Least(count, n) <= Final(Racy(n), Init(count), schedule).counter <= count * n
  {
    RunInv(n, count, schedule);
    var last := Final(Racy(n), Init(count), schedule);
    SumWithin(Done, last.threads, n, n);
  }

  // ------------------------------------------------------ reaching each value

  /** A schedule in which the listed threads make whole increments one after another. */
  function Whole(ts: seq<nat>): seq<nat> {
    if ts == [] then [] else [ts[0], ts[0]] + Whole(ts[1..])
  }

  /** How often thread t occurs in ts. */
  function Times(ts: seq<nat>, t: nat): nat {
    if ts == [] then 0 else (if ts[0] == t then 1 else 0) + Times(ts[1..], t)
  }

  lemma {:induction false} TimesConcat(a: seq<nat>, b: seq<nat>, t: nat)
    ensures Times(a + b, t) == Times(a, t) + Times(b, t)
  {
    if a == [] {
      assert a + b == b;
    } else {
      assert (a + b)[1..] == a[1..] + b;
      TimesConcat(a[1..], b, t);
    }
  }

  ghost predicate CanRun(n: nat, s: State, ts: seq<nat>) {
    forall t: nat :: Times(ts, t) > 0 ==>
      t < |s.threads| && s.threads[t].loaded.None? && s.threads[t].done + Times(ts, t) <= n
  }

  function Advanced(s: State, ts: seq<nat>): State {
    State(s.counter + |ts|,
          seq(|s.threads|, t requires 0 <= t < |s.threads| =>
            s.threads[t].(done := s.threads[t].done + Times(ts, t))))
  }

  /** One whole increment by thread t. */
  function Bump(s: State, t: nat): State
    requires t < |s.threads|
  {
    State(s.counter + 1, s.threads[t := s.threads[t].(done := s.threads[t].done + 1)])
  }

  lemma AdvancedCons(s: State, t: nat, ts: seq<nat>)
    requires t < |s.threads|
    ensures Advanced(Bump(s, t), ts) == Advanced(s, [t] + ts)
  {
    assert ([t] + ts)[1..] == ts;
    assert Advanced(Bump(s, t), ts).threads == Advanced(s, [t] + ts).threads;
  }

  lemma RunOne(n: nat, s: State, t: nat, rest: seq<nat>)
    requires t < |s.threads| && s.threads[t].loaded.None? && s.threads[t].done < n
    requires Valid(Racy(n), Bump(s, t), rest)
    ensures Valid(Racy(n), s, [t, t] + rest)
    ensures Final(Racy(n), s, [t, t] + rest) == Final(Racy(n), Bump(s, t), rest)
  {
    var s1 := RacyStep(n, s, t).value;
    var s2 := RacyStep(n, s1, t).value;
    assert s2.threads == Bump(s, t).threads;
    Cons(Racy(n), s1, t, rest);
    Cons(Racy(n), s, t, [t] + rest);
    assert [t, t] + rest == [t] + ([t] + rest);
  }

  lemma {:induction false} RunWhole(n: nat, s: State, ts: seq<nat>)
    requires CanRun(n, s, ts)
    ensures Valid(Racy(n), s, Whole(ts))
    ensures Final(Racy(n), s, Whole(ts)) == Advanced(s, ts)
    decreases |ts|
  {
    if ts == [] {
      assert Advanced(s, ts).threads == s.threads;
    } else {
      var t, rest := ts[0], ts[1..];
      assert ts == [t] + rest;
      assert Times(ts, t) > 0;
      assert forall u: nat :: Times(ts, u) == (if t == u then 1 else 0) + Times(rest, u);
      RunWhole(n, Bump(s, t), rest);
      RunOne(n, s, t, Whole(rest));
      AdvancedCons(s, t, rest);
    }
  }

  function Repeat(t: nat, k: nat): seq<nat> { seq(k, _ => t) }

  /** Every thread from lo up to hi, n times each. */
  function EachOf(lo: nat, hi: nat, n: nat): seq<nat>
    decreases hi - lo
  {
    if lo >= hi then [] else Repeat(lo, n) + EachOf(lo + 1, hi, n)
  }

  lemma {:induction false} RepeatTimes(t: nat, k: nat, u: nat)
    ensures Times(Repeat(t, k), u) == if t == u then k else 0
  {
    if k > 0 {
      assert Repeat(t, k)[1..] == Repeat(t, k - 1);
      RepeatTimes(t, k - 1, u);
    }
  }

  lemma {:induction false} EachOfLength(lo: nat, hi: nat, n: nat)
    requires lo <= hi
    ensures |EachOf(lo, hi, n)| == (hi - lo) * n
    decreases hi - lo
  {
    if lo < hi {
      EachOfLength(lo + 1, hi, n);
      assert (hi - lo) * n == n + (hi - (lo + 1)) * n;
    }
  }

  lemma {:induction false} EachOfTimes(lo: nat, hi: nat, n: nat, t: nat)
    requires lo <= hi
    ensures Times(EachOf(lo, hi, n), t) == if lo <= t < hi then n else 0
    decreases hi - lo
  {
    if lo < hi {
      RepeatTimes(lo, n, t);
      TimesConcat(Repeat(lo, n), EachOf(lo + 1, hi, n), t);
      EachOfTimes(lo + 1, hi, n, t);
    }
  }

  /** Thread 0 loads the initial value, `lost` of the other threads' increments run to
      completion and are wiped out by thread 0's store, then the rest of them run. */
  function FirstWindow(others: seq<nat>, lost: nat): seq<nat>
    requires lost <= |others|
  {
    [0] + (Whole(others[..lost]) + ([0] + Whole(others[lost..])))
  }

  /** The other threads' increments are theirs to make. */
  ghost predicate Shares(n: nat, count: nat, others: seq<nat>) {
    forall t: nat :: Times(others, t) <= if 0 < t < count then n else 0
  }

  ghost predicate AfterFirstWindow(count: nat, others: seq<nat>, lost: nat, s: State) {
    && s.counter == 1 + |others| - lost
    && |s.threads| == count
    && forall t :: 0 <= t < count ==> s.threads[t] == Thread(if t == 0 then 1 else Times(others, t), None)
  }

  lemma FirstWindowStates(n: nat, count: nat, gone: seq<nat>, kept: seq<nat>)
    returns (s1: State, s2: State, s3: State)
    requires n > 0 && count > 0 && Shares(n, count, gone + kept)
    ensures Racy(n)(Init(count), 0) == Some(s1) && CanRun(n, s1, gone)
    ensures s2 == Advanced(s1, gone)
    ensures Racy(n)(s2, 0) == Some(s3) && CanRun(n, s3, kept)
    ensures AfterFirstWindow(count, gone + kept, |gone|, Advanced(s3, kept))
  {
    forall t: nat ensures Times(gone + kept, t) == Times(gone, t) + Times(kept, t) {
      TimesConcat(gone, kept, t);
    }
    s1 := RacyStep(n, Init(count), 0).value;
    s2 := Advanced(s1, gone);
    s3 := RacyStep(n, s2, 0).value;
  }

  lemma RunFirstWindow(n: nat, count: nat, others: seq<nat>, lost: nat)
    requires n > 0 && count > 0 && lost <= |others| && Shares(n, count, others)
    ensures Valid(Racy(n), Init(count), FirstWindow(others, lost))
    ensures AfterFirstWindow(count, others, lost, Final(Racy(n), Init(count), FirstWindow(others, lost)))
  {
    var m := Racy(n);
    var gone, kept := others[..lost], others[lost..];
    assert others == gone + kept;
    var s1, s2, s3 := FirstWindowStates(n, count, gone, kept);
    RunWhole(n, s1, gone);
    RunWhole(n, s3, kept);
    Cons(m, s2, 0, Whole(kept));
    Concat(m, s1, Whole(gone), [0] + Whole(kept));
    Cons(m, Init(count), 0, Whole(gone) + ([0] + Whole(kept)));
  }

  /** Thread 1 loads for its last increment, thread 0 makes `lost` more increments,
      and thread 1's store wipes them out. */
  function SecondWindow(rest: nat, lost: nat): seq<nat>
    requires lost <= rest
  {
    Whole(Repeat(0, rest - lost)) + ([1] + (Whole(Repeat(0, lost)) + [1]))
  }

  lemma SecondWindowStates(n: nat, s: State, lost: nat)
    returns (s1: State, s2: State, s3: State, s4: State)
    requires n >= 2 && |s.threads| >= 2 && lost <= n - 1
    requires s.threads[0] == Thread(1, None) && s.threads[1] == Thread(n - 1, None)
    requires forall t :: 2 <= t < |s.threads| ==> s.threads[t] == Thread(n, None)
    ensures CanRun(n, s, Repeat(0, n - 1 - lost)) && s1 == Advanced(s, Repeat(0, n - 1 - lost))
    ensures Racy(n)(s1, 1) == Some(s2)
    ensures CanRun(n, s2, Repeat(0, lost)) && s3 == Advanced(s2, Repeat(0, lost))
    ensures Racy(n)(s3, 1) == Some(s4)
    ensures Finished(n, s4) && s4.counter == s.counter + n - lost
  {
    forall t: nat, k: nat ensures Times(Repeat(0, k), t) == if t == 0 then k else 0 {
      RepeatTimes(0, k, t);
    }
    s1 := Advanced(s, Repeat(0, n - 1 - lost));
    s2 := RacyStep(n, s1, 1).value;
    s3 := Advanced(s2, Repeat(0, lost));
    s4 := RacyStep(n, s3, 1).value;
  }

  lemma RunSecondWindow(n: nat, s: State, lost: nat)
    requires n >= 2 && |s.threads| >= 2 && lost <= n - 1
    requires s.threads[0] == Thread(1, None) && s.threads[1] == Thread(n - 1, None)
    requires forall t :: 2 <= t < |s.threads| ==> s.threads[t] == Thread(n, None)
    ensures Valid(Racy(n), s, SecondWindow(n - 1, lost))
    ensures Finished(n, Final(Racy(n), s, SecondWindow(n - 1, lost)))
    ensures Final(Racy(n), s, SecondWindow(n - 1, lost)).counter == s.counter + n - lost
  {
    var m := Racy(n);
    var kept, gone := Whole(Repeat(0, n - 1 - lost)), Whole(Repeat(0, lost));
    var s1, s2, s3, s4 := SecondWindowStates(n, s, lost);
    RunWhole(n, s, Repeat(0, n - 1 - lost));
    RunWhole(n, s2, Repeat(0, lost));
    Cons(m, s3, 1, []);
    assert [1] + [] == [1];
    Concat(m, s2, gone, [1]);
    Cons(m, s1, 1, gone + [1]);
    Concat(m, s, kept, [1] + (gone + [1]));
  }

  /** The other threads' increments, all but thread 1's last one when n >= 2. */
  function Others(n: nat, count: nat): seq<nat>
    requires n > 0 && count > 1
  {
    if n == 1 then EachOf(1, count, 1) else EachOf(2, count, n) + Repeat(1, n - 1)
  }

  lemma OthersShares(n: nat, count: nat)
    requires n > 0 && count > 1
    ensures |Others(n, count)| == (if n == 1 then count - 1 else (count - 1) * n - 1)
    ensures forall t: nat :: Times(Others(n, count), t) ==
              if t == 0 || t >= count then 0 else if t == 1 && n > 1 then n - 1 else n
  {
    EachOfLength(1, count, 1);
    EachOfLength(2, count, n);
    assert (count - 1) * n == (count - 2) * n + n;
    forall t: nat ensures Times(Others(n, count), t) ==
              if t == 0 || t >= count then 0 else if t == 1 && n > 1 then n - 1 else n
    {
      EachOfTimes(1, count, 1, t);
      EachOfTimes(2, count, n, t);
      RepeatTimes(1, n - 1, t);
      TimesConcat(EachOf(2, count, n), Repeat(1, n - 1), t);
    }
  }

  ghost predicate Outcome(n: nat, count: nat, v: int, schedule: seq<nat>) {
    && Valid(Racy(n), Init(count), schedule)
    && Finished(n, Final(Racy(n), Init(count), schedule))
    && Final(Racy(n), Init(count), schedule).counter == v
  }

  /** A complete schedule that loses exactly `lost` updates. */
  lemma LoseExactly(n: nat, count: nat, lost: nat) returns (schedule: seq<nat>)
    requires n > 0 && count > 1 && lost <= count * n - Least(count, n)
    ensures Outcome(n, count, count * n - lost, schedule)
  {
    var m, others := Racy(n), Others(n, count);
    OthersShares(n, count);
    assert (count - 1) * n == count * n - n;
    var first := if lost <= |others| then lost else |others|;
    RunFirstWindow(n, count, others, first);
    schedule := FirstWindow(others, first);
    if n > 1 {
      var s := Final(m, Init(count), schedule);
      RunSecondWindow(n, s, lost - first);
      Concat(m, Init(count), schedule, SecondWindow(n - 1, lost - first));
      schedule := schedule + SecondWindow(n - 1, lost - first);
    }
  }

  /** Every value between the bounds is the outcome of some complete schedule. */
  lemma RacyReaches(n: nat, count: nat, v: nat) returns (schedule: seq<nat>)
    requires Least(count, n) <= v <= count * n
    ensures Outcome(n, count, v, schedule)
  {
    if count == 0 || n == 0 {
      schedule := [];
    } else if count == 1 {
      forall t: nat ensures Times(Repeat(0, n), t) == if t == 0 then n else 0 {
        RepeatTimes(0, n, t);
      }
      RunWhole(n, Init(count), Repeat(0, n));
      schedule := Whole(Repeat(0, n));
    } else {
      schedule := LoseExactly(n, count, count * n - v);
    }
  }

  /** The possible final values of the racy counter, exactly. */
  lemma RacyOutcomes(n: nat, count: nat, v: int)
    ensures (exists schedule :: Outcome(n, count, v, schedule)) <==> Least(count, n) <= v <= count * n
  {
    if Least(count, n) <= v <= count * n {
      var schedule := RacyReaches(n, count, v);
    }
    forall schedule | Outcome(n, count, v, schedule) ensures Least(count, n) <= v <= count * n {
      RacyBounds(n, count, schedule);
    }
  }

  /** With fetch-and-add the counter is the number of increments made, in every state of
      every run, so a finished run always ends at count * n. */
  lemma {:induction false} AtomicExact(n: nat, count: nat, schedule: seq<nat>)
    requires Valid(Atomic(n), Init(count), schedule)
    ensures var last := Final(Atomic(n), Init(count), schedule);
            && last.counter == Sum(Done, last.threads)
            && (Finished(n, last) ==> last.counter == count * n)
  {
    var inv := (s: State) => |s.threads| == count && s.counter == Sum(Done, s.threads);
    InitInv(n, count);
    forall s, t: nat | inv(s) && Atomic(n)(s, t).Some? ensures inv(Atomic(n)(s, t).value) {
      SumUpdate(Done, s.threads, t, Atomic(n)(s, t).value.threads[t]);
    }
    RunKeeps(Atomic(n), inv, Init(count), schedule);
    var last := Final(Atomic(n), Init(count), schedule);
    if Finished(n, last) {
      SumWithin(Done, last.threads, n, n);
    }
  }

  // --------------------------------------------------------------- every run ends

  /** Memory accesses a thread has made. */
  function Accesses(th: Thread): int { 2 * th.done + if th.loaded.Some? then 1 else 0 }

  lemma {:induction false} RacyLength(n: nat, s: State, schedule: seq<nat>)
    requires Valid(Racy(n), s, schedule)
    ensures Sum(Accesses, Final(Racy(n), s, schedule).threads) == Sum(Accesses, s.threads) + |schedule|
    decreases |schedule|
  {
    if schedule != [] {
      var s', t := RacyStep(n, s, schedule[0]).value, schedule[0];
      SumUpdate(Accesses, s.threads, t, s'.threads[t]);
      RacyLength(n, s', schedule[1..]);
    }
  }

  lemma {:induction false} AtomicLength(n: nat, s: State, schedule: seq<nat>)
    requires Valid(Atomic(n), s, schedule)
    ensures Sum(Done, Final(Atomic(n), s, schedule).threads) == Sum(Done, s.threads) + |schedule|
    decreases |schedule|
  {
    if schedule != [] {
      var s', t := AtomicStep(n, s, schedule[0]).value, schedule[0];
      SumUpdate(Done, s.threads, t, s'.threads[t]);
      AtomicLength(n, s', schedule[1..]);
    }
  }

  lemma StuckFinished(n: nat, count: nat, s: State)
    requires Inv(n, count, s)
    ensures Stuck(Racy(n), s) <==> Finished(n, s)
    ensures Finished(n, s) ==> Sum(Accesses, s.threads) == 2 * n * count
  {
    forall t: nat | t < |s.threads|
      ensures Racy(n)(s, t).None? <==> s.threads[t].done == n
      ensures s.threads[t].done == n ==> Accesses(s.threads[t]) == 2 * n
    {
      assert LocalInv(n, s, s.threads[t]);
    }
    if Finished(n, s) {
      SumWithin(Accesses, s.threads, 2 * n, 2 * n);
    }
  }

  /** Nobody ever waits: a run can go on until all threads are done, which takes exactly two accesses per
      racy increment and one per atomic one. */
  lemma RacyCompletes(n: nat, count: nat, schedule: seq<nat>)
    requires Valid(Racy(n), Init(count), schedule)
    ensures var s := Final(Racy(n), Init(count), schedule);
            (Stuck(Racy(n), s) <==> Finished(n, s)) && (Finished(n, s) ==> |schedule| == 2 * n * count)
  {
    RunInv(n, count, schedule);
    StuckFinished(n, count, Final(Racy(n), Init(count), schedule));
    RacyLength(n, Init(count), schedule);
    SumWithin(Accesses, Init(count).threads, 0, 0);
  }

  lemma AtomicCompletes(n: nat, count: nat, schedule: seq<nat>)
    requires Valid(Atomic(n), Init(count), schedule)
    ensures var s := Final(Atomic(n), Init(count), schedule);
            && |schedule| == s.counter
            && (Stuck(Atomic(n), s) <==> Finished(n, s)) && (Finished(n, s) ==> |schedule| == n * count)
  {
    var inv := (s: State) => |s.threads| == count && forall t :: 0 <= t < count ==> s.threads[t].done <= n;
    forall s, t: nat | inv(s) && Atomic(n)(s, t).Some? ensures inv(Atomic(n)(s, t).value) {
    }
    RunKeeps(Atomic(n), inv, Init(count), schedule);
    var s := Final(Atomic(n), Init(count), schedule);
    forall t: nat | t < |s.threads| ensures Atomic(n)(s, t).None? <==> s.threads[t].done == n {
    }
    AtomicExact(n, count, schedule);
    AtomicLength(n, Init(count), schedule);
    InitInv(n, count);
  }

  /** What others do does not move a thread. */
  lemma {:induction false} OthersSpare(n: nat, s: State, t: nat, others: seq<nat>)
    requires t < |s.threads| && t !in others && Valid(Racy(n), s, others)
    ensures |Final(Racy(n), s, others).threads| == |s.threads| && Final(Racy(n), s, others).threads[t] == s.threads[t]
    decreases |others|
  {
    if others != [] {
      OthersSpare(n, RacyStep(n, s, others[0]).value, t, others[1..]);
    }
  }

  /** The last write wins: whatever the other threads do between a thread's load and its store, the store
      leaves the counter one above what was loaded. */
  lemma LastWriteWins(n: nat, s: State, t: nat, others: seq<nat>)
    requires t < |s.threads| && s.threads[t].done < n && s.threads[t].loaded == None && t !in others
    requires Valid(Racy(n), RacyStep(n, s, t).value, others)
    ensures Valid(Racy(n), s, [t] + (others + [t]))
    ensures var s' := Final(Racy(n), s, [t] + (others + [t]));
            && s'.counter == s.counter + 1
            && |s'.threads| == |s.threads| && s'.threads[t] == Thread(s.threads[t].done + 1, None)
  {
    var m, s1 := Racy(n), RacyStep(n, s, t).value;
    OthersSpare(n, s1, t, others);
    var s2 := Final(m, s1, others);
    Cons(m, s2, t, []);
    Concat(m, s1, others, [t]);
    Cons(m, s, t, others + [t]);
  }
}
