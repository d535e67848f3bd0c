/** Runs of a small-step machine.

    A machine is a function from a state and an action to the next state, or to
    None when the action is blocked in that state.  Everything nondeterministic
    (which thread moves, whether a weak compare-and-swap fails, which waiter a
    signal wakes) is named by the action, so a schedule is a sequence of actions
    and a run is determined by its schedule.
 */
module Runs {

  datatype Option<+T> = None | Some(value: T)

  type Machine<!S, !A> = (S, A) -> Option<S>

  /** Every action of the schedule is enabled when its turn comes. */
  predicate Valid<S, A>(m: Machine<S, A>, s: S, schedule: seq<A>)
    decreases |schedule|
  {
    schedule == [] ||
    (m(s, schedule[0]).Some? && Valid(m, m(s, schedule[0]).value, schedule[1..]))
  }

  function Final<S, A>(m: Machine<S, A>, s: S, schedule: seq<A>): S
    requires Valid(m, s, schedule)
    decreases |schedule|
  {
    if schedule == [] then s else Final(m, m(s, schedule[0]).value, schedule[1..])
  }

  /** No action is enabled: the run cannot be extended. */
  ghost predicate Stuck<S, A(!new)>(m: Machine<S, A>, s: S) {
    forall a :: m(s, a).None?
  }

  ghost predicate Inductive<S(!new), A(!new)>(m: Machine<S, A>, inv: S -> bool) {
    forall s, a :: inv(s) && m(s, a).Some? ==> inv(m(s, a).value)
  }

  /** What every step keeps, every run keeps. */
  lemma {:induction false} RunKeeps<S(!new), A(!new)>(m: Machine<S, A>, inv: S -> bool, s: S, schedule: seq<A>)
    requires Inductive(m, inv) && inv(s) && Valid(m, s, schedule)
    ensures inv(Final(m, s, schedule))
    decreases |schedule|
  {
    if schedule != [] {
      RunKeeps(m, inv, m(s, schedule[0]).value, schedule[1..]);
    }
  }

  /** A run that starts with one enabled action. */
  lemma Cons<S, A>(m: Machine<S, A>, s: S, a: A, rest: seq<A>)
    requires m(s, a).Some? && Valid(m, m(s, a).value, rest)
    ensures Valid(m, s, [a] + rest)
    ensures Final(m, s, [a] + rest) == Final(m, m(s, a).value, rest)
  {
    assert ([a] + rest)[1..] == rest;
  }

  // Runs of a few steps, with the states they pass through.

  lemma TwoSteps<S, A>(m: Machine<S, A>, s: S, a: A, s1: S, b: A, s2: S)
    requires m(s, a) == Some(s1) && m(s1, b) == Some(s2)
    ensures Valid(m, s, [a, b]) && Final(m, s, [a, b]) == s2
  {
    Cons(m, s1, b, []);
    Cons(m, s, a, [b]);
    assert [a] + [b] == [a, b];
  }

  lemma ThreeSteps<S, A>(m: Machine<S, A>, s: S, a: A, s1: S, b: A, s2: S, c: A, s3: S)
    requires m(s, a) == Some(s1) && m(s1, b) == Some(s2) && m(s2, c) == Some(s3)
    ensures Valid(m, s, [a, b, c]) && Final(m, s, [a, b, c]) == s3
  {
    TwoSteps(m, s1, b, s2, c, s3);
    Cons(m, s, a, [b, c]);
    assert [a] + [b, c] == [a, b, c];
  }

  lemma FourSteps<S, A>(m: Machine<S, A>, s: S, a: A, s1: S, b: A, s2: S, c: A, s3: S, d: A, s4: S)
    requires m(s, a) == Some(s1) && m(s1, b) == Some(s2) && m(s2, c) == Some(s3) && m(s3, d) == Some(s4)
    ensures Valid(m, s, [a, b, c, d]) && Final(m, s, [a, b, c, d]) == s4
  {
    ThreeSteps(m, s1, b, s2, c, s3, d, s4);
    Cons(m, s, a, [b, c, d]);
    assert [a] + [b, c, d] == [a, b, c, d];
  }

  lemma FiveSteps<S, A>(m: Machine<S, A>, s: S, a: A, s1: S, b: A, s2: S, c: A, s3: S, d: A, s4: S, e: A, s5: S)
    requires m(s, a) == Some(s1) && m(s1, b) == Some(s2) && m(s2, c) == Some(s3) && m(s3, d) == Some(s4) && m(s4, e) == Some(s5)
    ensures Valid(m, s, [a, b, c, d, e]) && Final(m, s, [a, b, c, d, e]) == s5
  {
    FourSteps(m, s1, b, s2, c, s3, d, s4, e, s5);
    Cons(m, s, a, [b, c, d, e]);
    assert [a] + [b, c, d, e] == [a, b, c, d, e];
  }

  lemma SixSteps<S, A>(m: Machine<S, A>, s: S, a: A, s1: S, b: A, s2: S, c: A, s3: S, d: A, s4: S, e: A, s5: S, f: A, s6: S)
    requires m(s, a) == Some(s1) && m(s1, b) == Some(s2) && m(s2, c) == Some(s3) && m(s3, d) == Some(s4) && m(s4, e) == Some(s5) && m(s5, f) == Some(s6)
    ensures Valid(m, s, [a, b, c, d, e, f]) && Final(m, s, [a, b, c, d, e, f]) == s6
  {
    FiveSteps(m, s1, b, s2, c, s3, d, s4, e, s5, f, s6);
    Cons(m, s, a, [b, c, d, e, f]);
    assert [a] + [b, c, d, e, f] == [a, b, c, d, e, f];
  }

  /** Runs compose. */
  lemma {:induction false} Concat<S, A>(m: Machine<S, A>, s: S, first: seq<A>, second: seq<A>)
    requires Valid(m, s, first) && Valid(m, Final(m, s, first), second)
    ensures Valid(m, s, first + second)
    ensures Final(m, s, first + second) == Final(m, Final(m, s, first), second)
    decreases |first|
  {
    if first == [] {
      assert first + second == second;
    } else {
      Concat(m, m(s, first[0]).value, first[1..], second);
      assert (first + second)[1..] == first[1..] + second;
    }
  }

  lemma Concat3<S, A>(m: Machine<S, A>, s: S, first: seq<A>, second: seq<A>, third: seq<A>)
    requires Valid(m, s, first) && Valid(m, Final(m, s, first), second)
    requires Valid(m, Final(m, Final(m, s, first), second), third)
    ensures Valid(m, s, first + (second + third))
    ensures Final(m, s, first + (second + third)) == Final(m, Final(m, Final(m, s, first), second), third)
  {
    Concat(m, Final(m, s, first), second, third);
    Concat(m, s, first, second + third);
  }

  ghost predicate Decreasing<S(!new), A(!new)>(m: Machine<S, A>, inv: S -> bool, work: S -> int) {
    forall s, a :: inv(s) && m(s, a).Some? ==> 0 <= work(m(s, a).value) < work(s)
  }

  /** A machine whose steps use up work has runs that cannot be extended. */
  lemma {:induction false} MaximalRun<S(!new), A(!new)>(m: Machine<S, A>, inv: S -> bool, work: S -> int, s: S)
    returns (schedule: seq<A>)
    requires Inductive(m, inv) && Decreasing(m, inv, work) && inv(s)
    ensures Valid(m, s, schedule) && Stuck(m, Final(m, s, schedule))
    decreases work(s)
  {
    schedule := [];
    if !Stuck(m, s) {
      var a :| m(s, a).Some?;
      schedule := MaximalRun(m, inv, work, m(s, a).value);
      Cons(m, s, a, schedule);
      schedule := [a] + schedule;
    }
  }

  // --------------------------------------------------------- what a run hands out

  /** Everything the steps of a run hand out, in order. */
  function Outputs<S, A, B>(m: Machine<S, A>, out: (S, A) -> seq<B>, s: S, schedule: seq<A>): seq<B>
    requires Valid(m, s, schedule)
    decreases |schedule|
  {
    if schedule == [] then [] else out(s, schedule[0]) + Outputs(m, out, m(s, schedule[0]).value, schedule[1..])
  }

  ghost predicate Collects<S(!new), A(!new), B>(m: Machine<S, A>, inv: S -> bool, out: (S, A) -> seq<B>, total: S -> seq<B>) {
    forall s, a :: inv(s) && m(s, a).Some? ==> inv(m(s, a).value) && total(m(s, a).value) == total(s) + out(s, a)
  }

  lemma {:induction false} RunCollects<S(!new), A(!new), B>(
    m: Machine<S, A>, inv: S -> bool, out: (S, A) -> seq<B>, total: S -> seq<B>, s: S, schedule: seq<A>)
    requires Collects(m, inv, out, total) && inv(s) && Valid(m, s, schedule)
    ensures total(Final(m, s, schedule)) == total(s) + Outputs(m, out, s, schedule)
    decreases |schedule|
  {
    if schedule != [] {
      RunCollects(m, inv, out, total, m(s, schedule[0]).value, schedule[1..]);
    }
  }

  // ------------------------------------------- actions that come from outside

  function Count<A>(marked: A -> bool, schedule: seq<A>): nat {
    if schedule == [] then 0 else (if marked(schedule[0]) then 1 else 0) + Count(marked, schedule[1..])
  }

  /** The machine without the marked actions. */
  function Without<S, A>(m: Machine<S, A>, marked: A -> bool): Machine<S, A> {
    (s, a) => if marked(a) then None else m(s, a)
  }

  lemma {:induction false} WithoutIsRun<S, A>(m: Machine<S, A>, marked: A -> bool, s: S, schedule: seq<A>)
    requires Valid(Without(m, marked), s, schedule)
    ensures Valid(m, s, schedule) && Final(m, s, schedule) == Final(Without(m, marked), s, schedule)
    decreases |schedule|
  {
    if schedule != [] {
      WithoutIsRun(m, marked, m(s, schedule[0]).value, schedule[1..]);
    }
  }

  /** Steps use up work, except that a marked one may bring in up to `extra`. */
  ghost predicate Drains<S(!new), A(!new)>(m: Machine<S, A>, inv: S -> bool, work: S -> int, marked: A -> bool, extra: nat) {
    forall s, a :: inv(s) && m(s, a).Some? ==>
      && inv(m(s, a).value) && 0 <= work(m(s, a).value)
      && work(m(s, a).value) + 1 <= work(s) + if marked(a) then extra else 0
  }

  /** A run is no longer than the work there was and that was brought in. */
  lemma {:induction false} RunDrains<S(!new), A(!new)>(
    m: Machine<S, A>, inv: S -> bool, work: S -> int, marked: A -> bool, extra: nat, s: S, schedule: seq<A>)
    requires Drains(m, inv, work, marked, extra) && inv(s) && 0 <= work(s) && Valid(m, s, schedule)
    ensures |schedule| <= work(s) + extra * Count(marked, schedule)
    decreases |schedule|
  {
    if schedule != [] {
      RunDrains(m, inv, work, marked, extra, m(s, schedule[0]).value, schedule[1..]);
      var rest := Count(marked, schedule[1..]);
      assert extra * (1 + rest) == extra + extra * rest;
    }
  }

  /** Some run goes on without marked actions until only those are left. */
  lemma DrainedRun<S(!new), A(!new)>(
    m: Machine<S, A>, inv: S -> bool, work: S -> int, marked: A -> bool, extra: nat, s: S)
    returns (schedule: seq<A>)
    requires Drains(m, inv, work, marked, extra) && inv(s)
    ensures Valid(m, s, schedule) && inv(Final(m, s, schedule))
    ensures forall a :: !marked(a) ==> m(Final(m, s, schedule), a).None?
  {
    var quiet := Without(m, marked);
    assert Decreasing(quiet, inv, work) && Inductive(quiet, inv);
    schedule := MaximalRun(quiet, inv, work, s);
    RunKeeps(quiet, inv, s, schedule);
    WithoutIsRun(m, marked, s, schedule);
    assert forall a :: !marked(a) ==> quiet(Final(m, s, schedule), a) == m(Final(m, s, schedule), a);
  }
}
