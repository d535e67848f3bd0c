/** labs/lab_15_context_switching.c: two threads or processes pass one byte back and forth through two
    pipes, and the time of a round is divided by two to get the time of a switch. */
module PingPong {
  import opened Runs

  /** One side of the game: how many rounds it has finished, and whether its next call is the second of
      its loop body. */
  datatype Side = Side(rounds: nat, second: bool)

  /** `there` and `back` are the bytes in the two pipes, each of which holds up to a capacity;
      `handoffs` counts the bytes received. */
  datatype State = State(there: nat, back: nat, parent: Side, child: Side, handoffs: nat)

  datatype Action = Parent | Child

  const INITIAL := State(0, 0, Side(0, false), Side(0, false), 0)

  function Advance(p: Side): Side {
    if p.second then Side(p.rounds + 1, false) else p.(second := true)
  }

  /** The parent writes, then reads; the child reads, then writes.  A write waits for room and a read
      for a byte. */
  function Step(n: nat, capacity: nat, s: State, a: Action): Option<State> {
    match a
    case Parent =>
      if s.parent.rounds >= n then None
      else if !s.parent.second then
        if s.there < capacity then Some(s.(there := s.there + 1, parent := Advance(s.parent))) else None
      else if s.back > 0 then Some(s.(back := s.back - 1, parent := Advance(s.parent), handoffs := s.handoffs + 1)) else None
    case Child =>
      if s.child.rounds >= n then None
      else if !s.child.second then
        if s.there > 0 then Some(s.(there := s.there - 1, child := Advance(s.child), handoffs := s.handoffs + 1)) else None
      else if s.back < capacity then Some(s.(back := s.back + 1, child := Advance(s.child))) else None
  }

  function Game(n: nat, capacity: nat): Machine<State, Action> { (s, a) => Step(n, capacity, s, a) }

  ghost predicate Finished(n: nat, s: State) { s.parent.rounds == n && s.child.rounds == n }

  function Flag(b: bool): nat { if b then 1 else 0 }

  /** The byte is in the first pipe, with the child, in the second pipe, or with the parent, and only
      there. */
  ghost predicate OneToken(s: State) {
    s.there + Flag(s.child.second) + s.back + Flag(!s.parent.second) == 1
  }

  function Calls(p: Side): nat { 2 * p.rounds + Flag(p.second) }

  ghost predicate Inv(n: nat, s: State, steps: nat) {
    && OneToken(s)
    && s.child.rounds == s.parent.rounds + s.back
    && s.parent.rounds <= n && s.child.rounds <= n
    && (s.parent.second || s.child.second ==> s.parent.rounds < n)
    && steps == Calls(s.parent) + Calls(s.child)
    && s.handoffs == s.parent.rounds + s.child.rounds + Flag(s.child.second)
  }

  /** Whose turn it is after so many steps: the byte goes out, is taken, comes back, is taken. */
  function Turn(steps: nat): Action { if steps % 4 == 1 || steps % 4 == 2 then Child else Parent }

  /** Where the byte is within the round: with the parent, on its way, with the child, or coming back. */
  function Place(s: State): nat { 2 * s.back + Flag(s.parent.second) + Flag(s.child.second) }

  lemma StepsAre(n: nat, s: State, steps: nat)
    requires Inv(n, s, steps)
    ensures Place(s) < 4 && steps == 4 * s.parent.rounds + Place(s) && steps % 4 == Place(s)
  {
  }

  lemma StepKeepsInv(n: nat, capacity: nat, s: State, steps: nat, a: Action)
    requires Inv(n, s, steps) && Step(n, capacity, s, a).Some?
    ensures Inv(n, Step(n, capacity, s, a).value, steps + 1)
  {
  }

  /** While the game is on, exactly one side can move, and which one depends on the number of steps
      made alone; when no side can, all rounds have been played. */
  lemma OneMover(n: nat, capacity: nat, s: State, steps: nat, a: Action)
    requires capacity > 0 && Inv(n, s, steps)
    ensures Step(n, capacity, s, a).Some? <==> steps < 4 * n && a == Turn(steps)
    ensures Step(n, capacity, s, a).Some? ==> Inv(n, Step(n, capacity, s, a).value, steps + 1)
    ensures steps <= 4 * n && (steps == 4 * n <==> Finished(n, s))
  {
    StepsAre(n, s, steps);
    if Step(n, capacity, s, a).Some? {
      StepKeepsInv(n, capacity, s, steps, a);
    }
  }

  lemma {:induction false} RunForced(n: nat, capacity: nat, s: State, steps: nat, schedule: seq<Action>)
    requires capacity > 0 && Inv(n, s, steps) && Valid(Game(n, capacity), s, schedule)
    ensures Inv(n, Final(Game(n, capacity), s, schedule), steps + |schedule|)
    ensures forall i :: 0 <= i < |schedule| ==> schedule[i] == Turn(steps + i)
    decreases |schedule|
  {
    if schedule != [] {
      OneMover(n, capacity, s, steps, schedule[0]);
      RunForced(n, capacity, Step(n, capacity, s, schedule[0]).value, steps + 1, schedule[1..]);
      assert forall i :: 0 < i < |schedule| ==> schedule[i] == schedule[1..][i - 1];
    }
  }

  /** How often the processor changes hands. */
  function Switches(schedule: seq<Action>): nat {
    if |schedule| < 2 then 0
    else Switches(schedule[..|schedule| - 1]) + Flag(schedule[|schedule| - 1] != schedule[|schedule| - 2])
  }

  lemma HalfNext(i: nat)
    ensures (i + 1) / 2 == i / 2 + Flag(i % 2 == 1)
  {
  }

  lemma NextOfFour(i: nat)
    ensures (i + 1) % 4 == if i % 4 == 3 then 0 else i % 4 + 1
  {
  }

  lemma HalfOfFour(i: nat)
    ensures i % 2 == 0 <==> i % 4 == 0 || i % 4 == 2
  {
  }

  lemma TurnChanges(i: nat, prev: Action, last: Action)
    requires prev == Turn(i) && last == Turn(i + 1)
    ensures (i + 2) / 2 == (i + 1) / 2 + Flag(last != prev)
  {
    NextOfFour(i);
    HalfOfFour(i);
    HalfNext(i + 1);
  }

  lemma {:induction false} SwitchesForced(schedule: seq<Action>)
    requires forall i :: 0 <= i < |schedule| ==> schedule[i] == Turn(i)
    ensures Switches(schedule) == |schedule| / 2
  {
    if |schedule| >= 2 {
      SwitchesForced(schedule[..|schedule| - 1]);
      TurnChanges(|schedule| - 2, schedule[|schedule| - 2], schedule[|schedule| - 1]);
    }
  }

  lemma StuckExact(n: nat, capacity: nat, s: State, steps: nat)
    requires capacity > 0 && Inv(n, s, steps)
    ensures Stuck(Game(n, capacity), s) <==> Finished(n, s)
    ensures steps <= 4 * n && (steps == 4 * n <==> Finished(n, s))
  {
    var m := Game(n, capacity);
    forall a ensures m(s, a).Some? <==> steps < 4 * n && a == Turn(steps) {
      OneMover(n, capacity, s, steps, a);
    }
    OneMover(n, capacity, s, steps, Parent);
    assert m(s, Turn(steps)).Some? <==> steps < 4 * n;
  }

  /** Every run keeps exactly one byte in play and gets stuck only when all rounds are played, which is
      after 4n steps; the byte has then been handed over 2n times and the sides have taken turns 2n
      times, the number the elapsed time is divided by. */
  lemma GameExact(n: nat, capacity: nat, schedule: seq<Action>)
    requires capacity > 0 && Valid(Game(n, capacity), INITIAL, schedule)
    ensures var s := Final(Game(n, capacity), INITIAL, schedule);
            && OneToken(s) && |schedule| <= 4 * n
            && (Stuck(Game(n, capacity), s) <==> Finished(n, s))
            && (Finished(n, s) <==> |schedule| == 4 * n)
            && (Finished(n, s) ==> s.handoffs == 2 * n && Switches(schedule) == 2 * n)
  {
    RunForced(n, capacity, INITIAL, 0, schedule);
    SwitchesForced(schedule);
    StuckExact(n, capacity, Final(Game(n, capacity), INITIAL, schedule), |schedule|);
  }
}
