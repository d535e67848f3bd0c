/** labs/lab_21_lock_variations.c, Phase 4: the sequence lock around a two-word timestamp, with
    one writer and any number of readers running at once. */
module Seqlock {
  import opened Runs

  /** `seq` is an unsigned int. */
  const WRAP: nat := 0x1_0000_0000

  datatype Pair = Pair(sec: int, nsec: int)

  datatype Writer = Between | StoreSec | StoreNsec | Leave

  datatype ReaderPc = Load1 | Branch | ReadSec | ReadNsec | Load2 | Test | Done

  /** A reader's local variables, which keep their values from one pass of the loop to the next,
      and, as bookkeeping, the writer's progress when s1 and s2 were loaded. */
  datatype Reader = Reader(pc: ReaderPc, s1: nat, s2: nat, sec: int, nsec: int, at1: nat, at2: nat)

  /** `next` is the number of writes completed. */
  datatype State = State(seqno: nat, sec: int, nsec: int, writer: Writer, next: nat, readers: seq<Reader>)

  datatype Action = W | R(k: nat)

  /** The initial pair, the value of `seq` then, and the pairs to be written: version i is the pair after
      i writes. */
  datatype Clock = Clock(initial: Pair, start: nat, writes: seq<Pair>)

  /** `seq` as it is whenever no write is under way. */
  predicate Even(start: nat) { start < WRAP && start % 2 == 0 }

  function Version(c: Clock, i: nat): Pair {
    if 0 < i <= |c.writes| then c.writes[i - 1] else c.initial
  }

  /** Readers start at the top of the loop with whatever their variables hold. */
  predicate Fresh(readers: seq<Reader>) {
    forall k :: 0 <= k < |readers| ==> readers[k].pc == Load1
  }

  function Init(c: Clock, readers: seq<Reader>): State {
    State(c.start, c.initial.sec, c.initial.nsec, Between, 0, readers)
  }

  /** How often the writer has incremented `seq`, not reduced modulo its range. */
  function Ticks(s: State): nat { 2 * s.next + if s.writer == Between then 0 else 1 }

  function WriterStep(c: Clock, s: State): Option<State> {
    if s.next >= |c.writes| then None
    else
      match s.writer
      case Between => Some(s.(seqno := (s.seqno + 1) % WRAP, writer := StoreSec))
      case StoreSec => Some(s.(sec := c.writes[s.next].sec, writer := StoreNsec))
      case StoreNsec => Some(s.(nsec := c.writes[s.next].nsec, writer := Leave))
      case Leave => Some(s.(seqno := (s.seqno + 1) % WRAP, writer := Between, next := s.next + 1))
  }

  /** With `literal`, an odd s1 reaches the loop test, as `continue` does in a do-while loop; without,
      it goes back to the top, as the comment beside it says. */
  function ReaderStep(literal: bool, s: State, r: Reader): Option<Reader> {
    match r.pc
    case Load1 => Some(r.(pc := Branch, s1 := s.seqno, at1 := Ticks(s)))
    case Branch => Some(r.(pc := if r.s1 % 2 == 0 then ReadSec else if literal then Test else Load1))
    case ReadSec => Some(r.(pc := ReadNsec, sec := s.sec))
    case ReadNsec => Some(r.(pc := Load2, nsec := s.nsec))
    case Load2 => Some(r.(pc := Test, s2 := s.seqno, at2 := Ticks(s)))
    case Test => Some(r.(pc := if r.s1 != r.s2 then Load1 else Done))
    case Done => None
  }

  function Step(literal: bool, c: Clock, s: State, a: Action): Option<State> {
    match a
    case W => WriterStep(c, s)
    case R(k) =>
      if k >= |s.readers| || ReaderStep(literal, s, s.readers[k]).None? then None
      else Some(s.(readers := s.readers[k := ReaderStep(literal, s, s.readers[k]).value]))
  }

  function Lock(literal: bool, c: Clock): Machine<State, Action> { (s, a) => Step(literal, c, s, a) }

  // ---------------------------------------------------------- snapshot property

  /** The memory holds a whole version whenever the writer is between writes. */
  ghost predicate WriterOk(c: Clock, s: State) {
    && s.next <= |c.writes| && (s.writer != Between ==> s.next < |c.writes|)
    && Even(c.start) && s.seqno == (c.start + Ticks(s)) % WRAP
    && (s.writer == Between ==> Pair(s.sec, s.nsec) == Version(c, s.next))
    && (s.writer == StoreNsec || s.writer == Leave ==> s.sec == Version(c, s.next + 1).sec)
    && (s.writer == Leave ==> s.nsec == Version(c, s.next + 1).nsec)
  }

  /** What has been read is the version at at1, as long as the writer has not moved since. */
  ghost predicate ReaderOk(c: Clock, s: State, r: Reader) {
    && (r.pc != Load1 ==> r.at1 <= Ticks(s) && r.s1 == (c.start + r.at1) % WRAP)
    && (r.pc.ReadSec? || r.pc.ReadNsec? || r.pc.Load2? || r.pc.Test? || r.pc.Done? ==> r.at1 % 2 == 0)
    && (r.pc.ReadNsec? && r.at1 == Ticks(s) ==> r.sec == Version(c, s.next).sec)
    && (r.pc.Load2? && r.at1 == Ticks(s) ==> Pair(r.sec, r.nsec) == Version(c, s.next))
    && (r.pc.Test? || r.pc.Done? ==>
          && r.at1 <= r.at2 <= Ticks(s) && r.s2 == (c.start + r.at2) % WRAP
          && (r.at1 == r.at2 ==> Pair(r.sec, r.nsec) == Version(c, r.at1 / 2)))
    && (r.pc.Done? ==> r.s1 == r.s2)
  }

  ghost predicate Inv(c: Clock, s: State) {
    WriterOk(c, s) && forall k :: 0 <= k < |s.readers| ==> ReaderOk(c, s, s.readers[k])
  }

  lemma TickWraps(n: nat)
    ensures (n % WRAP + 1) % WRAP == (n + 1) % WRAP
  {
  }

  lemma Parity(start: nat, n: nat)
    requires Even(start)
    ensures (start + n) % WRAP % 2 == n % 2
  {
  }

  lemma WriterKeepsOk(c: Clock, s: State)
    requires WriterOk(c, s) && WriterStep(c, s).Some?
    ensures var s' := WriterStep(c, s).value;
            && WriterOk(c, s') && s'.readers == s.readers
            && Ticks(s) <= Ticks(s') && (Ticks(s') % 2 == 1 || Ticks(s) < Ticks(s'))
  {
    TickWraps(c.start + Ticks(s));
  }

  /** While the writer moves on, a reader knows less, never something false. */
  lemma ReaderOutlasts(c: Clock, s: State, s': State, r: Reader)
    requires ReaderOk(c, s, r) && Ticks(s) <= Ticks(s') && (Ticks(s') % 2 == 1 || Ticks(s) < Ticks(s'))
    ensures ReaderOk(c, s', r)
  {
  }

  lemma ReaderKeepsOk(c: Clock, s: State, r: Reader)
    requires WriterOk(c, s) && ReaderOk(c, s, r) && ReaderStep(false, s, r).Some?
    ensures ReaderOk(c, s, ReaderStep(false, s, r).value)
  {
    Parity(c.start, r.at1);
  }

  lemma SameClock(c: Clock, s: State, s': State, r: Reader)
    requires ReaderOk(c, s, r) && s'.next == s.next && s'.writer == s.writer
    ensures ReaderOk(c, s', r)
  {
  }

  lemma StepKeepsInv(c: Clock, s: State, a: Action)
    requires Inv(c, s) && Step(false, c, s, a).Some?
    ensures Inv(c, Step(false, c, s, a).value)
  {
    var s' := Step(false, c, s, a).value;
    if a == W {
      WriterKeepsOk(c, s);
      forall k | 0 <= k < |s'.readers| ensures ReaderOk(c, s', s'.readers[k]) {
        ReaderOutlasts(c, s, s', s.readers[k]);
      }
    } else {
      ReaderKeepsOk(c, s, s.readers[a.k]);
      forall k | 0 <= k < |s'.readers| ensures ReaderOk(c, s', s'.readers[k]) {
        SameClock(c, s, s', s'.readers[k]);
      }
    }
  }

  lemma RunInv(c: Clock, readers: seq<Reader>, schedule: seq<Action>)
    requires Even(c.start) && Fresh(readers) && Valid(Lock(false, c), Init(c, readers), schedule)
    ensures Inv(c, Final(Lock(false, c), Init(c, readers), schedule))
  {
    var inv := s => Inv(c, s);
    forall s, a | inv(s) && Lock(false, c)(s, a).Some? ensures inv(Lock(false, c)(s, a).value) {
      StepKeepsInv(c, s, a);
    }
    RunKeeps(Lock(false, c), inv, Init(c, readers), schedule);
  }

  lemma SameTurn(x: nat, y: nat)
    requires x <= y < x + WRAP && x % WRAP == y % WRAP
    ensures x == y
  {
  }

  /** A reader that accepts returns one whole version, the one current when it loaded s1,
      unless the writer went a full turn of the counter in between. */
  lemma Snapshot(c: Clock, readers: seq<Reader>, schedule: seq<Action>, k: nat)
    requires Even(c.start) && Fresh(readers) && Valid(Lock(false, c), Init(c, readers), schedule)
    ensures var s := Final(Lock(false, c), Init(c, readers), schedule);
            k < |s.readers| && s.readers[k].pc == Done && s.readers[k].at2 - s.readers[k].at1 < WRAP ==>
              && s.readers[k].at1 / 2 <= s.next <= |c.writes|
              && Pair(s.readers[k].sec, s.readers[k].nsec) == Version(c, s.readers[k].at1 / 2)
  {
    RunInv(c, readers, schedule);
    var s := Final(Lock(false, c), Init(c, readers), schedule);
    if k < |s.readers| && s.readers[k].pc == Done {
      var r := s.readers[k];
      assert ReaderOk(c, s, r);
      if r.at2 - r.at1 < WRAP {
        SameTurn(c.start + r.at1, c.start + r.at2);
      }
    }
  }

  // --------------------------------------------------- a write and a read on their own

  /** Four steps store both words of the next pair and advance the counter by two. */
  lemma WriteAlone(literal: bool, c: Clock, s: State)
    requires s.next < |c.writes| && s.writer == Between
    ensures Valid(Lock(literal, c), s, [W, W, W, W])
    ensures Final(Lock(literal, c), s, [W, W, W, W])
         == s.(seqno := ((s.seqno + 1) % WRAP + 1) % WRAP, sec := c.writes[s.next].sec, nsec := c.writes[s.next].nsec, next := s.next + 1)
  {
    var p, q := c.writes[s.next], (s.seqno + 1) % WRAP;
    var s1 := s.(seqno := q, writer := StoreSec);
    var s2 := s1.(sec := p.sec, writer := StoreNsec);
    var s3 := s2.(nsec := p.nsec, writer := Leave);
    var s4 := s3.(seqno := (q + 1) % WRAP, writer := Between, next := s.next + 1);
    FourSteps(Lock(literal, c), s, W, s1, W, s2, W, s3, W, s4);
  }

  function With(s: State, k: nat, r: Reader): State
    requires k < |s.readers|
  {
    s.(readers := s.readers[k := r])
  }

  lemma ReaderMoves(literal: bool, c: Clock, s: State, k: nat, r: Reader, r': Reader)
    requires k < |s.readers| && ReaderStep(literal, s, r) == Some(r')
    ensures Lock(literal, c)(With(s, k, r), R(k)) == Some(With(s, k, r'))
  {
    assert s.readers[k := r][k := r'] == s.readers[k := r'];
  }

  /** Between writes a pass of the loop, whatever the variables held before, accepts the stored pair, which
      is the current version. */
  lemma ReadAlone(literal: bool, c: Clock, s: State, k: nat)
    requires WriterOk(c, s) && s.writer == Between && k < |s.readers| && s.readers[k].pc == Load1
    ensures Valid(Lock(literal, c), s, [R(k), R(k), R(k), R(k), R(k), R(k)])
    ensures Final(Lock(literal, c), s, [R(k), R(k), R(k), R(k), R(k), R(k)])
         == With(s, k, Reader(Done, s.seqno, s.seqno, s.sec, s.nsec, Ticks(s), Ticks(s)))
    ensures Pair(s.sec, s.nsec) == Version(c, s.next)
  {
    var r0, n, t := s.readers[k], s.seqno, Ticks(s);
    var r1 := r0.(pc := Branch, s1 := n, at1 := t);
    var r2 := r1.(pc := ReadSec);
    var r3 := r2.(pc := ReadNsec, sec := s.sec);
    var r4 := r3.(pc := Load2, nsec := s.nsec);
    var r5 := r4.(pc := Test, s2 := n, at2 := t);
    var r6 := r5.(pc := Done);
    Parity(c.start, t);
    assert s == With(s, k, r0);
    ReaderMoves(literal, c, s, k, r0, r1);
    ReaderMoves(literal, c, s, k, r1, r2);
    ReaderMoves(literal, c, s, k, r2, r3);
    ReaderMoves(literal, c, s, k, r3, r4);
    ReaderMoves(literal, c, s, k, r4, r5);
    ReaderMoves(literal, c, s, k, r5, r6);
    SixSteps(Lock(literal, c), s, R(k), With(s, k, r1), R(k), With(s, k, r2), R(k), With(s, k, r3),
             R(k), With(s, k, r4), R(k), With(s, k, r5), R(k), With(s, k, r6));
  }

  /** During a write the loop reads nothing: the retry starts over, the loop as written goes to its test. */
  lemma ReadDuringWrite(literal: bool, c: Clock, s: State, k: nat)
    requires WriterOk(c, s) && s.writer != Between && k < |s.readers| && s.readers[k].pc == Load1
    ensures Valid(Lock(literal, c), s, [R(k), R(k)])
    ensures Final(Lock(literal, c), s, [R(k), R(k)])
         == With(s, k, s.readers[k].(pc := if literal then Test else Load1, s1 := s.seqno, at1 := Ticks(s)))
  {
    var r0 := s.readers[k];
    var r1 := r0.(pc := Branch, s1 := s.seqno, at1 := Ticks(s));
    var r2 := r1.(pc := if literal then Test else Load1);
    Parity(c.start, Ticks(s));
    assert s == With(s, k, r0);
    ReaderMoves(literal, c, s, k, r0, r1);
    ReaderMoves(literal, c, s, k, r1, r2);
    TwoSteps(Lock(literal, c), s, R(k), With(s, k, r1), R(k), With(s, k, r2));
  }

  /** Nobody ever waits: readers until they have accepted, the writer until it has written everything. */
  lemma NobodyWaits(literal: bool, c: Clock, s: State, k: nat)
    requires WriterOk(c, s) && k < |s.readers|
    ensures Lock(literal, c)(s, R(k)).None? <==> s.readers[k].pc == Done
    ensures Lock(literal, c)(s, W).None? <==> s.next == |c.writes|
  {
  }

  // ------------------------------------------------------- how far it can be trusted

  /** Every accepted read is a pair that was in force at some time. */
  ghost predicate Published(c: Clock, s: State) {
    forall k :: 0 <= k < |s.readers| && s.readers[k].pc == Done ==>
      exists i :: 0 <= i <= s.next <= |c.writes| && Pair(s.readers[k].sec, s.readers[k].nsec) == Version(c, i)
  }

  ghost predicate Trustworthy(literal: bool, start: nat, writes: nat) {
    forall c: Clock, readers, schedule :: c.start == start && |c.writes| == writes && Fresh(readers) && Valid(Lock(literal, c), Init(c, readers), schedule) ==>
      Published(c, Final(Lock(literal, c), Init(c, readers), schedule))
  }

  lemma FewWritesPublished(c: Clock, readers: seq<Reader>, schedule: seq<Action>)
    requires 2 * |c.writes| < WRAP && Even(c.start) && Fresh(readers) && Valid(Lock(false, c), Init(c, readers), schedule)
    ensures Published(c, Final(Lock(false, c), Init(c, readers), schedule))
  {
    RunInv(c, readers, schedule);
    var s := Final(Lock(false, c), Init(c, readers), schedule);
    forall k | 0 <= k < |s.readers| && s.readers[k].pc == Done
      ensures exists i :: 0 <= i <= s.next <= |c.writes| && Pair(s.readers[k].sec, s.readers[k].nsec) == Version(c, i)
    {
      assert ReaderOk(c, s, s.readers[k]);
      Snapshot(c, readers, schedule, k);
      var i := s.readers[k].at1 / 2;
      assert 0 <= i <= s.next && Pair(s.readers[k].sec, s.readers[k].nsec) == Version(c, i);
    }
  }

  /** A clock that goes from (0,0) to (1,1), so that (0,1) was never in force. */
  function Jump(start: nat, writes: nat): Clock { Clock(Pair(0, 0), start, seq(writes, _ => Pair(1, 1))) }

  function OneReader(): seq<Reader> { [Reader(Load1, 0, 0, 0, 0, 0, 0)] }

  /** k whole writes. */
  function Writes(k: nat): seq<Action> { if k == 0 then [] else [W, W, W, W] + Writes(k - 1) }

  function AfterWrites(start: nat, s: State, k: nat): State {
    if k == 0 then s else s.(seqno := (start + 2 * (s.next + k)) % WRAP, sec := 1, nsec := 1, next := s.next + k)
  }

  lemma TwoTicks(k: nat)
    ensures ((k % WRAP + 1) % WRAP + 1) % WRAP == (k + 2) % WRAP
  {
    TickWraps(k);
    TickWraps(k + 1);
  }

  lemma JumpWritten(start: nat, n: nat, s: State)
    requires s.next < n && s.seqno == (start + 2 * s.next) % WRAP
    ensures var p := Jump(start, n).writes[s.next];
            s.(seqno := ((s.seqno + 1) % WRAP + 1) % WRAP, sec := p.sec, nsec := p.nsec, next := s.next + 1) == AfterWrites(start, s, 1)
  {
    TwoTicks(start + 2 * s.next);
  }

  lemma OneWrite(literal: bool, start: nat, n: nat, s: State)
    requires s.next < n && s.writer == Between && s.seqno == (start + 2 * s.next) % WRAP
    ensures Valid(Lock(literal, Jump(start, n)), s, [W, W, W, W])
    ensures Final(Lock(literal, Jump(start, n)), s, [W, W, W, W]) == AfterWrites(start, s, 1)
  {
    WriteAlone(literal, Jump(start, n), s);
    JumpWritten(start, n, s);
  }

  lemma {:induction false} RunWrites(literal: bool, start: nat, n: nat, s: State, k: nat)
    requires s.next + k <= n && s.writer == Between && s.seqno == (start + 2 * s.next) % WRAP
    ensures Valid(Lock(literal, Jump(start, n)), s, Writes(k))
    ensures Final(Lock(literal, Jump(start, n)), s, Writes(k)) == AfterWrites(start, s, k)
    decreases k
  {
    if k > 0 {
      OneWrite(literal, start, n, s);
      RunWrites(literal, start, n, AfterWrites(start, s, 1), k - 1);
      Concat(Lock(literal, Jump(start, n)), s, [W, W, W, W], Writes(k - 1));
    }
  }

  function Solo(s: State, r: Reader): State { s.(readers := [r]) }

  lemma Mixed(start: nat, n: nat, s: State)
    requires |s.readers| == 1 && s.readers[0].pc == Done && s.readers[0].sec == 0 && s.readers[0].nsec == 1
    ensures !Published(Jump(start, n), s)
  {
    forall i: nat ensures Version(Jump(start, n), i) != Pair(0, 1) {
    }
  }

  /** A reader sleeps through a full turn of the counter between its two reads. */
  lemma FullTurnMixes(start: nat, n: nat) returns (schedule: seq<Action>)
    requires Even(start) && 2 * n >= WRAP
    ensures Valid(Lock(false, Jump(start, n)), Init(Jump(start, n), OneReader()), schedule)
    ensures !Published(Jump(start, n), Final(Lock(false, Jump(start, n)), Init(Jump(start, n), OneReader()), schedule))
  {
    var c := Jump(start, n);
    var m, k := Lock(false, c), WRAP / 2;
    var s0 := Init(c, OneReader());
    var before, after := [R(0), R(0), R(0)], [R(0), R(0), R(0)];
    var s1 := Step(false, c, s0, R(0)).value;
    var s2 := Step(false, c, s1, R(0)).value;
    var s3 := Step(false, c, s2, R(0)).value;
    assert s3 == Solo(s0, Reader(ReadNsec, start, 0, 0, 0, 0, 0));
    Cons(m, s2, R(0), []);
    Cons(m, s1, R(0), [R(0)]);
    Cons(m, s0, R(0), [R(0), R(0)]);
    RunWrites(false, start, n, s3, k);
    var s4 := AfterWrites(start, s3, k);
    var s5 := Step(false, c, s4, R(0)).value;
    var s6 := Step(false, c, s5, R(0)).value;
    var s7 := Step(false, c, s6, R(0)).value;
    Cons(m, s6, R(0), []);
    Cons(m, s5, R(0), [R(0)]);
    Cons(m, s4, R(0), [R(0), R(0)]);
    Concat(m, s3, Writes(k), after);
    Concat(m, s0, before, Writes(k) + after);
    schedule := before + (Writes(k) + after);
    Mixed(start, n, s7);
  }

  /** The sequence lock with the retry its comment describes is safe for fewer than 2^31 writes
      during the life of its readers, and for no more. */
  lemma RetryTrustworthy(start: nat, writes: nat)
    requires Even(start)
    ensures Trustworthy(false, start, writes) <==> 2 * writes < WRAP
  {
    if 2 * writes < WRAP {
      forall c: Clock, readers, schedule | c.start == start && |c.writes| == writes && Fresh(readers) && Valid(Lock(false, c), Init(c, readers), schedule)
        ensures Published(c, Final(Lock(false, c), Init(c, readers), schedule))
      {
        FewWritesPublished(c, readers, schedule);
      }
    } else {
      var schedule := FullTurnMixes(start, writes);
      assert |Jump(start, writes).writes| == writes && Fresh(OneReader());
    }
  }

  // --------------------------------------------- the loop as it is written

  ghost predicate StillReader(c: Clock, r: Reader) {
    && (r.pc != Load1 ==> r.s1 == c.start)
    && (r.pc.ReadNsec? ==> r.sec == c.initial.sec)
    && (r.pc.Load2? || r.pc.Test? || r.pc.Done? ==> Pair(r.sec, r.nsec) == c.initial)
  }

  ghost predicate Still(c: Clock, s: State) {
    && s.writer == Between && s.next == 0 && Even(c.start) && s.seqno == c.start && Pair(s.sec, s.nsec) == c.initial
    && forall k :: 0 <= k < |s.readers| ==> StillReader(c, s.readers[k])
  }

  lemma StillStays(c: Clock, s: State, a: Action)
    requires c.writes == [] && Still(c, s) && Step(true, c, s, a).Some?
    ensures Still(c, Step(true, c, s, a).value)
  {
    assert StillReader(c, s.readers[a.k]);
  }

  lemma NoWritesPublished(c: Clock, readers: seq<Reader>, schedule: seq<Action>)
    requires c.writes == [] && Even(c.start) && Fresh(readers) && Valid(Lock(true, c), Init(c, readers), schedule)
    ensures Published(c, Final(Lock(true, c), Init(c, readers), schedule))
  {
    var inv := s => Still(c, s);
    forall s, a | inv(s) && Lock(true, c)(s, a).Some? ensures inv(Lock(true, c)(s, a).value) {
      StillStays(c, s, a);
    }
    RunKeeps(Lock(true, c), inv, Init(c, readers), schedule);
    var s := Final(Lock(true, c), Init(c, readers), schedule);
    forall k | 0 <= k < |s.readers| && s.readers[k].pc == Done
      ensures exists i :: 0 <= i <= s.next <= |c.writes| && Pair(s.readers[k].sec, s.readers[k].nsec) == Version(c, i)
    {
      assert StillReader(c, s.readers[k]);
      assert Pair(s.readers[k].sec, s.readers[k].nsec) == Version(c, 0);
    }
  }

  lemma Overtaken(start: nat, n: nat, s: State) returns (schedule: seq<Action>)
    requires Even(start) && s == State(start + 1, 1, 1, Leave, 0, [Reader(ReadNsec, start, 0, 0, 0, 0, 0)])
    ensures Valid(Lock(true, Jump(start, n)), s, schedule)
    ensures !Published(Jump(start, n), Final(Lock(true, Jump(start, n)), s, schedule))
  {
    var c := Jump(start, n);
    var m := Lock(true, c);
    var s1 := Step(true, c, s, R(0)).value;
    var s2 := Step(true, c, s1, R(0)).value;
    var s3 := Step(true, c, s2, R(0)).value;
    assert s3.readers == [Reader(Load1, start, start + 1, 0, 1, 0, 1)];
    var s4 := Step(true, c, s3, R(0)).value;
    var s5 := Step(true, c, s4, R(0)).value;
    var s6 := Step(true, c, s5, R(0)).value;
    Mixed(start, n, s6);
    Cons(m, s5, R(0), []);
    Cons(m, s4, R(0), [R(0)]);
    Cons(m, s3, R(0), [R(0), R(0)]);
    Cons(m, s2, R(0), [R(0), R(0), R(0)]);
    Cons(m, s1, R(0), [R(0), R(0), R(0), R(0)]);
    Cons(m, s, R(0), [R(0), R(0), R(0), R(0), R(0)]);
    schedule := [R(0), R(0), R(0), R(0), R(0), R(0)];
  }

  /** A reader overtaken by one write: it has read the old sec, then reads the new nsec and an odd s2,
      and starts over; now s1 is that odd value, `continue` reaches the test with s2 still left over from
      the pass before, the two agree, and the loop ends with the mixed pair. */
  lemma ContinueMixes(start: nat, n: nat) returns (schedule: seq<Action>)
    requires Even(start) && n >= 1
    ensures Valid(Lock(true, Jump(start, n)), Init(Jump(start, n), OneReader()), schedule)
    ensures !Published(Jump(start, n), Final(Lock(true, Jump(start, n)), Init(Jump(start, n), OneReader()), schedule))
  {
    var c := Jump(start, n);
    var m, s0 := Lock(true, c), Init(c, OneReader());
    var s1 := Step(true, c, s0, R(0)).value;
    var s2 := Step(true, c, s1, R(0)).value;
    var s3 := Step(true, c, s2, R(0)).value;
    assert s3 == Solo(s0, Reader(ReadNsec, start, 0, 0, 0, 0, 0));
    var s4 := Step(true, c, s3, W).value;
    var s5 := Step(true, c, s4, W).value;
    var s6 := Step(true, c, s5, W).value;
    assert s6 == State(start + 1, 1, 1, Leave, 0, s3.readers);
    var rest := Overtaken(start, n, s6);
    Cons(m, s5, W, rest);
    Cons(m, s4, W, [W] + rest);
    Cons(m, s3, W, [W] + ([W] + rest));
    rest := [W] + ([W] + ([W] + rest));
    Cons(m, s2, R(0), rest);
    Cons(m, s1, R(0), [R(0)] + rest);
    Cons(m, s0, R(0), [R(0)] + ([R(0)] + rest));
    schedule := [R(0)] + ([R(0)] + ([R(0)] + rest));
  }

  /** The loop as it is written returns only pairs that were in force exactly when nothing is written
      while it runs, which is the only case the lab exercises. */
  lemma LiteralTrustworthy(start: nat, writes: nat)
    requires Even(start)
    ensures Trustworthy(true, start, writes) <==> writes == 0
  {
    if writes == 0 {
      forall c: Clock, readers, schedule | c.start == start && |c.writes| == writes && Fresh(readers) && Valid(Lock(true, c), Init(c, readers), schedule)
        ensures Published(c, Final(Lock(true, c), Init(c, readers), schedule))
      {
        NoWritesPublished(c, readers, schedule);
      }
    } else {
      var schedule := ContinueMixes(start, writes);
      assert |Jump(start, writes).writes| == writes && Fresh(OneReader());
    }
  }

  // ----------------------------------------------------- the lab's own block

  /** The three variables of the block, written and read in turn by one thread. */
  class Timestamp {
    var seqno: nat
    var sec: int
    var nsec: int

    ghost predicate Stable()
      reads this
    {
      seqno < WRAP && seqno % 2 == 0
    }

    constructor (initial: Pair)
      ensures Stable() && Pair(sec, nsec) == initial && seqno == 0
    {
      seqno, sec, nsec := 0, initial.sec, initial.nsec;
    }

    method Write(p: Pair)
      requires Stable()
      modifies this
      ensures Stable() && Pair(sec, nsec) == p && seqno == (old(seqno) + 2) % WRAP
    {
      seqno := (seqno + 1) % WRAP;
      sec := p.sec;
      nsec := p.nsec;
      seqno := (seqno + 1) % WRAP;
    }

    /** The do-while loop, `continue` included; `s2` starts uninitialised. */
    method Read(uninitialised: nat) returns (p: Pair, retries: int)
      requires Stable()
      ensures p == Pair(sec, nsec) && retries == 0
    {
      p, retries := Pair(0, 0), 0;
      var s1, s2, again := 0, uninitialised, true;
      while again
        invariant retries == 0 && (!again ==> p == Pair(sec, nsec))
        decreases again
      {
        s1 := seqno;
        if s1 % 2 == 1 {
          retries := retries + 1;
        } else {
          p := Pair(sec, nsec);
          s2 := seqno;
        }
        again := s1 != s2;
      }
    }
  }
}
