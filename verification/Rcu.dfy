/** labs/lab_36_rcu_lockfree.c: one writer replaces a shared record while readers use it. */
module Rcu {
  import opened Runs

  datatype Data = Data(version: int, value: int)

  /** `rcu_update`: load the old pointer, allocate, fill in, publish, wait and free. */
  datatype Writer =
    | Resting
    | Loaded(was: nat)
    | Allocated(was: nat, newer: nat)
    | FilledIn(was: nat, newer: nat)
    | Grace(was: nat)

  /** `rcu_read`: load the pointer, then read the two fields. */
  datatype ReaderPc = Away | Holding(p: nat) | HalfRead(p: nat, version: int)

  /** A reader and the pairs it has read so far. */
  datatype Reader = Reader(pc: ReaderPc, seen: seq<Data>)

  /** `published` is the number of updates whose pointer has been stored. */
  datatype State = State(heap: map<nat, Data>, shared: nat, writer: Writer, published: nat, readers: seq<Reader>)

  datatype Action = W | Malloc(addr: nat, junk: Data) | R(k: nat)

  function Init(at: nat, readers: nat): State {
    State(map[at := Data(0, 0)], at, Resting, 0, seq(readers, _ => Reader(Away, [])))
  }

  /** The record after i updates. */
  function Version(updates: seq<int>, i: int): Data {
    Data(i, if 0 < i <= |updates| then updates[i - 1] else 0)
  }

  function Held(pc: ReaderPc): Option<nat> {
    match pc case Away => None case Holding(p) => Some(p) case HalfRead(p, _) => Some(p)
  }

  /** The grace period is over: no reader that loaded the old pointer is still using it. */
  predicate Unheld(s: State, p: nat) {
    forall k :: 0 <= k < |s.readers| ==> Held(s.readers[k].pc) != Some(p)
  }

  function WriterStep(guarded: bool, updates: seq<int>, s: State): Option<State> {
    match s.writer
    case Resting =>
      if s.published < |updates| then Some(s.(writer := Loaded(s.shared))) else None
    case Loaded(_) => None
    case Allocated(was, newer) =>
      if was in s.heap && s.published < |updates|
      then Some(s.(writer := FilledIn(was, newer), heap := s.heap[newer := Data(s.heap[was].version + 1, updates[s.published])]))
      else None
    case FilledIn(was, newer) =>
      Some(s.(writer := Grace(was), shared := newer, published := s.published + 1))
    case Grace(was) =>
      if was in s.heap && (guarded ==> Unheld(s, was)) then Some(s.(writer := Resting, heap := s.heap - {was})) else None
  }

  function ReaderStep(s: State, r: Reader): Option<Reader> {
    match r.pc
    case Away => Some(r.(pc := Holding(s.shared)))
    case Holding(p) => if p in s.heap then Some(r.(pc := HalfRead(p, s.heap[p].version))) else None
    case HalfRead(p, version) =>
      if p in s.heap then Some(Reader(Away, r.seen + [Data(version, s.heap[p].value)])) else None
  }

  /** With `guarded` the writer frees the old record only after the grace period; without, as soon as
      it gets there, which is what sleeping for a fixed time amounts to. */
  function Step(guarded: bool, updates: seq<int>, s: State, a: Action): Option<State> {
    match a
    case W => WriterStep(guarded, updates, s)
    case Malloc(addr, junk) =>
      if s.writer.Loaded? && addr !in s.heap
      then Some(s.(writer := Allocated(s.writer.was, addr), heap := s.heap[addr := junk])) else None
    case R(k) =>
      if k >= |s.readers| || ReaderStep(s, s.readers[k]).None? then None
      else Some(s.(readers := s.readers[k := ReaderStep(s, s.readers[k]).value]))
  }

  function Cell(guarded: bool, updates: seq<int>): Machine<State, Action> { (s, a) => Step(guarded, updates, s, a) }

  // ---------------------------------------------------------- specification

  /** Somebody is about to touch memory that is not allocated. */
  ghost predicate Faulty(s: State) {
    || (exists k :: 0 <= k < |s.readers| && Held(s.readers[k].pc).Some? && Held(s.readers[k].pc).value !in s.heap)
    || (s.writer.Allocated? && s.writer.was !in s.heap)
    || (s.writer.Grace? && s.writer.was !in s.heap)
  }

  predicate Ascending(seen: seq<Data>) {
    forall i, j :: 0 <= i < j < |seen| ==> seen[i].version <= seen[j].version
  }

  /** Readers never touch freed memory, read only whole published records, never go back to an
      older one, and at most two records exist at a time. */
  ghost predicate Safe(updates: seq<int>, s: State) {
    && !Faulty(s)
    && |s.heap| <= 2
    && forall k :: 0 <= k < |s.readers| ==>
         && Ascending(s.readers[k].seen)
         && forall i :: 0 <= i < |s.readers[k].seen| ==>
              && 0 <= s.readers[k].seen[i].version <= s.published
              && s.readers[k].seen[i] == Version(updates, s.readers[k].seen[i].version)
  }

  // --------------------------------------------------------------- invariant

  ghost predicate WriterOk(updates: seq<int>, s: State) {
    && s.published <= |updates|
    && s.shared in s.heap && s.heap[s.shared] == Version(updates, s.published)
    && match s.writer
       case Resting => s.heap.Keys == {s.shared}
       case Loaded(was) => was == s.shared && s.heap.Keys == {was} && s.published < |updates|
       case Allocated(was, newer) => was == s.shared && newer != was && s.heap.Keys == {was, newer} && s.published < |updates|
       case FilledIn(was, newer) =>
         && was == s.shared && newer != was && s.heap.Keys == {was, newer} && s.published < |updates|
         && s.heap[newer] == Version(updates, s.published + 1)
       case Grace(was) =>
         && was != s.shared && s.heap.Keys == {was, s.shared} && s.published > 0
         && s.heap[was] == Version(updates, s.published - 1)
  }

  /** The records a reader can have got hold of. */
  predicate InUse(s: State, p: nat) {
    p == s.shared || (s.writer.Grace? && p == s.writer.was)
  }

  ghost predicate SeenOk(updates: seq<int>, limit: int, seen: seq<Data>) {
    && Ascending(seen)
    && forall i :: 0 <= i < |seen| ==> 0 <= seen[i].version <= limit && seen[i] == Version(updates, seen[i].version)
  }

  ghost predicate ReaderOk(updates: seq<int>, s: State, r: Reader) {
    match r.pc
    case Away => SeenOk(updates, s.published, r.seen)
    case Holding(p) => InUse(s, p) && p in s.heap && SeenOk(updates, s.heap[p].version, r.seen)
    case HalfRead(p, version) =>
      InUse(s, p) && p in s.heap && version == s.heap[p].version && SeenOk(updates, version, r.seen)
  }

  ghost predicate Inv(updates: seq<int>, s: State) {
    WriterOk(updates, s) && forall k :: 0 <= k < |s.readers| ==> ReaderOk(updates, s, s.readers[k])
  }

  lemma WriterKeepsOk(updates: seq<int>, s: State)
    requires WriterOk(updates, s) && WriterStep(true, updates, s).Some?
    ensures WriterOk(updates, WriterStep(true, updates, s).value)
  {
    var s' := WriterStep(true, updates, s).value;
    if s.writer.Grace? {
      assert s'.heap.Keys == {s.shared};
    } else if s.writer.Allocated? {
      assert s'.heap.Keys == s.heap.Keys;
    }
  }

  lemma WriterSparesReader(updates: seq<int>, s: State, k: nat)
    requires Inv(updates, s) && WriterStep(true, updates, s).Some? && k < |s.readers|
    ensures ReaderOk(updates, WriterStep(true, updates, s).value, s.readers[k])
  {
    assert ReaderOk(updates, s, s.readers[k]);
  }

  lemma ReaderKeepsOk(updates: seq<int>, s: State, r: Reader)
    requires WriterOk(updates, s) && ReaderOk(updates, s, r) && ReaderStep(s, r).Some?
    ensures ReaderOk(updates, s, ReaderStep(s, r).value)
  {
    if r.pc.HalfRead? {
      var longer := ReaderStep(s, r).value.seen;
      assert longer[|longer| - 1] == Version(updates, r.pc.version);
      assert SeenOk(updates, s.published, longer);
    }
  }

  lemma StepKeepsInv(updates: seq<int>, s: State, a: Action)
    requires Inv(updates, s) && Step(true, updates, s, a).Some?
    ensures Inv(updates, Step(true, updates, s, a).value)
  {
    var s' := Step(true, updates, s, a).value;
    match a {
      case W =>
        WriterKeepsOk(updates, s);
        forall k | 0 <= k < |s'.readers| ensures ReaderOk(updates, s', s'.readers[k]) {
          WriterSparesReader(updates, s, k);
        }
      case Malloc(addr, junk) =>
        assert s'.heap.Keys == s.heap.Keys + {addr};
        forall k | 0 <= k < |s'.readers| ensures ReaderOk(updates, s', s'.readers[k]) {
          assert ReaderOk(updates, s, s.readers[k]);
        }
      case R(k) =>
        ReaderKeepsOk(updates, s, s.readers[k]);
        forall j | 0 <= j < |s'.readers| ensures ReaderOk(updates, s', s'.readers[j]) {
          assert j != k ==> ReaderOk(updates, s, s.readers[j]);
        }
    }
  }

  lemma AtMostTwo(updates: seq<int>, s: State)
    requires WriterOk(updates, s)
    ensures |s.heap| <= 2
  {
    assert |s.heap| == |s.heap.Keys|;
    if s.writer.Grace? {
      assert s.heap.Keys == {s.writer.was, s.shared};
    }
  }

  lemma InvSafe(updates: seq<int>, s: State)
    requires Inv(updates, s)
    ensures Safe(updates, s)
  {
    forall k | 0 <= k < |s.readers|
      ensures Held(s.readers[k].pc).Some? ==> Held(s.readers[k].pc).value in s.heap
      ensures SeenOk(updates, s.published, s.readers[k].seen)
    {
      assert ReaderOk(updates, s, s.readers[k]);
    }
    AtMostTwo(updates, s);
  }

  lemma InitInv(updates: seq<int>, at: nat, readers: nat)
    ensures Inv(updates, Init(at, readers))
  {
  }

  lemma RunInv(updates: seq<int>, at: nat, readers: nat, schedule: seq<Action>)
    requires Valid(Cell(true, updates), Init(at, readers), schedule)
    ensures Inv(updates, Final(Cell(true, updates), Init(at, readers), schedule))
  {
    var inv := s => Inv(updates, s);
    InitInv(updates, at, readers);
    forall s, a | inv(s) && Cell(true, updates)(s, a).Some? ensures inv(Cell(true, updates)(s, a).value) {
      StepKeepsInv(updates, s, a);
    }
    RunKeeps(Cell(true, updates), inv, Init(at, readers), schedule);
  }

  /** With the grace period, every run of any number of readers and updates is safe. */
  lemma GuardedSafe(updates: seq<int>, at: nat, readers: nat, schedule: seq<Action>)
    requires Valid(Cell(true, updates), Init(at, readers), schedule)
    ensures Safe(updates, Final(Cell(true, updates), Init(at, readers), schedule))
  {
    RunInv(updates, at, readers, schedule);
    InvSafe(updates, Final(Cell(true, updates), Init(at, readers), schedule));
  }

  // ----------------------------------------------------- what a read and an update do

  function With(s: State, k: nat, r: Reader): State
    requires k < |s.readers|
  {
    s.(readers := s.readers[k := r])
  }

  lemma ReaderMoves(guarded: bool, updates: seq<int>, s: State, k: nat, r: Reader, r': Reader)
    requires k < |s.readers| && ReaderStep(s, r) == Some(r')
    ensures Cell(guarded, updates)(With(s, k, r), R(k)) == Some(With(s, k, r'))
  {
    assert s.readers[k := r][k := r'] == s.readers[k := r'];
  }

  /** A read that nobody interrupts returns the record of the last published update. */
  lemma ReadAlone(guarded: bool, updates: seq<int>, s: State, k: nat)
    requires WriterOk(updates, s) && k < |s.readers| && s.readers[k].pc == Away
    ensures Valid(Cell(guarded, updates), s, [R(k), R(k), R(k)])
    ensures Final(Cell(guarded, updates), s, [R(k), R(k), R(k)])
         == s.(readers := s.readers[k := Reader(Away, s.readers[k].seen + [Version(updates, s.published)])])
  {
    var seen := s.readers[k].seen;
    var r1 := Reader(Holding(s.shared), seen);
    var r2 := Reader(HalfRead(s.shared, s.published), seen);
    var r3 := Reader(Away, seen + [Version(updates, s.published)]);
    assert s == With(s, k, s.readers[k]);
    ReaderMoves(guarded, updates, s, k, s.readers[k], r1);
    ReaderMoves(guarded, updates, s, k, r1, r2);
    ReaderMoves(guarded, updates, s, k, r2, r3);
    ThreeSteps(Cell(guarded, updates), s, R(k), With(s, k, r1), R(k), With(s, k, r2), R(k), With(s, k, r3));
  }

  /** An update that nobody interrupts publishes the next version at the address `malloc` gave and leaves
      only that record allocated; with the grace period it gets there if no reader holds the old one. */
  lemma UpdateAlone(guarded: bool, updates: seq<int>, s: State, addr: nat, junk: Data)
    requires WriterOk(updates, s) && s.writer == Resting && s.published < |updates| && addr !in s.heap
    requires guarded ==> Unheld(s, s.shared)
    ensures var schedule := [W, Malloc(addr, junk), W, W, W];
            && Valid(Cell(guarded, updates), s, schedule)
            && Final(Cell(guarded, updates), s, schedule)
            == s.(heap := map[addr := Version(updates, s.published + 1)], shared := addr, published := s.published + 1)
  {
    var m, malloc, was := Cell(guarded, updates), Malloc(addr, junk), s.shared;
    var s1 := s.(writer := Loaded(was));
    var s2 := s.(writer := Allocated(was, addr), heap := s.heap[addr := junk]);
    var s3 := s.(writer := FilledIn(was, addr), heap := s.heap[addr := Version(updates, s.published + 1)]);
    assert s2.heap[addr := Version(updates, s.published + 1)] == s3.heap;
    var s4 := s3.(writer := Grace(was), shared := addr, published := s.published + 1);
    var s5 := s4.(writer := Resting, heap := map[addr := Version(updates, s.published + 1)]);
    assert s4.heap - {was} == s5.heap;
    FiveSteps(m, s, W, s1, malloc, s2, W, s3, W, s4, W, s5);
  }

  /** Readers never wait; the writer waits only in its grace period, exactly while a reader that loaded the
      old pointer is between that load and its second read. */
  lemma WaitsExact(updates: seq<int>, s: State, k: nat)
    requires Inv(updates, s) && k < |s.readers|
    ensures Cell(true, updates)(s, R(k)).Some?
    ensures s.writer.Grace? ==>
              (Cell(true, updates)(s, W).None? <==>
                exists j :: 0 <= j < |s.readers| && s.readers[j].pc != Away && s.readers[j].pc.p == s.writer.was)
    ensures s.writer.Resting? ==> (Cell(true, updates)(s, W).None? <==> s.published == |updates|)
    ensures s.writer.Allocated? || s.writer.FilledIn? ==> Cell(true, updates)(s, W).Some?
  {
    assert ReaderOk(updates, s, s.readers[k]);
  }

  /** Reader k's n-th read has got hold of version i, or has returned it. */
  ghost predicate Reading(updates: seq<int>, s: State, k: nat, n: nat, i: nat) {
    && k < |s.readers| && n <= |s.readers[k].seen|
    && (n < |s.readers[k].seen| ==> s.readers[k].seen[n] == Version(updates, i))
    && (n == |s.readers[k].seen| ==>
          && Held(s.readers[k].pc).Some? && Held(s.readers[k].pc).value in s.heap
          && s.heap[Held(s.readers[k].pc).value] == Version(updates, i))
  }

  lemma StepKeepsReading(updates: seq<int>, s: State, a: Action, k: nat, n: nat, i: nat)
    requires Inv(updates, s) && Reading(updates, s, k, n, i) && Step(true, updates, s, a).Some?
    ensures Reading(updates, Step(true, updates, s, a).value, k, n, i)
  {
    assert ReaderOk(updates, s, s.readers[k]);
  }

  lemma LoadReads(updates: seq<int>, s: State, k: nat)
    requires Inv(updates, s) && k < |s.readers| && s.readers[k].pc == Away
    ensures Step(true, updates, s, R(k)).Some?
    ensures Reading(updates, Step(true, updates, s, R(k)).value, k, |s.readers[k].seen|, s.published)
  {
  }

  /** However long a read takes and whatever happens meanwhile, it returns the record that was current when
      it loaded the pointer. */
  lemma ReadIsCurrent(updates: seq<int>, at: nat, readers: nat, first: seq<Action>, k: nat, second: seq<Action>)
    requires Valid(Cell(true, updates), Init(at, readers), first)
    requires var s1 := Final(Cell(true, updates), Init(at, readers), first);
             && k < |s1.readers| && s1.readers[k].pc == Away
             && Valid(Cell(true, updates), s1, [R(k)] + second)
    ensures var s1 := Final(Cell(true, updates), Init(at, readers), first);
            var s2 := Final(Cell(true, updates), s1, [R(k)] + second);
            var n := |s1.readers[k].seen|;
            k < |s2.readers| && (n < |s2.readers[k].seen| ==> s2.readers[k].seen[n] == Version(updates, s1.published))
  {
    RunInv(updates, at, readers, first);
    var m, s1 := Cell(true, updates), Final(Cell(true, updates), Init(at, readers), first);
    var n, i := |s1.readers[k].seen|, s1.published;
    LoadReads(updates, s1, k);
    StepKeepsInv(updates, s1, R(k));
    var inv := s => Inv(updates, s) && Reading(updates, s, k, n, i);
    forall s, a | inv(s) && m(s, a).Some? ensures inv(m(s, a).value) {
      StepKeepsInv(updates, s, a);
      StepKeepsReading(updates, s, a, k, n, i);
    }
    assert ([R(k)] + second)[1..] == second;
    RunKeeps(m, inv, Step(true, updates, s1, R(k)).value, second);
  }

  /** Reader k's n-th read has not begun, or got hold of version i or a later one. */
  ghost predicate NotStale(s: State, k: nat, n: nat, i: nat) {
    && i <= s.published && k < |s.readers| && n <= |s.readers[k].seen|
    && (n < |s.readers[k].seen| ==> i <= s.readers[k].seen[n].version)
    && (n == |s.readers[k].seen| && Held(s.readers[k].pc).Some? ==>
          Held(s.readers[k].pc).value in s.heap && i <= s.heap[Held(s.readers[k].pc).value].version)
  }

  lemma StepKeepsNotStale(updates: seq<int>, s: State, a: Action, k: nat, n: nat, i: nat)
    requires Inv(updates, s) && NotStale(s, k, n, i) && Step(true, updates, s, a).Some?
    ensures NotStale(Step(true, updates, s, a).value, k, n, i)
  {
    assert ReaderOk(updates, s, s.readers[k]);
  }

  /** A read that begins after i updates were published never returns an older record. */
  lemma ReadNotStale(updates: seq<int>, at: nat, readers: nat, first: seq<Action>, k: nat, second: seq<Action>)
    requires Valid(Cell(true, updates), Init(at, readers), first)
    requires var s1 := Final(Cell(true, updates), Init(at, readers), first);
             && k < |s1.readers| && s1.readers[k].pc == Away && Valid(Cell(true, updates), s1, second)
    ensures var s1 := Final(Cell(true, updates), Init(at, readers), first);
            var s2 := Final(Cell(true, updates), s1, second);
            var n := |s1.readers[k].seen|;
            k < |s2.readers| && (n < |s2.readers[k].seen| ==> s1.published <= s2.readers[k].seen[n].version <= s2.published)
  {
    RunInv(updates, at, readers, first);
    var m, s1 := Cell(true, updates), Final(Cell(true, updates), Init(at, readers), first);
    var n, i := |s1.readers[k].seen|, s1.published;
    var inv := s => Inv(updates, s) && NotStale(s, k, n, i);
    forall s, a | inv(s) && m(s, a).Some? ensures inv(m(s, a).value) {
      StepKeepsInv(updates, s, a);
      StepKeepsNotStale(updates, s, a, k, n, i);
    }
    RunKeeps(m, inv, s1, second);
    InvSafe(updates, Final(m, s1, second));
  }

  // ------------------------------------------- when the fixed sleep is enough

  ghost predicate AlwaysSafe(updates: seq<int>, readers: nat) {
    forall at, schedule :: Valid(Cell(false, updates), Init(at, readers), schedule) ==>
      Safe(updates, Final(Cell(false, updates), Init(at, readers), schedule))
  }

  lemma {:induction false} UnguardedIsGuarded(updates: seq<int>, s: State, schedule: seq<Action>)
    requires Inv(updates, s) && Valid(Cell(false, updates), s, schedule)
    requires s.readers == [] || (updates == [] && s.writer == Resting)
    ensures Valid(Cell(true, updates), s, schedule)
    ensures Final(Cell(true, updates), s, schedule) == Final(Cell(false, updates), s, schedule)
    decreases |schedule|
  {
    if schedule != [] {
      var a := schedule[0];
      assert Step(true, updates, s, a) == Step(false, updates, s, a);
      StepKeepsInv(updates, s, a);
      UnguardedIsGuarded(updates, Step(true, updates, s, a).value, schedule[1..]);
    }
  }

  /** The reader loads the pointer, then a whole update goes by, free included. */
  lemma FreedUnderReader(updates: seq<int>, readers: nat) returns (schedule: seq<Action>)
    requires updates != [] && readers > 0
    ensures Valid(Cell(false, updates), Init(1, readers), schedule)
    ensures Faulty(Final(Cell(false, updates), Init(1, readers), schedule))
  {
    var m, s0 := Cell(false, updates), Init(1, readers);
    var malloc := Malloc(2, Data(0, 0));
    var s1 := Step(false, updates, s0, R(0)).value;
    var s2 := Step(false, updates, s1, W).value;
    var s3 := Step(false, updates, s2, malloc).value;
    var s4 := Step(false, updates, s3, W).value;
    var s5 := Step(false, updates, s4, W).value;
    var s6 := Step(false, updates, s5, W).value;
    assert Held(s6.readers[0].pc) == Some(1) && 1 !in s6.heap;
    Cons(m, s5, W, []);
    Cons(m, s4, W, [W]);
    Cons(m, s3, W, [W, W]);
    Cons(m, s2, malloc, [W, W, W]);
    Cons(m, s1, W, [malloc, W, W, W]);
    Cons(m, s0, R(0), [W, malloc, W, W, W]);
    schedule := [R(0), W, malloc, W, W, W];
  }

  /** Freeing after a fixed time instead of a grace period is safe in every run exactly when there
      are no readers or no updates. */
  lemma SleepExact(updates: seq<int>, readers: nat)
    ensures AlwaysSafe(updates, readers) <==> readers == 0 || updates == []
  {
    if readers == 0 || updates == [] {
      forall at, schedule | Valid(Cell(false, updates), Init(at, readers), schedule)
        ensures Safe(updates, Final(Cell(false, updates), Init(at, readers), schedule))
      {
        InitInv(updates, at, readers);
        UnguardedIsGuarded(updates, Init(at, readers), schedule);
        GuardedSafe(updates, at, readers, schedule);
      }
    } else {
      var schedule := FreedUnderReader(updates, readers);
      assert !Safe(updates, Final(Cell(false, updates), Init(1, readers), schedule));
    }
  }

  // ------------------------------------------------------- one thread at a time

  class Record {
    var version: int
    var value: int

    constructor (version: int, value: int)
      ensures this.version == version && this.value == value
    {
      this.version, this.value := version, value;
    }
  }

  /** `global_data`, with the records that are allocated. */
  class Shared {
    var global: Record
    ghost var live: set<Record>
    ghost var updates: seq<int>

    /** The published record is the only one, and it is the one the updates so far lead to. */
    ghost predicate Valid()
      reads this, global
    {
      live == {global} && Data(global.version, global.value) == Version(updates, |updates|)
    }

    constructor ()
      ensures Valid() && updates == [] && fresh(global)
    {
      global := new Record(0, 0);
      live := {global};
      updates := [];
    }

    /** `rcu_read` */
    method Read() returns (d: Data)
      requires Valid()
      ensures d == Version(updates, |updates|)
    {
      var p := global;
      d := Data(p.version, p.value);
    }

    /** `rcu_update`: the old record is left as it was, so that a reader still sees it whole, and goes. */
    method Update(newValue: int)
      requires Valid()
      modifies this
      ensures Valid() && updates == old(updates) + [newValue]
      ensures fresh(global) && old(global) !in live
    {
      var was := global;
      var newer := new Record(was.version + 1, newValue);
      live := live + {newer};
      global := newer;
      live := live - {was};
      updates := updates + [newValue];
    }
  }

  /** `main`: a read before the first and after every update sees exactly the versions in turn. */
  method ReadBetweenUpdates(updates: seq<int>) returns (seen: seq<Data>)
    ensures seen == seq(|updates| + 1, i => Version(updates, i))
  {
    var shared := new Shared();
    var d := shared.Read();
    seen := [d];
    for i := 0 to |updates|
      invariant shared.Valid() && fresh(shared)
      invariant shared.updates == updates[..i]
      invariant seen == seq(i + 1, j => Version(updates, j))
    {
      shared.Update(updates[i]);
      d := shared.Read();
      assert d == Version(updates, i + 1);
      seen := seen + [d];
    }
  }
}
