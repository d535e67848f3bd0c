/** labs/lab_20_finegrained_lock.c: T threads each increment bucket i % B for i = 0..N-1, under one
    global lock, one lock per bucket, or any other assignment of locks to buckets. */
module BucketLocks {
  import opened Runs
  import opened Arithmetic
  import opened Sums

  datatype Pc = Acquire | Load | Store(v: int) | Release

  /** A worker at iteration i of its loop. */
  datatype Worker = Worker(i: nat, pc: Pc)

  /** `owner` maps each lock that is held to the thread holding it. */
  datatype State = State(table: seq<int>, owner: map<nat, nat>, workers: seq<Worker>)

  /** N items per thread; bucket b is protected by lock lockOf[b]. */
  datatype Config = Config(n: nat, lockOf: seq<nat>)

  function Coarse(n: nat, buckets: nat): Config { Config(n, seq(buckets, _ => 0)) }

  function Fine(n: nat, buckets: nat): Config { Config(n, seq(buckets, b => b)) }

  function Init(c: Config, threads: nat): State {
    State(seq(|c.lockOf|, _ => 0), map[], seq(threads, _ => Worker(0, Acquire)))
  }

  function Bucket(c: Config, i: nat): (b: nat)
    requires |c.lockOf| > 0
    ensures b < |c.lockOf|
  {
    i % |c.lockOf|
  }

  function LockFor(c: Config, w: Worker): nat
    requires |c.lockOf| > 0
  {
    c.lockOf[Bucket(c, w.i)]
  }

  /** Thread t's next step: lock, load the bucket, store it plus one, unlock. */
  function Step(c: Config, s: State, t: nat): (r: Option<State>)
    requires |c.lockOf| > 0
    ensures r.Some? ==> t < |s.workers| == |r.value.workers| && r.value.workers == s.workers[t := r.value.workers[t]]
  {
    if t >= |s.workers| || s.workers[t].i >= c.n || |s.table| != |c.lockOf| then None
    else
      var w := s.workers[t];
      var b, lock := Bucket(c, w.i), LockFor(c, w);
      match w.pc
      case Acquire =>
        if lock in s.owner then None
        else Some(s.(owner := s.owner[lock := t], workers := s.workers[t := w.(pc := Load)]))
      case Load => Some(s.(workers := s.workers[t := w.(pc := Store(s.table[b]))]))
      case Store(v) => Some(s.(table := s.table[b := v + 1], workers := s.workers[t := w.(pc := Release)]))
      case Release => Some(s.(owner := s.owner - {lock}, workers := s.workers[t := Worker(w.i + 1, Acquire)]))
  }

  function Table(c: Config): Machine<State, nat>
    requires |c.lockOf| > 0
  {
    (s, t: nat) => Step(c, s, t)
  }

  ghost predicate Finished(c: Config, s: State) {
    forall t :: 0 <= t < |s.workers| ==> s.workers[t].i == c.n
  }

  // ----------------------------------------------------------- specification

  /** How many of 0..k-1 fall into bucket b. */
  function Hits(buckets: nat, b: nat, k: nat): nat
    requires buckets > 0
  {
    if k == 0 then 0 else Hits(buckets, b, k - 1) + if (k - 1) % buckets == b then 1 else 0
  }

  /** Quotient and remainder of the number before. */
  lemma DivModBefore(k: nat, d: nat, q: nat, r: nat) returns (q': nat, r': nat)
    requires r < d && 0 < k == q * d + r
    ensures r' < d && k - 1 == q' * d + r' && (k - 1) % d == r'
    ensures if r > 0 then q' == q && r' == r - 1 else q' == q - 1 && r' == d - 1
  {
    if r > 0 {
      q', r' := q, r - 1;
    } else {
      MulMonotone(q, 0, d);
      q', r' := q - 1, d - 1;
      assert q * d == q' * d + d;
    }
    DivModUnique(k - 1, d, q', r');
  }

  lemma HitsNext(buckets: nat, b: nat, k: nat, r: nat)
    requires 0 < buckets && 0 < k && (k - 1) % buckets == r
    ensures Hits(buckets, b, k) == Hits(buckets, b, k - 1) + if r == b then 1 else 0
  {
  }

  lemma {:induction false} HitsForm(buckets: nat, b: nat, k: nat, q: nat, r: nat)
    requires b < buckets && r < buckets && k == q * buckets + r
    ensures Hits(buckets, b, k) == q + if b < r then 1 else 0
    decreases k
  {
    if k == 0 {
      MulMonotone(1, q, buckets);
    } else {
      var q', r' := DivModBefore(k, buckets, q, r);
      HitsForm(buckets, b, k - 1, q', r');
      HitsNext(buckets, b, k, r');
    }
  }

  /** Each bucket gets its share, and the first N % B of them one more. */
  lemma HitsIs(buckets: nat, b: nat, k: nat)
    requires b < buckets
    ensures Hits(buckets, b, k) == k / buckets + if b < k % buckets then 1 else 0
  {
    HitsForm(buckets, b, k, k / buckets, k % buckets);
  }

  /** Iterations whose increment is in the table. */
  function Stored(w: Worker): nat { if w.pc == Release then w.i + 1 else w.i }

  function Share(buckets: nat, b: nat): Worker -> int
    requires buckets > 0
  {
    (w: Worker) => Hits(buckets, b, Stored(w))
  }

  predicate Inside(pc: Pc) { pc != Acquire }

  ghost predicate WorkerOk(c: Config, s: State, t: nat)
    requires |c.lockOf| > 0 && t < |s.workers| && |s.table| == |c.lockOf|
  {
    var w := s.workers[t];
    && w.i <= c.n && (Inside(w.pc) ==> w.i < c.n)
    && (Inside(w.pc) ==> LockFor(c, w) in s.owner && s.owner[LockFor(c, w)] == t)
    && (w.pc.Store? ==> w.pc.v == s.table[Bucket(c, w.i)])
  }

  /** The lock's holder is a thread inside the section that lock protects. */
  ghost predicate OwnersInside(c: Config, s: State)
    requires |c.lockOf| > 0
  {
    forall l :: l in s.owner ==>
      s.owner[l] < |s.workers| && Inside(s.workers[s.owner[l]].pc) && LockFor(c, s.workers[s.owner[l]]) == l
  }

  /** No increment is lost. */
  ghost predicate Inv(c: Config, s: State)
    requires |c.lockOf| > 0
  {
    && |s.table| == |c.lockOf|
    && (forall t :: 0 <= t < |s.workers| ==> WorkerOk(c, s, t))
    && OwnersInside(c, s)
    && forall b :: 0 <= b < |s.table| ==> s.table[b] == Sum(Share(|c.lockOf|, b), s.workers)
  }

  lemma StepKeepsWorker(c: Config, s: State, t: nat, u: nat)
    requires |c.lockOf| > 0 && Inv(c, s) && Step(c, s, t).Some? && u < |s.workers|
    ensures |Step(c, s, t).value.table| == |s.table| && WorkerOk(c, Step(c, s, t).value, u)
  {
    assert WorkerOk(c, s, t) && WorkerOk(c, s, u);
  }

  lemma StepKeepsOwners(c: Config, s: State, t: nat)
    requires |c.lockOf| > 0 && Inv(c, s) && Step(c, s, t).Some?
    ensures OwnersInside(c, Step(c, s, t).value)
  {
    assert WorkerOk(c, s, t);
  }

  lemma StepKeepsTable(c: Config, s: State, t: nat, b: nat)
    requires |c.lockOf| > 0 && Inv(c, s) && Step(c, s, t).Some? && b < |s.table|
    ensures var s' := Step(c, s, t).value;
            |s'.table| == |s.table| && s'.table[b] == Sum(Share(|c.lockOf|, b), s'.workers)
  {
    assert WorkerOk(c, s, t);
    SumUpdate(Share(|c.lockOf|, b), s.workers, t, Step(c, s, t).value.workers[t]);
  }

  lemma StepKeepsInv(c: Config, s: State, t: nat)
    requires |c.lockOf| > 0 && Inv(c, s) && Step(c, s, t).Some?
    ensures Inv(c, Step(c, s, t).value)
  {
    StepKeepsOwners(c, s, t);
    StepKeepsWorker(c, s, t, t);
    forall u | 0 <= u < |s.workers| ensures WorkerOk(c, Step(c, s, t).value, u) {
      StepKeepsWorker(c, s, t, u);
    }
    forall b | 0 <= b < |s.table| ensures Step(c, s, t).value.table[b] == Sum(Share(|c.lockOf|, b), Step(c, s, t).value.workers) {
      StepKeepsTable(c, s, t, b);
    }
  }

  lemma RunInv(c: Config, threads: nat, schedule: seq<nat>)
    requires |c.lockOf| > 0 && Valid(Table(c), Init(c, threads), schedule)
    ensures var s := Final(Table(c), Init(c, threads), schedule); Inv(c, s) && |s.workers| == threads
  {
    var inv := s => Inv(c, s) && |s.workers| == threads;
    var s0 := Init(c, threads);
    forall b | 0 <= b < |s0.table| ensures s0.table[b] == Sum(Share(|c.lockOf|, b), s0.workers) {
      SumWithin(Share(|c.lockOf|, b), s0.workers, 0, 0);
    }
    forall s, t: nat | inv(s) && Table(c)(s, t).Some? ensures inv(Table(c)(s, t).value) {
      StepKeepsInv(c, s, t);
    }
    RunKeeps(Table(c), inv, s0, schedule);
  }

  // ----------------------------------------------------------- who waits for whom

  /** Some thread is inside the section of a bucket that has the given lock. */
  ghost predicate Holds(c: Config, s: State, u: nat, lock: nat)
    requires |c.lockOf| > 0
  {
    u < |s.workers| && Inside(s.workers[u].pc) && LockFor(c, s.workers[u]) == lock
  }

  lemma BlockedExact(c: Config, s: State, t: nat)
    requires |c.lockOf| > 0 && Inv(c, s) && t < |s.workers| && s.workers[t].pc == Acquire && s.workers[t].i < c.n
    ensures Step(c, s, t).None? <==> exists u :: Holds(c, s, u, LockFor(c, s.workers[t]))
  {
    var lock := LockFor(c, s.workers[t]);
    if lock in s.owner {
      assert Holds(c, s, s.owner[lock], lock);
    }
    forall u | Holds(c, s, u, lock) ensures lock in s.owner {
      assert WorkerOk(c, s, u);
    }
  }

  /** With one lock per bucket a thread waits exactly while another is at the same bucket. */
  lemma FineBlocks(n: nat, buckets: nat, s: State, t: nat)
    requires buckets > 0 && Inv(Fine(n, buckets), s)
    requires t < |s.workers| && s.workers[t].pc == Acquire && s.workers[t].i < n
    ensures Table(Fine(n, buckets))(s, t).None?
       <==> exists u :: 0 <= u < |s.workers| && s.workers[u].pc != Acquire && s.workers[u].i % buckets == s.workers[t].i % buckets
  {
    var c := Fine(n, buckets);
    BlockedExact(c, s, t);
    forall u: nat | u < |s.workers|
      ensures Holds(c, s, u, LockFor(c, s.workers[t])) <==>
              s.workers[u].pc != Acquire && s.workers[u].i % buckets == s.workers[t].i % buckets
    {
    }
  }

  /** With one global lock it waits exactly while any other is at any bucket. */
  lemma CoarseBlocks(n: nat, buckets: nat, s: State, t: nat)
    requires buckets > 0 && Inv(Coarse(n, buckets), s)
    requires t < |s.workers| && s.workers[t].pc == Acquire && s.workers[t].i < n
    ensures Table(Coarse(n, buckets))(s, t).None? <==> exists u :: 0 <= u < |s.workers| && s.workers[u].pc != Acquire
  {
    var c := Coarse(n, buckets);
    BlockedExact(c, s, t);
    forall u: nat | u < |s.workers| ensures Holds(c, s, u, LockFor(c, s.workers[t])) <==> s.workers[u].pc != Acquire {
    }
  }

  lemma ItemSteps(c: Config, s: State, t: nat, b: nat, lock: nat)
    requires |c.lockOf| > 0 && |s.table| == |c.lockOf| && t < |s.workers| && s.workers[t].i < c.n
    requires s.workers[t].pc == Acquire && b == Bucket(c, s.workers[t].i) && lock == c.lockOf[b] && lock !in s.owner
    ensures Valid(Table(c), s, [t, t, t, t])
    ensures Final(Table(c), s, [t, t, t, t])
         == s.(table := s.table[b := s.table[b] + 1], workers := s.workers[t := Worker(s.workers[t].i + 1, Acquire)])
  {
    var i := s.workers[t].i;
    var s1 := s.(owner := s.owner[lock := t], workers := s.workers[t := Worker(i, Load)]);
    var s2 := s1.(workers := s.workers[t := Worker(i, Store(s.table[b]))]);
    var s3 := s2.(table := s.table[b := s.table[b] + 1], workers := s.workers[t := Worker(i, Release)]);
    var s4 := s3.(owner := s.owner, workers := s.workers[t := Worker(i + 1, Acquire)]);
    assert s1.workers[t := Worker(i, Store(s.table[b]))] == s2.workers;
    assert s2.workers[t := Worker(i, Release)] == s3.workers;
    assert s3.owner - {lock} == s.owner && s3.workers[t := Worker(i + 1, Acquire)] == s4.workers;
    FourSteps(Table(c), s, t, s1, t, s2, t, s3, t, s4);
  }

  /** A thread that does not have to wait adds one to its bucket in four steps, and gives the lock back. */
  lemma OneItem(c: Config, s: State, t: nat)
    requires |c.lockOf| > 0 && Inv(c, s) && t < |s.workers| && s.workers[t].pc == Acquire && Table(c)(s, t).Some?
    ensures var i, b := s.workers[t].i, s.workers[t].i % |s.table|;
            && Valid(Table(c), s, [t, t, t, t])
            && Final(Table(c), s, [t, t, t, t])
            == s.(table := s.table[b := s.table[b] + 1], workers := s.workers[t := Worker(i + 1, Acquire)])
  {
    ItemSteps(c, s, t, s.workers[t].i % |s.table|, LockFor(c, s.workers[t]));
  }

  // -------------------------------------------------------------- the results

  /** The table every complete run ends with. */
  function Expected(threads: nat, n: nat, buckets: nat): seq<int>
    requires buckets > 0
  {
    seq(buckets, b requires 0 <= b < buckets => threads * (n / buckets + if b < n % buckets then 1 else 0))
  }

  /** Whatever locks protect the buckets and however the threads interleave, a finished run leaves
      the same table: in particular the coarse and the fine one are equal. */
  lemma FinalTable(c: Config, threads: nat, schedule: seq<nat>)
    requires |c.lockOf| > 0 && Valid(Table(c), Init(c, threads), schedule)
    ensures var s := Final(Table(c), Init(c, threads), schedule);
            Finished(c, s) ==> s.table == Expected(threads, c.n, |c.lockOf|)
  {
    RunInv(c, threads, schedule);
    var s := Final(Table(c), Init(c, threads), schedule);
    if Finished(c, s) {
      forall b | 0 <= b < |s.table| ensures s.table[b] == Expected(threads, c.n, |c.lockOf|)[b] {
        HitsIs(|c.lockOf|, b, c.n);
        forall t | 0 <= t < |s.workers| ensures Share(|c.lockOf|, b)(s.workers[t]) == Hits(|c.lockOf|, b, c.n) {
          assert WorkerOk(c, s, t);
        }
        var h := Hits(|c.lockOf|, b, c.n);
        SumWithin(Share(|c.lockOf|, b), s.workers, h, h);
        assert h * threads == threads * h;
      }
    }
  }

  lemma HolderMoves(c: Config, s: State, l: nat)
    requires |c.lockOf| > 0 && Inv(c, s) && l in s.owner
    ensures Table(c)(s, s.owner[l]).Some?
  {
    assert WorkerOk(c, s, s.owner[l]);
  }

  /** Nobody waits forever: a thread waits only while it holds nothing, so if no thread can move
      all have finished. */
  lemma NoDeadlock(c: Config, s: State)
    requires |c.lockOf| > 0 && Inv(c, s)
    ensures Stuck(Table(c), s) ==> Finished(c, s)
  {
    forall l | l in s.owner ensures !Stuck(Table(c), s) {
      HolderMoves(c, s, l);
    }
    if Stuck(Table(c), s) {
      forall t | 0 <= t < |s.workers| ensures s.workers[t].i == c.n {
        assert WorkerOk(c, s, t);
        assert Table(c)(s, t).None?;
      }
    }
  }

  function Progress(pc: Pc): int {
    match pc case Acquire => 0 case Load => 1 case Store(_) => 2 case Release => 3
  }

  function Cost(n: nat): Worker -> int { (w: Worker) => 4 * (n - w.i) - Progress(w.pc) }

  function Work(c: Config, s: State): int { Sum(Cost(c.n), s.workers) }

  lemma StepWorks(c: Config, s: State, t: nat)
    requires |c.lockOf| > 0 && Step(c, s, t).Some?
    ensures Work(c, Step(c, s, t).value) == Work(c, s) - 1
  {
    SumUpdate(Cost(c.n), s.workers, t, Step(c, s, t).value.workers[t]);
  }

  lemma {:induction false} RunLength(c: Config, s: State, schedule: seq<nat>)
    requires |c.lockOf| > 0 && Valid(Table(c), s, schedule)
    ensures |schedule| == Work(c, s) - Work(c, Final(Table(c), s, schedule))
    decreases |schedule|
  {
    if schedule != [] {
      StepWorks(c, s, schedule[0]);
      RunLength(c, Step(c, s, schedule[0]).value, schedule[1..]);
    }
  }

  lemma RunsAreBounded(c: Config, threads: nat, schedule: seq<nat>)
    requires |c.lockOf| > 0 && Valid(Table(c), Init(c, threads), schedule)
    ensures |schedule| <= 4 * c.n * threads
  {
    var s := Final(Table(c), Init(c, threads), schedule);
    RunInv(c, threads, schedule);
    RunLength(c, Init(c, threads), schedule);
    SumWithin(Cost(c.n), Init(c, threads).workers, 4 * c.n, 4 * c.n);
    forall t | 0 <= t < |s.workers| ensures Cost(c.n)(s.workers[t]) >= 0 {
      assert WorkerOk(c, s, t);
    }
    SumWithinNat(Cost(c.n), s.workers);
  }

  /** Every run has at most 4 steps per item and thread, and one that cannot go on has finished, with
      the expected table. */
  lemma EveryRunCompletes(c: Config, threads: nat, schedule: seq<nat>)
    requires |c.lockOf| > 0 && Valid(Table(c), Init(c, threads), schedule)
    ensures |schedule| <= 4 * c.n * threads
    ensures var s := Final(Table(c), Init(c, threads), schedule);
            Stuck(Table(c), s) ==> s.table == Expected(threads, c.n, |c.lockOf|)
  {
    RunsAreBounded(c, threads, schedule);
    RunInv(c, threads, schedule);
    NoDeadlock(c, Final(Table(c), Init(c, threads), schedule));
    FinalTable(c, threads, schedule);
  }

  /** The two phases of the lab end with the same table. */
  lemma CoarseEqualsFine(n: nat, buckets: nat, threads: nat, coarse: seq<nat>, fine: seq<nat>)
    requires buckets > 0
    requires Valid(Table(Coarse(n, buckets)), Init(Coarse(n, buckets), threads), coarse)
    requires Valid(Table(Fine(n, buckets)), Init(Fine(n, buckets), threads), fine)
    requires Stuck(Table(Coarse(n, buckets)), Final(Table(Coarse(n, buckets)), Init(Coarse(n, buckets), threads), coarse))
    requires Stuck(Table(Fine(n, buckets)), Final(Table(Fine(n, buckets)), Init(Fine(n, buckets), threads), fine))
    ensures Final(Table(Coarse(n, buckets)), Init(Coarse(n, buckets), threads), coarse).table
         == Final(Table(Fine(n, buckets)), Init(Fine(n, buckets), threads), fine).table
  {
    EveryRunCompletes(Coarse(n, buckets), threads, coarse);
    EveryRunCompletes(Fine(n, buckets), threads, fine);
  }

  function Entry(v: int): int { v }

  /** k buckets that hold q per thread, and one more in each of the first r. */
  function Shares(threads: nat, q: nat, r: nat, k: nat): seq<int> {
    seq(k, b => threads * (q + if b < r then 1 else 0))
  }

  lemma AddShare(threads: nat, q: nat, r: nat, k: nat)
    ensures threads * (k * q + if k < r then k else r) + threads * (q + if k < r then 1 else 0)
         == threads * ((k + 1) * q + if k + 1 < r then k + 1 else r)
  {
    assert k * q + q == (k + 1) * q;
  }

  lemma {:induction false} SharesTotal(threads: nat, q: nat, r: nat, k: nat)
    ensures Sum(Entry, Shares(threads, q, r, k)) == threads * (k * q + if k < r then k else r)
  {
    if k > 0 {
      SharesTotal(threads, q, r, k - 1);
      var last := threads * (q + if k - 1 < r then 1 else 0);
      assert Shares(threads, q, r, k) == Shares(threads, q, r, k - 1) + [last];
      SumSnoc(Entry, Shares(threads, q, r, k - 1), last);
      AddShare(threads, q, r, k - 1);
    }
  }

  /** All increments together are T * N. */
  lemma ExpectedTotal(threads: nat, n: nat, buckets: nat)
    requires buckets > 0
    ensures Sum(Entry, Expected(threads, n, buckets)) == threads * n
  {
    var q, r := n / buckets, n % buckets;
    assert Expected(threads, n, buckets) == Shares(threads, q, r, buckets);
    SharesTotal(threads, q, r, buckets);
    assert n == buckets * q + r;
  }

  /** One worker's loop on the table itself. */
  method CountItems(table: array<int>, n: nat)
    requires table.Length > 0
    modifies table
    ensures forall b :: 0 <= b < table.Length ==>
              table[b] == old(table[b]) + n / table.Length + if b < n % table.Length then 1 else 0
  {
    for i := 0 to n
      invariant forall b :: 0 <= b < table.Length ==> table[b] == old(table[b]) + Hits(table.Length, b, i)
    {
      table[i % table.Length] := table[i % table.Length] + 1;
    }
    forall b | 0 <= b < table.Length
      ensures table[b] == old(table[b]) + n / table.Length + if b < n % table.Length then 1 else 0
    {
      HitsIs(table.Length, b, n);
    }
  }
}
