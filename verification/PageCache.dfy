/** labs/page_cache_models.c: a file is cut into one range per worker, each worker reads its range in
    chunks and adds up every 4096th byte it is given, and the sums are added up. */
module PageCache {
  import opened Arithmetic
  import opened Sums

  const BUF_SIZE: nat := 1048576
  const PAGE: nat := 4096
  const WORD: nat := 0x1_0000_0000_0000_0000

  type Byte = b: int | 0 <= b < 256

  // ------------------------------------------------------------- the ranges

  function Start(size: nat, workers: nat, w: nat): nat
    requires workers > 0
  {
    w * (size / workers)
  }

  function End(size: nat, workers: nat, w: nat): nat
    requires workers > 0
  {
    if w == workers - 1 then size else (w + 1) * (size / workers)
  }

  predicate InRange(size: nat, workers: nat, w: nat, x: nat)
    requires workers > 0
  {
    w < workers && Start(size, workers, w) <= x < End(size, workers, w)
  }

  /** Ranges follow one another without gaps, from 0 to the end of the file, and all have the same
      length except that the last also takes the remainder. */
  lemma RangesAdjacent(size: nat, workers: nat, w: nat)
    requires w < workers
    ensures Start(size, workers, 0) == 0 && End(size, workers, workers - 1) == size
    ensures w + 1 < workers ==> End(size, workers, w) == Start(size, workers, w + 1)
    ensures End(size, workers, w) - Start(size, workers, w)
         == size / workers + if w == workers - 1 then size % workers else 0
    ensures Start(size, workers, w) <= End(size, workers, w) <= size
  {
    var slice := size / workers;
    assert size == workers * slice + size % workers;
    assert (w + 1) * slice == w * slice + slice;
    MulMonotone(w + 1, workers, slice);
    assert w == workers - 1 ==> w * slice == workers * slice - slice;
  }

  lemma StartMonotone(size: nat, workers: nat, v: nat, w: nat)
    requires v < w < workers
    ensures End(size, workers, v) <= Start(size, workers, w)
  {
    MulMonotone(v + 1, w, size / workers);
  }

  lemma FindWorker(size: nat, workers: nat, x: nat, top: nat) returns (w: nat)
    requires top < workers && x < End(size, workers, top)
    ensures InRange(size, workers, w, x)
    decreases top
  {
    if Start(size, workers, top) <= x {
      w := top;
    } else {
      RangesAdjacent(size, workers, top - 1);
      w := FindWorker(size, workers, x, top - 1);
    }
  }

  /** The ranges partition the file: every offset belongs to exactly one worker, whatever the size
      and the number of workers. */
  lemma RangesPartition(size: nat, workers: nat, x: nat)
    requires workers > 0 && x < size
    ensures exists w: nat :: InRange(size, workers, w, x)
    ensures forall v: nat, w: nat :: InRange(size, workers, v, x) && InRange(size, workers, w, x) ==> v == w
  {
    var w := FindWorker(size, workers, x, workers - 1);
    forall v: nat, w: nat | InRange(size, workers, v, x) && InRange(size, workers, w, x) ensures v == w {
      if v < w {
        StartMonotone(size, workers, v, w);
      } else if w < v {
        StartMonotone(size, workers, w, v);
      }
    }
  }

  /** `p * thread_count + t` numbers the threads of all processes without gaps or repeats. */
  function GlobalId(threads: nat, p: nat, t: nat): nat { p * threads + t }

  lemma GlobalIdBijective(procs: nat, threads: nat, id: nat)
    requires id < procs * threads && threads > 0
    ensures id / threads < procs && id % threads < threads && GlobalId(threads, id / threads, id % threads) == id
    ensures forall p: nat, t: nat :: p < procs && t < threads && GlobalId(threads, p, t) == id ==> p == id / threads && t == id % threads
  {
    assert id == id / threads * threads + id % threads;
    if id / threads >= procs {
      MulMonotone(procs, id / threads, threads);
    }
    forall p: nat, t: nat | p < procs && t < threads && GlobalId(threads, p, t) == id
      ensures p == id / threads && t == id % threads
    {
      DivModUnique(id, threads, p, t);
    }
  }

  lemma GlobalIdInRange(procs: nat, threads: nat, p: nat, t: nat)
    requires p < procs && t < threads
    ensures GlobalId(threads, p, t) < procs * threads
  {
    MulMonotone(p + 1, procs, threads);
    assert (p + 1) * threads == p * threads + threads;
  }

  // ------------------------------------------------------------ what is summed

  /** One read of n bytes at pos: the inner loop adds the first byte and every 4096th after it. */
  function ReadSum(file: seq<Byte>, pos: nat, n: nat): nat
    requires pos + n <= |file|
    decreases n
  {
    if n == 0 then 0
    else if n <= PAGE then file[pos]
    else file[pos] + ReadSum(file, pos + PAGE, n - PAGE)
  }

  function Length(plan: seq<nat>): nat {
    if plan == [] then 0 else plan[0] + Length(plan[1..])
  }

  /** The reads of a range, one after another from pos on; plan lists how many bytes each returned. */
  function PlanSum(file: seq<Byte>, pos: nat, plan: seq<nat>): nat
    requires pos + Length(plan) <= |file|
    decreases |plan|
  {
    if plan == [] then 0 else ReadSum(file, pos, plan[0]) + PlanSum(file, pos + plan[0], plan[1..])
  }

  predicate Plan(plan: seq<nat>) {
    forall i :: 0 <= i < |plan| ==> 0 < plan[i] <= BUF_SIZE
  }

  /** The bytes from lo on, below hi, that are a multiple of 4096 away from base. */
  function Samples(file: seq<Byte>, base: nat, lo: nat, hi: nat): nat
    requires base <= lo && hi <= |file|
    decreases hi
  {
    if hi <= lo then 0
    else Samples(file, base, lo, hi - 1) + if (hi - 1 - base) % PAGE == 0 then file[hi - 1] else 0
  }

  /** The bytes at multiples of 4096 from lo on, below hi. */
  function Grid(file: seq<Byte>, lo: nat, hi: nat): nat
    requires hi <= |file|
  {
    Samples(file, 0, lo, hi)
  }

  lemma {:induction false} SamplesSplit(file: seq<Byte>, base: nat, lo: nat, mid: nat, hi: nat)
    requires base <= lo <= mid <= hi <= |file|
    ensures Samples(file, base, lo, hi) == Samples(file, base, lo, mid) + Samples(file, base, mid, hi)
    decreases hi
  {
    if mid < hi {
      SamplesSplit(file, base, lo, mid, hi - 1);
    }
  }

  /** A page that starts with a sample has no other. */
  lemma {:induction false} SamplesOfPage(file: seq<Byte>, base: nat, pos: nat, n: nat)
    requires base <= pos && (pos - base) % PAGE == 0 && 0 < n <= PAGE && pos + n <= |file|
    ensures Samples(file, base, pos, pos + n) == file[pos]
  {
    if n > 1 {
      SamplesOfPage(file, base, pos, n - 1);
    }
  }

  lemma SameRemainder(x: nat, y: nat)
    requires y <= x && y % PAGE == 0
    ensures (x - y) % PAGE == x % PAGE
  {
  }

  /** Bases a multiple of 4096 apart give the same samples. */
  lemma {:induction false} SamplesRebase(file: seq<Byte>, base: nat, base': nat, lo: nat, hi: nat)
    requires base <= base' <= lo && (base' - base) % PAGE == 0 && hi <= |file|
    ensures Samples(file, base, lo, hi) == Samples(file, base', lo, hi)
    decreases hi
  {
    if lo < hi {
      SamplesRebase(file, base, base', lo, hi - 1);
      SameRemainder(hi - 1 - base, base' - base);
    }
  }

  /** A read adds up its bytes a multiple of 4096 away from where it starts, wherever that is. */
  lemma {:induction false} ReadSumIsSamples(file: seq<Byte>, pos: nat, n: nat)
    requires pos + n <= |file|
    ensures ReadSum(file, pos, n) == Samples(file, pos, pos, pos + n)
    decreases n
  {
    if n > PAGE {
      ReadSumIsSamples(file, pos + PAGE, n - PAGE);
      SamplesRebase(file, pos, pos + PAGE, pos + PAGE, pos + n);
      SamplesOfPage(file, pos, pos, PAGE);
      SamplesSplit(file, pos, pos, pos + PAGE, pos + n);
    } else if n > 0 {
      SamplesOfPage(file, pos, pos, n);
    }
  }

  lemma ReadSumIsGrid(file: seq<Byte>, pos: nat, n: nat)
    requires pos % PAGE == 0 && pos + n <= |file|
    ensures ReadSum(file, pos, n) == Grid(file, pos, pos + n)
  {
    ReadSumIsSamples(file, pos, n);
    SamplesRebase(file, 0, pos, pos, pos + n);
  }

  /** Every read of the plan starts at a multiple of 4096. */
  predicate Aligned(pos: nat, plan: seq<nat>)
    decreases |plan|
  {
    plan == [] || (pos % PAGE == 0 && Aligned(pos + plan[0], plan[1..]))
  }

  lemma {:induction false} AlignedSum(file: seq<Byte>, pos: nat, plan: seq<nat>)
    requires Aligned(pos, plan) && pos + Length(plan) <= |file|
    ensures PlanSum(file, pos, plan) == Grid(file, pos, pos + Length(plan))
    decreases |plan|
  {
    if plan != [] {
      ReadSumIsGrid(file, pos, plan[0]);
      AlignedSum(file, pos + plan[0], plan[1..]);
      SamplesSplit(file, 0, pos, pos + plan[0], pos + Length(plan));
    }
  }

  // -------------------------------------------- alignment is exactly what it takes

  /** A file of zeros with a single one. */
  function Blip(size: nat, at: nat): seq<Byte> { seq(size, i => if i == at then 1 else 0) }

  lemma {:induction false} BlipOffGrid(size: nat, at: nat, lo: nat, hi: nat)
    requires at % PAGE != 0 && hi <= size
    ensures Grid(Blip(size, at), lo, hi) == 0
    decreases hi
  {
    if lo < hi {
      BlipOffGrid(size, at, lo, hi - 1);
    }
  }

  /** A plan that is not aligned samples some byte off the grid. */
  lemma {:induction false} MisalignedSeesBlip(size: nat, pos: nat, plan: seq<nat>) returns (at: nat)
    requires Plan(plan) && !Aligned(pos, plan) && pos + Length(plan) <= size
    ensures at % PAGE != 0 && PlanSum(Blip(size, at), pos, plan) > 0
    decreases |plan|
  {
    if pos % PAGE != 0 {
      at := pos;
    } else {
      at := MisalignedSeesBlip(size, pos + plan[0], plan[1..]);
    }
  }

  ghost predicate CountsGrid(size: nat, plan: seq<nat>)
    requires Length(plan) == size
  {
    forall file: seq<Byte> :: |file| == size ==> PlanSum(file, 0, plan) == Grid(file, 0, size)
  }

  /** A way of reading the file gives the sum of the bytes at multiples of 4096 for every file exactly
      when each of its reads starts at a multiple of 4096. */
  lemma ChecksumExact(size: nat, plan: seq<nat>)
    requires Plan(plan) && Length(plan) == size
    ensures CountsGrid(size, plan) <==> Aligned(0, plan)
  {
    if Aligned(0, plan) {
      forall file: seq<Byte> | |file| == size ensures PlanSum(file, 0, plan) == Grid(file, 0, size) {
        AlignedSum(file, 0, plan);
      }
    } else {
      var at := MisalignedSeesBlip(size, 0, plan);
      BlipOffGrid(size, at, 0, size);
      assert |Blip(size, at)| == size;
    }
  }

  // -------------------------------------------------------- all the workers

  /** Worker w reads exactly its range. */
  ghost predicate Covers(size: nat, workers: nat, plans: seq<seq<nat>>)
    requires workers > 0
  {
    && |plans| == workers
    && forall w :: 0 <= w < workers ==>
         Plan(plans[w]) && Length(plans[w]) == End(size, workers, w) - Start(size, workers, w)
  }

  /** The sum of worker w's reads. */
  ghost function WorkerSum(file: seq<Byte>, workers: nat, plans: seq<seq<nat>>, w: nat): nat
    requires w < workers && Covers(|file|, workers, plans)
  {
    RangesAdjacent(|file|, workers, w);
    PlanSum(file, Start(|file|, workers, w), plans[w])
  }

  /** The first k workers' sums, added up. */
  ghost function Total(file: seq<Byte>, workers: nat, plans: seq<seq<nat>>, k: nat): nat
    requires workers > 0 && Covers(|file|, workers, plans) && k <= workers
  {
    if k == 0 then 0 else Total(file, workers, plans, k - 1) + WorkerSum(file, workers, plans, k - 1)
  }

  function Flatten(plans: seq<seq<nat>>): seq<nat> {
    if plans == [] then [] else Flatten(plans[..|plans| - 1]) + plans[|plans| - 1]
  }

  lemma {:induction false} LengthConcat(a: seq<nat>, b: seq<nat>)
    ensures Length(a + b) == Length(a) + Length(b)
  {
    if a == [] {
      assert a + b == b;
    } else {
      assert (a + b)[1..] == a[1..] + b;
      LengthConcat(a[1..], b);
    }
  }

  lemma {:induction false} PlanSumConcat(file: seq<Byte>, pos: nat, a: seq<nat>, b: seq<nat>)
    requires pos + Length(a) + Length(b) <= |file|
    ensures Length(a + b) == Length(a) + Length(b)
    ensures PlanSum(file, pos, a + b) == PlanSum(file, pos, a) + PlanSum(file, pos + Length(a), b)
    decreases |a|
  {
    LengthConcat(a, b);
    if a == [] {
      assert a + b == b;
    } else {
      assert (a + b)[1..] == a[1..] + b;
      PlanSumConcat(file, pos + a[0], a[1..], b);
    }
  }

  lemma {:induction false} AlignedConcat(pos: nat, a: seq<nat>, b: seq<nat>)
    ensures Aligned(pos, a + b) <==> Aligned(pos, a) && Aligned(pos + Length(a), b)
    decreases |a|
  {
    if a == [] {
      assert a + b == b;
    } else {
      assert (a + b)[1..] == a[1..] + b;
      AlignedConcat(pos + a[0], a[1..], b);
    }
  }

  /** Up to where the first k workers get. */
  function Reached(size: nat, workers: nat, k: nat): nat
    requires workers > 0 && k <= workers
  {
    if k < workers then Start(size, workers, k) else size
  }

  lemma FlattenSnoc(plans: seq<seq<nat>>, k: nat)
    requires 0 < k <= |plans|
    ensures Flatten(plans[..k]) == Flatten(plans[..k - 1]) + plans[k - 1]
  {
    assert plans[..k][..k - 1] == plans[..k - 1];
  }

  lemma {:induction false} FlattenLength(size: nat, workers: nat, plans: seq<seq<nat>>, k: nat)
    requires workers > 0 && Covers(size, workers, plans) && k <= workers
    ensures Plan(Flatten(plans[..k])) && Length(Flatten(plans[..k])) == Reached(size, workers, k)
  {
    if k > 0 {
      FlattenLength(size, workers, plans, k - 1);
      RangesAdjacent(size, workers, k - 1);
      FlattenSnoc(plans, k);
      LengthConcat(Flatten(plans[..k - 1]), plans[k - 1]);
    }
  }

  lemma WorkerSumIs(file: seq<Byte>, workers: nat, plans: seq<seq<nat>>, w: nat, start: nat)
    requires w < workers && Covers(|file|, workers, plans) && start == Start(|file|, workers, w)
    ensures start + Length(plans[w]) <= |file| && WorkerSum(file, workers, plans, w) == PlanSum(file, start, plans[w])
  {
    RangesAdjacent(|file|, workers, w);
  }

  lemma AppendWorker(file: seq<Byte>, workers: nat, plans: seq<seq<nat>>, w: nat, before: seq<nat>)
    requires w < workers && Covers(|file|, workers, plans) && Length(before) == Start(|file|, workers, w)
    ensures Length(before) <= |file| && Length(before + plans[w]) <= |file|
    ensures PlanSum(file, 0, before + plans[w]) == PlanSum(file, 0, before) + WorkerSum(file, workers, plans, w)
  {
    WorkerSumIs(file, workers, plans, w, Length(before));
    PlanSumConcat(file, 0, before, plans[w]);
  }

  /** The workers together do what one worker would do that made all their reads. */
  lemma {:induction false} TotalIsOnePlan(file: seq<Byte>, workers: nat, plans: seq<seq<nat>>, k: nat)
    requires workers > 0 && Covers(|file|, workers, plans) && k <= workers
    ensures Length(Flatten(plans[..k])) <= |file|
    ensures Total(file, workers, plans, k) == PlanSum(file, 0, Flatten(plans[..k]))
  {
    if k > 0 {
      FlattenLength(|file|, workers, plans, k - 1);
      TotalIsOnePlan(file, workers, plans, k - 1);
      FlattenSnoc(plans, k);
      AppendWorker(file, workers, plans, k - 1, Flatten(plans[..k - 1]));
    }
  }

  /** Every read but the last of the range returns whole pages. */
  predicate WholePages(plan: seq<nat>) {
    forall i :: 0 <= i < |plan| - 1 ==> plan[i] % PAGE == 0
  }

  lemma {:induction false} WholePagesAligned(pos: nat, plan: seq<nat>)
    requires pos % PAGE == 0 && WholePages(plan)
    ensures Aligned(pos, plan)
    decreases |plan|
  {
    if |plan| > 1 {
      assert forall i :: 0 <= i < |plan[1..]| - 1 ==> plan[1..][i] == plan[i + 1];
      WholePagesAligned(pos + plan[0], plan[1..]);
    }
  }

  lemma MultipleOfPage(w: nat, slice: nat)
    requires slice % PAGE == 0
    ensures (w * slice) % PAGE == 0
  {
    var q := slice / PAGE;
    assert w * slice == PAGE * (w * q);
  }

  lemma {:induction false} SlicesAligned(size: nat, workers: nat, plans: seq<seq<nat>>, k: nat)
    requires workers > 0 && Covers(size, workers, plans) && k <= workers
    requires workers == 1 || (size / workers) % PAGE == 0
    requires forall w :: 0 <= w < workers ==> WholePages(plans[w])
    ensures Aligned(0, Flatten(plans[..k]))
  {
    if k > 0 {
      SlicesAligned(size, workers, plans, k - 1);
      FlattenLength(size, workers, plans, k - 1);
      assert plans[..k][..k - 1] == plans[..k - 1];
      if workers > 1 {
        MultipleOfPage(k - 1, size / workers);
      }
      WholePagesAligned(Start(size, workers, k - 1), plans[k - 1]);
      AlignedConcat(0, Flatten(plans[..k - 1]), plans[k - 1]);
    }
  }

  /** Mode independence: if the slice is a whole number of pages and short reads too, any number of
      workers, however grouped, total the bytes at multiples of 4096. */
  lemma ModeIndependent(file: seq<Byte>, workers: nat, plans: seq<seq<nat>>)
    requires workers > 0 && Covers(|file|, workers, plans)
    requires workers == 1 || (|file| / workers) % PAGE == 0
    requires forall w :: 0 <= w < workers ==> WholePages(plans[w])
    ensures Total(file, workers, plans, workers) == Grid(file, 0, |file|)
  {
    SlicesAligned(|file|, workers, plans, workers);
    TotalIsOnePlan(file, workers, plans, workers);
    FlattenLength(|file|, workers, plans, workers);
    AlignedSum(file, 0, Flatten(plans[..workers]));
  }

  // ------------------------------------------------- when reads are never short

  function FullReads(n: nat): seq<nat> {
    if n == 0 then [] else if n <= BUF_SIZE then [n] else [BUF_SIZE] + FullReads(n - BUF_SIZE)
  }

  lemma {:induction false} FullReadsPlan(n: nat)
    ensures Plan(FullReads(n)) && Length(FullReads(n)) == n && WholePages(FullReads(n))
    ensures n > 0 ==> FullReads(n) != []
    ensures forall i :: 0 <= i < |FullReads(n)| - 1 ==> FullReads(n)[i] == BUF_SIZE
  {
    if n > BUF_SIZE {
      FullReadsPlan(n - BUF_SIZE);
      assert FullReads(n)[1..] == FullReads(n - BUF_SIZE);
    }
  }

  function FullPlans(size: nat, workers: nat): seq<seq<nat>>
    requires workers > 0
  {
    seq(workers, w requires 0 <= w < workers =>
      RangesAdjacent(size, workers, w); FullReads(End(size, workers, w) - Start(size, workers, w)))
  }

  lemma FullPlansCover(size: nat, workers: nat)
    requires workers > 0
    ensures Covers(size, workers, FullPlans(size, workers))
    ensures forall w :: 0 <= w < workers ==> WholePages(FullPlans(size, workers)[w])
  {
    forall w | 0 <= w < workers
      ensures Plan(FullPlans(size, workers)[w]) && WholePages(FullPlans(size, workers)[w])
      ensures Length(FullPlans(size, workers)[w]) == End(size, workers, w) - Start(size, workers, w)
    {
      RangesAdjacent(size, workers, w);
      FullReadsPlan(End(size, workers, w) - Start(size, workers, w));
    }
  }

  /** What the workers total when every read returns all it is asked for. */
  ghost function FullChecksum(file: seq<Byte>, workers: nat): nat
    requires workers > 0
  {
    FullPlansCover(|file|, workers);
    Total(file, workers, FullPlans(|file|, workers), workers)
  }

  /** The same checksum as a single reader's, for every file of that size. */
  ghost predicate AgreesWithSingle(size: nat, workers: nat)
    requires workers > 0
  {
    forall file: seq<Byte> :: |file| == size ==> FullChecksum(file, workers) == FullChecksum(file, 1)
  }

  lemma {:induction false} FlattenTwo(plans: seq<seq<nat>>, k: nat) returns (rest: seq<nat>)
    requires 2 <= k <= |plans| && plans[1] != []
    ensures rest != [] && Flatten(plans[..k]) == plans[0] + rest
    decreases k
  {
    assert plans[..k][..k - 1] == plans[..k - 1];
    if k == 2 {
      rest := plans[1];
      assert plans[..1][..0] == plans[..0];
      assert Flatten(plans[..1]) == Flatten(plans[..0]) + plans[0] == plans[0];
    } else {
      rest := FlattenTwo(plans, k - 1);
      rest := rest + plans[k - 1];
    }
  }

  lemma SecondWorkerMisaligned(size: nat, workers: nat)
    requires workers > 1 && (size / workers) % PAGE != 0
    ensures !Aligned(0, Flatten(FullPlans(size, workers)[..workers]))
  {
    var plans := FullPlans(size, workers);
    FullPlansCover(size, workers);
    RangesAdjacent(size, workers, 0);
    RangesAdjacent(size, workers, 1);
    FullReadsPlan(End(size, workers, 1) - Start(size, workers, 1));
    var rest := FlattenTwo(plans, workers);
    AlignedConcat(0, plans[0], rest);
  }

  /** With full reads, the modes agree with the single mode on every file of a given size exactly when
      there is one worker or the slice is a multiple of 4096. */
  lemma ModesAgreeExact(size: nat, workers: nat)
    requires workers > 0
    ensures AgreesWithSingle(size, workers) <==> workers == 1 || (size / workers) % PAGE == 0
  {
    var plans := FullPlans(size, workers);
    FullPlansCover(size, workers);
    FullPlansCover(size, 1);
    FlattenLength(size, workers, plans, workers);
    forall file: seq<Byte> | |file| == size
      ensures Total(file, 1, FullPlans(size, 1), 1) == Grid(file, 0, size)
      ensures Total(file, workers, plans, workers) == PlanSum(file, 0, Flatten(plans[..workers]))
    {
      ModeIndependent(file, 1, FullPlans(size, 1));
      TotalIsOnePlan(file, workers, plans, workers);
    }
    assert AgreesWithSingle(size, workers) <==> CountsGrid(size, Flatten(plans[..workers]));
    ChecksumExact(size, Flatten(plans[..workers]));
    if workers == 1 || (size / workers) % PAGE == 0 {
      SlicesAligned(size, workers, plans, workers);
    } else {
      SecondWorkerMisaligned(size, workers);
    }
  }

  // ---------------------------------------------------------- no wrap-around

  lemma OneMore(hi: nat)
    requires hi > 0
    ensures (hi + PAGE - 1) / PAGE == (hi - 1 + PAGE - 1) / PAGE + if (hi - 1) % PAGE == 0 then 1 else 0
  {
  }

  lemma {:induction false} GridBound(file: seq<Byte>, hi: nat)
    requires hi <= |file|
    ensures Grid(file, 0, hi) <= 255 * ((hi + PAGE - 1) / PAGE)
    decreases hi
  {
    if hi > 0 {
      GridBound(file, hi - 1);
      OneMore(hi);
    }
  }

  /** The 64-bit sum does not wrap for any file size that fits off_t. */
  lemma NoWrap(file: seq<Byte>)
    requires |file| < 0x8000_0000_0000_0000
    ensures Grid(file, 0, |file|) < WORD
  {
    GridBound(file, |file|);
  }

  lemma AddMod(a: nat, b: nat)
    ensures (a % WORD + b) % WORD == (a + b) % WORD
    ensures (a + b % WORD) % WORD == (a + b) % WORD
  {
  }

  lemma AddMods(a: nat, b: nat)
    ensures (a % WORD + b % WORD) % WORD == (a + b) % WORD
  {
    AddMod(a, b % WORD);
    AddMod(a, b);
  }

  /** One 64-bit addition of sums that were themselves reduced. */
  method AddPart(checksum: nat, part: nat, ghost sum: nat, ghost added: nat) returns (joined: nat)
    requires checksum == sum % WORD && part == added % WORD
    ensures joined == (sum + added) % WORD
  {
    AddMods(sum, added);
    joined := (checksum + part) % WORD;
  }

  // ------------------------------------------------------------- the loops

  /** What `read` returns when asked for chunk bytes with `available` left in the file: nothing at the
      end of the file, otherwise at least one byte and at most what was asked for; `wish` decides. */
  function ReadReturns(wish: nat, chunk: nat, available: nat): (n: nat)
    requires chunk > 0
    ensures n <= chunk && n <= available && (n == 0 <==> available == 0)
    ensures 0 < wish <= chunk && wish <= available ==> n == wish
    ensures wish >= chunk ==> n == if chunk < available then chunk else available
  {
    var most := if chunk < available then chunk else available;
    if wish < 1 && most > 0 then 1 else if wish < most then wish else most
  }

  function SumFrom(file: seq<Byte>, pos: nat, n: nat, i: nat): nat
    requires pos + n <= |file|
  {
    if i < n then ReadSum(file, pos + i, n - i) else 0
  }

  /** The inner loop: every 4096th byte of a buffer of n bytes. */
  method AddSamples(file: seq<Byte>, pos: nat, n: nat, sum: nat) returns (checksum: nat)
    requires pos + n <= |file| && sum < WORD
    ensures checksum == (sum + Samples(file, pos, pos, pos + n)) % WORD
  {
    ReadSumIsSamples(file, pos, n);
    checksum := sum;
    var i := 0;
    while i < n
      invariant checksum < WORD
      invariant (checksum + SumFrom(file, pos, n, i)) % WORD == (sum + ReadSum(file, pos, n)) % WORD
    {
      AddMod(checksum + file[pos + i], SumFrom(file, pos, n, i + PAGE));
      checksum := (checksum + file[pos + i]) % WORD;
      i := i + PAGE;
    }
  }

  /** `read` returns whole pages except at the end of the range. */
  ghost predicate Pagewise(wishes: nat -> nat) {
    forall k :: wishes(k) > 0 && wishes(k) % PAGE == 0
  }

  ghost predicate AllPagewise(wishes: nat -> nat -> nat) {
    forall w :: Pagewise(wishes(w))
  }

  /** What the reads of a range return, from the k-th on, which starts at pos. */
  ghost function Served(size: nat, pos: nat, end: nat, wishes: nat -> nat, k: nat): seq<nat>
    decreases if pos < end then end - pos else 0
  {
    if pos >= end then []
    else
      var chunk := if end - pos > BUF_SIZE then BUF_SIZE else end - pos;
      var n := ReadReturns(wishes(k), chunk, if pos < size then size - pos else 0);
      if n == 0 then [] else [n] + Served(size, pos + n, end, wishes, k + 1)
  }

  /** Under any short reads a range is read to its end, or to the end of a file that has become shorter. */
  lemma {:induction false} ServedCovers(size: nat, pos: nat, end: nat, wishes: nat -> nat, k: nat)
    requires pos <= end
    ensures Plan(Served(size, pos, end, wishes, k))
    ensures size <= pos ==> Served(size, pos, end, wishes, k) == []
    ensures pos <= size ==> pos + Length(Served(size, pos, end, wishes, k)) == if end < size then end else size
    decreases end - pos
  {
    if pos < end && pos < size {
      var chunk := if end - pos > BUF_SIZE then BUF_SIZE else end - pos;
      ServedCovers(size, pos + ReadReturns(wishes(k), chunk, size - pos), end, wishes, k + 1);
    }
  }

  /** The i-th read asks for what is left of the range, at most the buffer's size, after what the reads before
      it returned. */
  lemma {:induction false} ServedAt(size: nat, pos: nat, end: nat, wishes: nat -> nat, k: nat, i: nat)
    requires pos <= end && i < |Served(size, pos, end, wishes, k)|
    ensures var p := pos + Length(Served(size, pos, end, wishes, k)[..i]);
            && p < end && p < size
            && Served(size, pos, end, wishes, k)[i]
            == ReadReturns(wishes(k + i), if end - p > BUF_SIZE then BUF_SIZE else end - p, size - p)
    decreases i
  {
    if i > 0 {
      var all := Served(size, pos, end, wishes, k);
      assert all == [all[0]] + Served(size, pos + all[0], end, wishes, k + 1);
      ServedAt(size, pos + all[0], end, wishes, k + 1, i - 1);
      assert all[..i][1..] == all[1..][..i - 1];
    }
  }

  lemma WholePagesCons(n: nat, rest: seq<nat>)
    requires WholePages(rest) && (n % PAGE == 0 || rest == [])
    ensures WholePages([n] + rest)
  {
    forall i | 0 <= i < |rest| ensures ([n] + rest)[i] % PAGE == 0 {
      assert i > 0 ==> ([n] + rest)[i] == rest[i - 1];
    }
  }

  lemma {:induction false} ServedPagewise(size: nat, pos: nat, end: nat, wishes: nat -> nat, k: nat)
    requires pos <= end <= size && Pagewise(wishes)
    ensures WholePages(Served(size, pos, end, wishes, k))
    decreases end - pos
  {
    if pos < end {
      var chunk := if end - pos > BUF_SIZE then BUF_SIZE else end - pos;
      var n := ReadReturns(wishes(k), chunk, size - pos);
      var rest := Served(size, pos + n, end, wishes, k + 1);
      ServedPagewise(size, pos + n, end, wishes, k + 1);
      assert Served(size, pos, end, wishes, k) == [n] + rest;
      assert n % PAGE == 0 || pos + n == end;
      assert pos + n == end ==> rest == [];
      WholePagesCons(n, rest);
    }
  }

  /** When every read returns all it is asked for. */
  ghost predicate NeverShort(wishes: nat -> nat) {
    forall k :: wishes(k) >= BUF_SIZE
  }

  lemma {:induction false} ServedFull(size: nat, pos: nat, end: nat, wishes: nat -> nat, k: nat)
    requires pos <= end <= size && NeverShort(wishes)
    ensures Served(size, pos, end, wishes, k) == FullReads(end - pos)
    decreases end - pos
  {
    if pos < end {
      var chunk := if end - pos > BUF_SIZE then BUF_SIZE else end - pos;
      assert wishes(k) >= BUF_SIZE;
      ServedFull(size, pos + chunk, end, wishes, k + 1);
    }
  }

  /** What `read_range` adds up. */
  ghost function RangeSum(file: seq<Byte>, range: (nat, nat), wishes: nat -> nat): nat
    requires range.0 <= range.1
  {
    ServedCovers(|file|, range.0, range.1, wishes, 0);
    if range.0 < |file| then PlanSum(file, range.0, Served(|file|, range.0, range.1, wishes, 0)) else 0
  }

  /** The checksum stays that of the plan when a read is added to both. */
  lemma ExtendPlan(file: seq<Byte>, start: nat, plan: seq<nat>, n: nat, before: nat, checksum: nat)
    requires start + Length(plan) + n <= |file| && before == PlanSum(file, start, plan) % WORD
    requires checksum == (before + ReadSum(file, start + Length(plan), n)) % WORD
    ensures Length(plan + [n]) == Length(plan) + n && checksum == PlanSum(file, start, plan + [n]) % WORD
  {
    PlanSumConcat(file, start, plan, [n]);
    AddMod(PlanSum(file, start, plan), ReadSum(file, start + Length(plan), n));
  }

  /** The reads of `plan` have been made, and k is the number of the next one. */
  ghost predicate ReadSoFar(file: seq<Byte>, range: (nat, nat), wishes: nat -> nat, plan: seq<nat>, pos: nat, k: nat, checksum: nat) {
    && pos == range.0 + Length(plan) <= range.1
    && plan + Served(|file|, pos, range.1, wishes, k) == Served(|file|, range.0, range.1, wishes, 0)
    && (pos <= |file| || plan == [])
    && checksum < WORD
    && checksum == if range.0 <= |file| && pos <= |file| then PlanSum(file, range.0, plan) % WORD else 0
  }

  lemma ReadOn(file: seq<Byte>, range: (nat, nat), wishes: nat -> nat, plan: seq<nat>, pos: nat, k: nat, checksum: nat, n: nat, next: nat)
    requires ReadSoFar(file, range, wishes, plan, pos, k, checksum) && pos < range.1 && n > 0
    requires n == ReadReturns(wishes(k), if range.1 - pos > BUF_SIZE then BUF_SIZE else range.1 - pos, if pos < |file| then |file| - pos else 0)
    requires next == (checksum + Samples(file, pos, pos, pos + n)) % WORD
    ensures ReadSoFar(file, range, wishes, plan + [n], pos + n, k + 1, next)
  {
    var rest := Served(|file|, pos + n, range.1, wishes, k + 1);
    assert plan + ([n] + rest) == plan + [n] + rest;
    ReadSumIsSamples(file, pos, n);
    ExtendPlan(file, range.0, plan, n, checksum, next);
  }

  lemma ReadAll(file: seq<Byte>, range: (nat, nat), wishes: nat -> nat, plan: seq<nat>, pos: nat, k: nat, checksum: nat)
    requires ReadSoFar(file, range, wishes, plan, pos, k, checksum) && Served(|file|, pos, range.1, wishes, k) == []
    ensures range.0 <= range.1 && checksum == RangeSum(file, range, wishes) % WORD
  {
    assert plan == Served(|file|, range.0, range.1, wishes, 0);
  }

  lemma ReadNothing(file: seq<Byte>, range: (nat, nat), wishes: nat -> nat)
    requires range.0 <= range.1
    ensures ReadSoFar(file, range, wishes, [], range.0, 0, 0)
  {
  }

  /** One pass of the loop: a read, and its samples added. */
  method ReadNext(file: seq<Byte>, end: nat, wishes: nat -> nat, pos: nat, k: nat, sum: nat, ghost start: nat, ghost plan: seq<nat>)
    returns (n: nat, checksum: nat)
    requires ReadSoFar(file, (start, end), wishes, plan, pos, k, sum) && pos < end
    ensures if n == 0 then checksum == sum && Served(|file|, pos, end, wishes, k) == []
            else ReadSoFar(file, (start, end), wishes, plan + [n], pos + n, k + 1, checksum)
  {
    var chunk := if end - pos > BUF_SIZE then BUF_SIZE else end - pos;
    n := ReadReturns(wishes(k), chunk, if pos < |file| then |file| - pos else 0);
    checksum := sum;
    if n > 0 {
      checksum := AddSamples(file, pos, n, sum);
      ReadOn(file, (start, end), wishes, plan, pos, k, sum, n, checksum);
    }
  }

  /** `read_range`: the checksum is that of exactly the reads that `wishes` allows. */
  method ReadRange(file: seq<Byte>, start: nat, end: nat, wishes: nat -> nat) returns (checksum: nat)
    requires start <= end
    ensures checksum == RangeSum(file, (start, end), wishes) % WORD
  {
    ReadNothing(file, (start, end), wishes);
    ghost var plan := [];
    checksum := 0;
    var pos, k := start, 0;
    while pos < end
      invariant ReadSoFar(file, (start, end), wishes, plan, pos, k, checksum)
      decreases end - pos
    {
      var n;
      n, checksum := ReadNext(file, end, wishes, pos, k, checksum, start, plan);
      if n == 0 {
        break;
      }
      plan := plan + [n];
      pos, k := pos + n, k + 1;
    }
    ReadAll(file, (start, end), wishes, plan, pos, k, checksum);
  }

  /** With whole-page reads a range that starts at a multiple of 4096 gives its bytes at such multiples. */
  lemma PagewiseRange(file: seq<Byte>, range: (nat, nat), wishes: nat -> nat)
    requires range.0 <= range.1 <= |file| && range.0 % PAGE == 0 && Pagewise(wishes)
    ensures RangeSum(file, range, wishes) == Grid(file, range.0, range.1)
  {
    ServedCovers(|file|, range.0, range.1, wishes, 0);
    ServedPagewise(|file|, range.0, range.1, wishes, 0);
    WholePagesAligned(range.0, Served(|file|, range.0, range.1, wishes, 0));
    AlignedSum(file, range.0, Served(|file|, range.0, range.1, wishes, 0));
  }

  // ------------------------------------------------------------ the argument arrays

  function Range(size: nat, workers: nat, w: nat): (nat, nat)
    requires workers > 0
  {
    (Start(size, workers, w), End(size, workers, w))
  }

  /** The arguments of the workers whose ids count up from `first`: of all of them in the single and threads
      modes, of those of one process in the others. */
  method FillArgs(size: nat, workers: nat, first: nat, threads: nat) returns (args: array<(nat, nat)>)
    requires workers > 0 && first + threads <= workers
    ensures fresh(args) && args.Length == threads
    ensures forall t {:trigger args[t]} :: 0 <= t < threads ==> args[t] == Range(size, workers, first + t)
  {
    var slice := size / workers;
    args := new (nat, nat)[threads](_ => (0, 0));
    for t := 0 to threads
      invariant forall u {:trigger args[u]} :: 0 <= u < t ==> args[u] == Range(size, workers, first + u)
    {
      var id := first + t;
      args[t] := (id * slice, if id == workers - 1 then size else (id + 1) * slice);
    }
  }

  function Itself(part: nat): int { part }

  /** A thread is joined: its checksum is added to what has been added up so far. */
  method JoinWorker(file: seq<Byte>, range: (nat, nat), wishes: nat -> nat, checksum: nat, ghost sum: nat)
    returns (joined: nat)
    requires range.0 <= range.1 && checksum == sum % WORD
    ensures joined == (sum + RangeSum(file, range, wishes)) % WORD
  {
    var part := ReadRange(file, range.0, range.1, wishes);
    joined := AddPart(checksum, part, sum, RangeSum(file, range, wishes));
  }

  /** The ranges in the array add up to the given parts; `wishes` decides, worker by worker, how short the
      reads are. */
  ghost predicate Yields(file: seq<Byte>, args: seq<(nat, nat)>, first: nat, wishes: nat -> nat -> nat, parts: seq<nat>) {
    && |parts| == |args|
    && forall t {:trigger args[t]} :: 0 <= t < |args| ==>
         args[t].0 <= args[t].1 && parts[t] == RangeSum(file, args[t], wishes(first + t))
  }

  /** The joining loop. */
  method JoinWorkers(file: seq<Byte>, args: array<(nat, nat)>, first: nat, wishes: nat -> nat -> nat, ghost parts: seq<nat>)
    returns (checksum: nat)
    requires Yields(file, args[..], first, wishes, parts)
    ensures checksum == Sum(Itself, parts) % WORD
  {
    checksum := 0;
    ghost var sum: nat := 0;
    for t := 0 to args.Length
      invariant sum == Sum(Itself, parts[..t]) && checksum == sum % WORD
    {
      assert args[t] == args[..][t];
      SumSnoc(Itself, parts[..t], parts[t]);
      assert parts[..t] + [parts[t]] == parts[..t + 1];
      checksum := JoinWorker(file, args[t], wishes(first + t), checksum, sum);
      sum := sum + parts[t];
    }
    assert parts[..args.Length] == parts;
  }

  // ------------------------------------------------------------------- the modes

  /** What the workers' reads return. */
  ghost function Plans(size: nat, workers: nat, wishes: nat -> nat -> nat): seq<seq<nat>>
    requires workers > 0
  {
    seq(workers, w requires 0 <= w < workers => Served(size, Start(size, workers, w), End(size, workers, w), wishes(w), 0))
  }

  lemma PlansCover(size: nat, workers: nat, wishes: nat -> nat -> nat)
    requires workers > 0
    ensures Covers(size, workers, Plans(size, workers, wishes))
    ensures AllPagewise(wishes) ==> forall w :: 0 <= w < workers ==> WholePages(Plans(size, workers, wishes)[w])
  {
    forall w | 0 <= w < workers
      ensures Plan(Plans(size, workers, wishes)[w])
      ensures Length(Plans(size, workers, wishes)[w]) == End(size, workers, w) - Start(size, workers, w)
      ensures AllPagewise(wishes) ==> WholePages(Plans(size, workers, wishes)[w])
    {
      RangesAdjacent(size, workers, w);
      ServedCovers(size, Start(size, workers, w), End(size, workers, w), wishes(w), 0);
      if AllPagewise(wishes) {
        ServedPagewise(size, Start(size, workers, w), End(size, workers, w), wishes(w), 0);
      }
    }
  }

  /** What a run of all the workers adds up to. */
  ghost function Checksum(file: seq<Byte>, workers: nat, wishes: nat -> nat -> nat): nat
    requires workers > 0
  {
    PlansCover(|file|, workers, wishes);
    Total(file, workers, Plans(|file|, workers, wishes), workers)
  }

  /** The workers' sums one by one. */
  ghost predicate PartsOf(file: seq<Byte>, workers: nat, wishes: nat -> nat -> nat, parts: seq<nat>)
    requires workers > 0
  {
    && |parts| == workers
    && forall w {:trigger Range(|file|, workers, w)} :: 0 <= w < workers ==>
         && Range(|file|, workers, w).0 <= Range(|file|, workers, w).1
         && parts[w] == RangeSum(file, Range(|file|, workers, w), wishes(w))
  }

  /** A worker's part is what its range yields. */
  lemma PartIsRange(file: seq<Byte>, workers: nat, wishes: nat -> nat -> nat, w: nat)
    requires w < workers && Covers(|file|, workers, Plans(|file|, workers, wishes))
    ensures Range(|file|, workers, w).0 <= Range(|file|, workers, w).1
    ensures WorkerSum(file, workers, Plans(|file|, workers, wishes), w) == RangeSum(file, Range(|file|, workers, w), wishes(w))
  {
    RangesAdjacent(|file|, workers, w);
    ServedCovers(|file|, Start(|file|, workers, w), End(|file|, workers, w), wishes(w), 0);
  }

  lemma {:induction false} PartsTotal(file: seq<Byte>, workers: nat, plans: seq<seq<nat>>, parts: seq<nat>, k: nat)
    requires k <= workers == |parts| && workers > 0 && Covers(|file|, workers, plans)
    requires forall w {:trigger WorkerSum(file, workers, plans, w)} :: 0 <= w < k ==> parts[w] == WorkerSum(file, workers, plans, w)
    ensures Total(file, workers, plans, k) == Sum(Itself, parts[..k])
  {
    if k > 0 {
      PartsTotal(file, workers, plans, parts, k - 1);
      assert parts[k - 1] == WorkerSum(file, workers, plans, k - 1);
      SumSnoc(Itself, parts[..k - 1], parts[k - 1]);
      assert parts[..k - 1] + [parts[k - 1]] == parts[..k];
    }
  }

  lemma MakeParts(file: seq<Byte>, workers: nat, wishes: nat -> nat -> nat) returns (parts: seq<nat>)
    requires workers > 0
    ensures PartsOf(file, workers, wishes, parts) && Checksum(file, workers, wishes) == Sum(Itself, parts)
  {
    var plans := Plans(|file|, workers, wishes);
    PlansCover(|file|, workers, wishes);
    parts := seq(workers, w requires 0 <= w < workers => WorkerSum(file, workers, plans, w));
    forall w | 0 <= w < workers
      ensures Range(|file|, workers, w).0 <= Range(|file|, workers, w).1
      ensures parts[w] == RangeSum(file, Range(|file|, workers, w), wishes(w))
    {
      PartIsRange(file, workers, wishes, w);
    }
    PartsTotal(file, workers, plans, parts, workers);
    assert parts[..workers] == parts;
  }

  /** When reads are never short the workers make full reads, so ModesAgreeExact is about these modes. */
  lemma ChecksumFull(file: seq<Byte>, workers: nat, wishes: nat -> nat -> nat)
    requires workers > 0 && forall w :: NeverShort(wishes(w))
    ensures Checksum(file, workers, wishes) == FullChecksum(file, workers)
  {
    forall w | 0 <= w < workers ensures Plans(|file|, workers, wishes)[w] == FullPlans(|file|, workers)[w] {
      RangesAdjacent(|file|, workers, w);
      ServedFull(|file|, Start(|file|, workers, w), End(|file|, workers, w), wishes(w), 0);
    }
    assert Plans(|file|, workers, wishes) == FullPlans(|file|, workers);
  }

  /** The threads whose ids count up from `first` are run and joined. */
  method RunWorkers(file: seq<Byte>, workers: nat, first: nat, threads: nat, wishes: nat -> nat -> nat, ghost parts: seq<nat>)
    returns (checksum: nat)
    requires workers > 0 && first + threads <= workers && PartsOf(file, workers, wishes, parts)
    ensures checksum == Sum(Itself, parts[first..first + threads]) % WORD
  {
    var args := FillArgs(|file|, workers, first, threads);
    forall t | 0 <= t < threads
      ensures args[t].0 <= args[t].1 && parts[first + t] == RangeSum(file, args[t], wishes(first + t))
    {
      assert args[t] == Range(|file|, workers, first + t);
    }
    checksum := JoinWorkers(file, args, first, wishes, parts[first..first + threads]);
  }

  /** The single and threads modes. */
  method RunThreads(file: seq<Byte>, workers: nat, wishes: nat -> nat -> nat) returns (checksum: nat)
    requires workers > 0
    ensures checksum == Checksum(file, workers, wishes) % WORD
  {
    ghost var parts := MakeParts(file, workers, wishes);
    checksum := RunWorkers(file, workers, 0, workers, wishes, parts);
    assert parts[0..workers] == parts;
  }

  lemma NextProcess(procs: nat, threads: nat, p: nat)
    requires p < procs
    ensures GlobalId(threads, p + 1, 0) == GlobalId(threads, p, 0) + threads <= procs * threads
  {
    MulMonotone(p + 1, procs, threads);
    assert (p + 1) * threads == p * threads + threads;
  }

  lemma PartsJoin(parts: seq<nat>, first: nat, threads: nat)
    requires first + threads <= |parts|
    ensures Sum(Itself, parts[..first + threads]) == Sum(Itself, parts[..first]) + Sum(Itself, parts[first..first + threads])
    ensures 0 <= Sum(Itself, parts[..first]) && 0 <= Sum(Itself, parts[first..first + threads])
  {
    assert parts[..first] + parts[first..first + threads] == parts[..first + threads];
    SumConcat(Itself, parts[..first], parts[first..first + threads]);
    SumWithinNat(Itself, parts[..first]);
    SumWithinNat(Itself, parts[first..first + threads]);
  }

  /** The parent's loop: process p runs the workers p * thread_count + t and reports their sum, which is
      added up. */
  method AddProcesses(file: seq<Byte>, workers: nat, procs: nat, threads: nat, wishes: nat -> nat -> nat, ghost parts: seq<nat>)
    returns (checksum: nat)
    requires workers == procs * threads > 0 && PartsOf(file, workers, wishes, parts)
    ensures checksum == Sum(Itself, parts) % WORD
  {
    checksum := 0;
    var p, first := 0, 0;
    while p < procs
      invariant p <= procs && first == GlobalId(threads, p, 0) <= workers
      invariant checksum == Sum(Itself, parts[..first]) % WORD
    {
      NextProcess(procs, threads, p);
      PartsJoin(parts, first, threads);
      var reported := RunWorkers(file, workers, first, threads, wishes, parts);
      checksum := AddPart(checksum, reported, Sum(Itself, parts[..first]), Sum(Itself, parts[first..first + threads]));
      p, first := p + 1, first + threads;
    }
    assert parts[..first] == parts;
  }

  /** The processes and hybrid modes. */
  method RunProcesses(file: seq<Byte>, procs: nat, threads: nat, wishes: nat -> nat -> nat) returns (checksum: nat)
    requires procs > 0 && threads > 0
    ensures procs * threads > 0 && checksum == Checksum(file, procs * threads, wishes) % WORD
  {
    MulMonotone(1, procs, threads);
    ghost var parts := MakeParts(file, procs * threads, wishes);
    checksum := AddProcesses(file, procs * threads, procs, threads, wishes, parts);
  }

  /** One worker, or ranges that all start at a multiple of 4096. */
  predicate Sliced(size: nat, workers: nat) {
    workers == 1 || (workers > 0 && (size / workers) % PAGE == 0)
  }

  lemma ChecksumIsGrid(file: seq<Byte>, workers: nat, wishes: nat -> nat -> nat)
    requires Sliced(|file|, workers) && |file| < 0x8000_0000_0000_0000 && AllPagewise(wishes)
    ensures Checksum(file, workers, wishes) == Grid(file, 0, |file|) < WORD
  {
    PlansCover(|file|, workers, wishes);
    ModeIndependent(file, workers, Plans(|file|, workers, wishes));
    NoWrap(file);
  }

  /** All modes give the same checksum, the exact sum of the bytes at multiples of 4096: `single` has one
      worker, `threads` one per thread, `processes` one per process and `hybrid` one per thread of each
      process. */
  method AllModesAgree(file: seq<Byte>, procs: nat, threads: nat, wishes: nat -> nat -> nat)
    returns (single: nat, threaded: nat, forked: nat, hybrid: nat)
    requires procs > 0 && threads > 0 && |file| < 0x8000_0000_0000_0000 && AllPagewise(wishes)
    requires Sliced(|file|, threads) && Sliced(|file|, procs) && Sliced(|file|, procs * threads)
    ensures single == threaded == forked == hybrid == Grid(file, 0, |file|)
  {
    single := RunThreads(file, 1, wishes);
    ChecksumIsGrid(file, 1, wishes);
    threaded := RunThreads(file, threads, wishes);
    ChecksumIsGrid(file, threads, wishes);
    assert procs * 1 == procs;
    forked := RunProcesses(file, procs, 1, wishes);
    ChecksumIsGrid(file, procs, wishes);
    hybrid := RunProcesses(file, procs, threads, wishes);
    ChecksumIsGrid(file, procs * threads, wishes);
  }
}
