/** labs/lab_29_storage_fs.c, Phase 5: the strided read order, said to cover "all pages". */
module StridedRead {

  const WORD: nat := 0x1_0000_0000_0000_0000

  function Stride(n: nat): nat { n / 2 + 1 }

  /** The page read at step i. */
  function Index(n: nat, i: nat): (page: nat)
    requires n > 0
    ensures page < n
  {
    (i * Stride(n)) % n
  }

  ghost predicate ReadAtSomeStep(n: nat, page: nat)
    requires n > 0
  {
    exists i: nat :: i < n && Index(n, i) == page
  }

  /** Every page is read, and no page twice. */
  ghost predicate EachOnce(n: nat)
    requires n > 0
  {
    && (forall page: nat :: page < n ==> ReadAtSomeStep(n, page))
    && (forall i: nat, i': nat :: i < n && i' < n && Index(n, i) == Index(n, i') ==> i == i')
  }

  // ------------------------------------------------------------- arithmetic

  /** A multiple of n that is less than n away from zero is zero. */
  lemma Multiple(k: int, n: int, d: int)
    requires n > 0 && n * k == d && -n < d < n
    ensures d == 0
  {
  }

  lemma ModShift(x: int, y: nat, n: nat, z: int)
    requires n > 0 && y < n && x == y + n * z
    ensures x % n == y
  {
    var q, r := x / n, x % n;
    assert x == n * q + r;
    Multiple(q - z, n, y - r);
  }

  lemma Distribute(n: int, a: int, b: int)
    ensures n * a + n * b == n * (a + b)
  {
  }

  lemma MulMod(x: nat, s: nat, n: nat)
    requires n > 0
    ensures ((x % n) * s) % n == (x * s) % n
  {
    var q, r := x / n, x % n;
    var p, y := (r * s) / n, (r * s) % n;
    assert x * s == (n * q + r) * s == n * (q * s) + r * s;
    assert r * s == n * p + y;
    Distribute(n, q * s, p);
    ModShift(x * s, y, n, q * s + p);
  }

  /** If e * s is 1 modulo n, multiplying by e and then by s changes nothing modulo n. */
  lemma InverseMod(n: nat, s: nat, e: nat, m: nat, j: nat)
    requires n > 0 && e * s == 1 + n * m && j < n
    ensures ((e * j % n) * s) % n == j
  {
    MulMod(e * j, s, n);
    assert e * j * s == j * (e * s) == j * (1 + n * m) == j + n * (j * m);
    ModShift(e * j * s, j, n, j * m);
  }

  lemma EvenMod(a: nat, h: nat)
    requires h > 0
    ensures (2 * a) % (2 * h) == 2 * (a % h)
  {
    var q, r := a / h, a % h;
    assert a == h * q + r;
    assert 2 * a == 2 * r + 2 * h * q;
    ModShift(2 * a, 2 * r, 2 * h, q);
  }

  // ---------------------------------------------------------------- result

  /** For odd n the inverse of the stride is 2; for n divisible by four it is its own inverse. */
  lemma Inverse(n: nat) returns (e: nat, m: nat)
    requires n > 0 && n % 4 != 2
    ensures e * Stride(n) == Stride(n) * e == 1 + n * m
  {
    if n % 2 == 1 {
      e, m := 2, 1;
    } else {
      var k := n / 4;
      e, m := Stride(n), k + 1;
      assert Stride(n) == 2 * k + 1 && n == 4 * k;
      assert (2 * k + 1) * (2 * k + 1) == 1 + 4 * k * (k + 1);
    }
  }

  /** When n = 4k+2 the stride and n are both even: the order is twice that of n/2 pages. */
  lemma HalfOrder(n: nat, i: nat)
    requires n % 4 == 2
    ensures Index(n, i) == 2 * Index(n / 2, i)
  {
    var h := n / 2;
    assert n == 2 * h && Stride(n) == 2 * Stride(h);
    assert i * Stride(n) == 2 * (i * Stride(h));
    EvenMod(i * Stride(h), h);
  }

  /** The strided order reads all pages, each once, exactly when n mod 4 is not 2. */
  lemma EachOnceExact(n: nat)
    requires n > 0
    ensures EachOnce(n) <==> n % 4 != 2
  {
    if n % 4 == 2 {
      forall i: nat ensures Index(n, i) != 1 {
        HalfOrder(n, i);
      }
      assert !ReadAtSomeStep(n, 1);
    } else {
      var s := Stride(n);
      var e, m := Inverse(n);
      forall page: nat | page < n ensures ReadAtSomeStep(n, page) {
        InverseMod(n, s, e, m, page);
        assert Index(n, e * page % n) == page;
      }
      forall i: nat, i': nat | i < n && i' < n && Index(n, i) == Index(n, i') ensures i == i' {
        InverseMod(n, e, s, m, i);
        InverseMod(n, e, s, m, i');
        assert i * s == s * i && i' * s == s * i';
      }
    }
  }

  // ---------------------------------------------------- the loop of the lab

  /** How often a page is read in the first k steps. */
  function Reads(n: nat, page: nat, k: nat): nat
    requires n > 0
  {
    if k == 0 then 0 else Reads(n, page, k - 1) + if Index(n, k - 1) == page then 1 else 0
  }

  lemma {:induction false} ReadsSome(n: nat, page: nat, k: nat)
    requires n > 0
    ensures Reads(n, page, k) > 0 <==> exists i: nat :: i < k && Index(n, i) == page
  {
    if k > 0 {
      ReadsSome(n, page, k - 1);
      if Index(n, k - 1) == page {
        assert k - 1 < k && Index(n, k - 1) == page;
      }
    }
  }

  lemma {:induction false} ReadsMonotone(n: nat, page: nat, j: nat, k: nat)
    requires n > 0 && j <= k
    ensures Reads(n, page, j) <= Reads(n, page, k)
  {
    if j < k {
      ReadsMonotone(n, page, j, k - 1);
    }
  }

  lemma {:induction false} ReadsAtMostOnce(n: nat, page: nat, k: nat)
    requires n > 0 && EachOnce(n) && k <= n
    ensures Reads(n, page, k) <= 1
  {
    if k > 0 {
      ReadsAtMostOnce(n, page, k - 1);
      ReadsSome(n, page, k - 1);
    }
  }

  /** Two steps that read the same page make two reads of it. */
  lemma ReadTwice(n: nat, i: nat, i': nat)
    requires i < i' < n && Index(n, i) == Index(n, i')
    ensures Reads(n, Index(n, i), n) >= 2
  {
    var page := Index(n, i);
    ReadsMonotone(n, page, i + 1, i');
    ReadsMonotone(n, page, i' + 1, n);
  }

  ghost predicate CountsAreOne(n: nat)
    requires n > 0
  {
    forall page: nat :: page < n ==> Reads(n, page, n) == 1
  }

  lemma OnceCountsOne(n: nat)
    requires n > 0 && EachOnce(n)
    ensures CountsAreOne(n)
  {
    forall page: nat | page < n ensures Reads(n, page, n) == 1 {
      assert ReadAtSomeStep(n, page);
      ReadsSome(n, page, n);
      ReadsAtMostOnce(n, page, n);
    }
  }

  lemma CountsOneOnce(n: nat)
    requires n > 0 && CountsAreOne(n)
    ensures EachOnce(n)
  {
    forall page: nat | page < n ensures ReadAtSomeStep(n, page) {
      ReadsSome(n, page, n);
    }
    forall i: nat, i': nat | i < n && i' < n && Index(n, i) == Index(n, i') ensures i == i' {
      if i < i' {
        ReadTwice(n, i, i');
      } else if i' < i {
        ReadTwice(n, i', i);
      }
    }
  }

  lemma MulBound(x: nat, y: nat, a: nat, b: nat)
    requires x <= a && y <= b
    ensures x * y <= a * b
  {
    assert x * y <= a * y;
    assert a * y <= a * b;
  }

  lemma WrapLess(x: nat)
    requires x < WORD
    ensures x % WORD == x
  {
  }

  lemma NoWrap(n: nat, i: nat)
    requires i < n < 0x1_0000_0000
    ensures (i * (n / 2 + 1)) % WORD % n == Index(n, i)
  {
    MulBound(i, Stride(n), 0xFFFF_FFFF, 0x8000_0000);
    WrapLess(i * Stride(n));
  }

  /** The read loop, counting the reads of each page; size_t arithmetic wraps at 2^64, which no
      page count that fits 32 bits reaches. */
  method CountReads(n: nat) returns (counts: array<nat>, order: seq<nat>)
    requires 0 < n < 0x1_0000_0000
    ensures order == seq(n, i requires 0 <= i < n => i * (n / 2 + 1) % n)
    ensures counts.Length == n
    ensures forall page :: 0 <= page < n ==> counts[page] == Reads(n, page, n)
    ensures (forall page :: 0 <= page < n ==> counts[page] == 1) <==> n % 4 != 2
  {
    counts := new nat[n](_ => 0);
    order := [];
    for i := 0 to n
      invariant order == seq(i, j requires 0 <= j < i => Index(n, j))
      invariant forall page :: 0 <= page < n ==> counts[page] == Reads(n, page, i)
    {
      NoWrap(n, i);
      var idx := (i * (n / 2 + 1)) % WORD % n;
      counts[idx] := counts[idx] + 1;
      order := order + [idx];
    }
    EachOnceExact(n);
    if n % 4 != 2 {
      OnceCountsOne(n);
    } else if CountsAreOne(n) {
      CountsOneOnce(n);
    }
  }

  function Power2(k: nat): nat { if k == 0 then 1 else 2 * Power2(k - 1) }

  lemma {:induction false} Power2Quarter(k: nat)
    requires k >= 2
    ensures Power2(k) % 4 == 0 && Power2(k) > 0
    decreases k
  {
    if k > 2 {
      Power2Quarter(k - 1);
    } else {
      assert Power2(2) == 2 * Power2(1) == 4 * Power2(0);
    }
  }

  lemma {:induction false} Power2Adds(a: nat, b: nat)
    ensures Power2(b) > 0 && Power2(a + b) == Power2(b) * Power2(a)
  {
    if b > 0 {
      Power2Adds(a, b - 1);
      assert 2 * (Power2(b - 1) * Power2(a)) == 2 * Power2(b - 1) * Power2(a);
    }
  }

  lemma SameFactor(n: int, x: int, y: int)
    requires n > 0 && n * x == n * y
    ensures x == y
  {
  }

  lemma {:induction false} Power2Divides(a: nat, b: nat)
    requires b <= a
    ensures Power2(b) > 0 && Power2(a) / Power2(b) == Power2(a - b)
  {
    Power2Adds(a - b, b);
    ModShift(Power2(a), 0, Power2(b), Power2(a - b));
    assert Power2(a) == Power2(b) * (Power2(a) / Power2(b));
    SameFactor(Power2(b), Power2(a) / Power2(b), Power2(a - b));
  }

  /** For the lab's 4 MiB file every power-of-two page size up to 1 MiB gives a page count for which
      "all pages" is true. */
  lemma LabCoversAllPages(p: nat)
    requires p <= 20
    ensures Power2(p) > 0 && Power2(22) / Power2(p) > 0 && EachOnce(Power2(22) / Power2(p))
  {
    Power2Divides(22, p);
    Power2Quarter(22 - p);
    EachOnceExact(Power2(22 - p));
  }
}
