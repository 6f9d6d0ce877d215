/**
 `parallel_sum`: items 0 to n are cut into one range per worker, each worker adds up its range
 into its own slot, and the slots are added.  All arithmetic is on 64-bit unsigned words.
 The per-item value is a parameter, so everything here holds for every choice of it.
 */
module ParallelSums {
  const WORD: nat := 0x1_0000_0000_0000_0000

  /** The exact sum of `mix` over `lo`, ..., `hi - 1`. */
  ghost function Sum(mix: nat -> nat, lo: nat, hi: nat): nat {
    if hi <= lo then 0 else Sum(mix, lo, hi - 1) + mix(hi - 1)
  }

  lemma {:induction false} SumSplit(mix: nat -> nat, lo: nat, mid: nat, hi: nat)
    requires lo <= mid <= hi
    ensures Sum(mix, lo, hi) == Sum(mix, lo, mid) + Sum(mix, mid, hi)
    decreases hi
  {
    if mid < hi {
      SumSplit(mix, lo, mid, hi - 1);
    }
  }

  lemma WordAdd(a: nat, b: nat)
    ensures (a % WORD + b % WORD) % WORD == (a + b) % WORD
    ensures (a % WORD + b) % WORD == (a + b) % WORD
  {}

  method SumRange(mix: nat -> nat, begin: nat, end: nat) returns (total: nat)
    ensures total == Sum(mix, begin, end) % WORD
  {
    total := 0;
    var value := begin;
    while value < end
      invariant begin <= value && (value <= end || value == begin)
      invariant total == Sum(mix, begin, value) % WORD
    {
      WordAdd(Sum(mix, begin, value), mix(value));
      total := (total + mix(value)) % WORD;
      value := value + 1;
    }
  }

  // --------------------------------------------------------------------- ranges

  /** Where worker `w` of `k` begins and worker `w - 1` ends; the product wraps. */
  function Cut(n: nat, k: nat, w: nat): nat
    requires k > 0
  {
    (n * w) % WORD / k
  }

  /** As many workers as there are threads, but none without an item. */
  function Workers(n: nat, threads: nat): (k: nat)
    ensures k <= n && k <= threads && (k == n || k == threads)
  {
    if n < threads then n else threads
  }

  /** The ranges follow each other from 0 to `n`, none is empty, and sizes differ by at most one. */
  ghost predicate Tiles(n: nat, k: nat)
    requires k > 0
  {
    && Cut(n, k, 0) == 0
    && Cut(n, k, k) == n
    && (forall w :: 0 <= w < k ==> Cut(n, k, w) < Cut(n, k, w + 1))
    && (forall w :: 0 <= w < k ==> n / k <= Cut(n, k, w + 1) - Cut(n, k, w) <= n / k + 1)
  }

  lemma Quotient(a: nat, k: nat, q: nat)
    requires q * k <= a < q * k + k
    ensures a / k == q
  {
    var p, r := a / k, a % k;
    assert a == p * k + r;
    assert p < q ==> (p + 1) * k <= q * k;
    assert q < p ==> (q + 1) * k <= p * k;
  }

  lemma QuotientStep(a: nat, n: nat, k: nat)
    requires k > 0
    ensures n / k <= (a + n) / k - a / k <= n / k + 1
  {
    var p, q := a / k, n / k;
    assert a == p * k + a % k && n == q * k + n % k;
    assert (p + q) * k == p * k + q * k && (p + q + 1) * k == p * k + q * k + k;
    Quotient(a + n, k, if a % k + n % k < k then p + q else p + q + 1);
  }

  lemma ProductGrows(n: nat, w: nat, k: nat)
    requires w <= k
    ensures n * w <= n * k
  {}

  lemma ExactCut(n: nat, k: nat, w: nat)
    requires 0 < k && w <= k && n * k < WORD
    ensures Cut(n, k, w) == n * w / k
  {
    ProductGrows(n, w, k);
  }

  lemma PieceSize(n: nat, k: nat, w: nat)
    requires 0 < k <= n && w < k && n * k < WORD
    ensures n / k <= Cut(n, k, w + 1) - Cut(n, k, w) <= n / k + 1
    ensures Cut(n, k, w) < Cut(n, k, w + 1)
  {
    ExactCut(n, k, w);
    ExactCut(n, k, w + 1);
    assert n * (w + 1) == n * w + n;
    QuotientStep(n * w, n, k);
    AtLeastOne(n, k);
  }

  lemma AtLeastOne(n: nat, k: nat)
    requires 0 < k <= n
    ensures n / k >= 1
  {
    assert n == (n / k) * k + n % k;
  }

  lemma LastCut(n: nat, k: nat)
    requires 0 < k && n * k < WORD
    ensures Cut(n, k, k) == n
  {
    ExactCut(n, k, k);
    Quotient(n * k, k, n);
  }

  /** Once the product wraps, no range reaches the last item. */
  lemma WrappedCut(n: nat, k: nat, w: nat)
    requires 0 < k <= n && n * k >= WORD
    ensures Cut(n, k, w) < n
  {
    var a := (n * w) % WORD;
    var q := a / k;
    assert a == q * k + a % k;
    assert q >= n ==> q * k >= n * k;
  }

  /** The ranges tile the items if and only if the item count times the worker count fits a word. */
  lemma TilesExactly(n: nat, k: nat)
    requires 0 < k <= n
    ensures Tiles(n, k) <==> n * k < WORD
  {
    if n * k < WORD {
      LastCut(n, k);
      forall w | 0 <= w < k
        ensures Cut(n, k, w) < Cut(n, k, w + 1) && n / k <= Cut(n, k, w + 1) - Cut(n, k, w) <= n / k + 1
      {
        PieceSize(n, k, w);
      }
    } else {
      WrappedCut(n, k, k);
    }
  }

  // ------------------------------------------------------------------------ sum

  /** The exact sum of what the first `w` workers add up. */
  ghost function Pieces(mix: nat -> nat, n: nat, k: nat, w: nat): nat
    requires k > 0
  {
    if w == 0 then 0 else Pieces(mix, n, k, w - 1) + Sum(mix, Cut(n, k, w - 1), Cut(n, k, w))
  }

  lemma {:induction false} PiecesTelescope(mix: nat -> nat, n: nat, k: nat, w: nat)
    requires 0 < k <= n && w <= k && n * k < WORD
    ensures Pieces(mix, n, k, w) == Sum(mix, 0, Cut(n, k, w))
    decreases w
  {
    if w > 0 {
      PieceSize(n, k, w - 1);
      PiecesTelescope(mix, n, k, w - 1);
      SumSplit(mix, 0, Cut(n, k, w - 1), Cut(n, k, w));
    }
  }

  function Spike(at: nat): nat -> nat { (i: nat) => if i == at then 1 else 0 }

  lemma {:induction false} SpikeSum(at: nat, lo: nat, hi: nat)
    ensures Sum(Spike(at), lo, hi) == if lo <= at < hi then 1 else 0
    decreases hi
  {
    if lo < hi {
      SpikeSum(at, lo, hi - 1);
    }
  }

  lemma {:induction false} LastItemLost(n: nat, k: nat, w: nat)
    requires 0 < k <= n && n * k >= WORD
    ensures Pieces(Spike(n - 1), n, k, w) == 0
    decreases w
  {
    if w > 0 {
      LastItemLost(n, k, w - 1);
      WrappedCut(n, k, w);
      SpikeSum(n - 1, Cut(n, k, w - 1), Cut(n, k, w));
    }
  }

  /** The serial checksum and the parallel one. */
  ghost function Serial(mix: nat -> nat, n: nat): nat { Sum(mix, 0, n) % WORD }

  ghost function Parallel(mix: nat -> nat, n: nat, k: nat): nat
    requires k > 0
  {
    Pieces(mix, n, k, k) % WORD
  }

  lemma ParallelIsSerial(mix: nat -> nat, n: nat, k: nat)
    requires 0 < k <= n && n * k < WORD
    ensures Parallel(mix, n, k) == Serial(mix, n)
  {
    PiecesTelescope(mix, n, k, k);
    LastCut(n, k);
  }

  /**
   The parallel checksum is the serial one, whatever the items' values, if and only if the item
   count times the worker count fits a word: past that the last item is in nobody's range.
   */
  lemma ParallelIsSerialExactly(n: nat, k: nat)
    requires 0 < k <= n
    ensures (forall mix: nat -> nat :: Parallel(mix, n, k) == Serial(mix, n)) <==> n * k < WORD
  {
    if n * k < WORD {
      forall mix: nat -> nat
        ensures Parallel(mix, n, k) == Serial(mix, n)
      {
        ParallelIsSerial(mix, n, k);
      }
    } else {
      LastItemLost(n, k, k);
      SpikeSum(n - 1, 0, n);
      assert Parallel(Spike(n - 1), n, k) != Serial(Spike(n - 1), n);
    }
  }

  lemma {:induction false} SumAgrees(mix: nat -> nat, mix': nat -> nat, at: nat, lo: nat, hi: nat)
    requires hi <= at && forall i: nat :: i != at ==> mix(i) == mix'(i)
    ensures Sum(mix, lo, hi) == Sum(mix', lo, hi)
    decreases hi
  {
    if lo < hi {
      SumAgrees(mix, mix', at, lo, hi - 1);
    }
  }

  lemma {:induction false} PiecesAgree(mix: nat -> nat, mix': nat -> nat, n: nat, k: nat, w: nat)
    requires 0 < k <= n && n * k >= WORD && forall i: nat :: i != n - 1 ==> mix(i) == mix'(i)
    ensures Pieces(mix, n, k, w) == Pieces(mix', n, k, w)
    decreases w
  {
    if w > 0 {
      PiecesAgree(mix, mix', n, k, w - 1);
      WrappedCut(n, k, w);
      SumAgrees(mix, mix', n - 1, Cut(n, k, w - 1), Cut(n, k, w));
    }
  }

  lemma WordCancel(a: nat, x: nat, y: nat)
    ensures (a + x) % WORD == (a + y) % WORD <==> x % WORD == y % WORD
  {}

  /**
   For each single choice of values too: past the limit the last item's value does not enter the
   parallel result, while the serial one changes whenever that value changes modulo a word.
   */
  lemma LastItemIgnored(mix: nat -> nat, mix': nat -> nat, n: nat, k: nat)
    requires 0 < k <= n && n * k >= WORD && forall i: nat :: i != n - 1 ==> mix(i) == mix'(i)
    ensures Parallel(mix, n, k) == Parallel(mix', n, k)
    ensures Serial(mix, n) == Serial(mix', n) <==> mix(n - 1) % WORD == mix'(n - 1) % WORD
  {
    PiecesAgree(mix, mix', n, k, k);
    SumAgrees(mix, mix', n - 1, 0, n - 1);
    WordCancel(Sum(mix, 0, n - 1), mix(n - 1), mix'(n - 1));
  }

  /** Two workers on 2^63 items: the second range is empty and half of the items are left out. */
  lemma TwoWorkersSumHalf(mix: nat -> nat)
    ensures Parallel(mix, WORD / 2, 2) == Serial(mix, WORD / 4)
  {
    var n := WORD / 2;
    assert Cut(n, 2, 0) == 0 && Cut(n, 2, 1) == WORD / 4 && Cut(n, 2, 2) == 0;
    assert Pieces(mix, n, 2, 1) == Pieces(mix, n, 2, 0) + Sum(mix, 0, WORD / 4);
    assert Pieces(mix, n, 2, 2) == Pieces(mix, n, 2, 1) + Sum(mix, WORD / 4, 0);
  }

  // ------------------------------------------------- a failing input of the program

  /** The source's per-item value, on 64-bit words. */
  function MixWord(value: bv64): bv64 {
    var a := value + 0x9e3779b97f4a7c15;
    var b := (a ^ (a >> 30)) * 0xbf58476d1ce4e5b9;
    var c := (b ^ (b >> 27)) * 0x94d049bb133111eb;
    c ^ (c >> 31)
  }

  function Mix(value: nat): nat { if value < WORD then MixWord(value as bv64) as nat else 0 }

  /** Four items for each worker, and a product that just wraps to zero. */
  predicate JustWraps(n: nat, k: nat) { k > 0 && n == 4 * k && n * k == WORD }

  lemma FourEach(n: nat, k: nat, w: nat)
    requires JustWraps(n, k) && w < k
    ensures Cut(n, k, w) == 4 * w
  {
    assert n * w == (4 * w) * k;
    assert n * w + n == n * (w + 1);
    ProductGrows(n, w + 1, k);
    Quotient(n * w, k, 4 * w);
  }

  lemma OnePieceMore(mix: nat -> nat, n: nat, k: nat, w: nat)
    requires k > 0 && w > 0
    ensures Pieces(mix, n, k, w) == Pieces(mix, n, k, w - 1) + Sum(mix, Cut(n, k, w - 1), Cut(n, k, w))
  {}

  lemma {:induction false} FourEachPieces(mix: nat -> nat, n: nat, k: nat, w: nat)
    requires JustWraps(n, k) && w < k
    ensures Pieces(mix, n, k, w) == Sum(mix, 0, 4 * w)
    decreases w
  {
    if w > 0 {
      FourEach(n, k, w - 1);
      FourEach(n, k, w);
      FourEachPieces(mix, n, k, w - 1);
      OnePieceMore(mix, n, k, w);
      SumSplit(mix, 0, 4 * (w - 1), 4 * w);
    }
  }

  lemma LastPieceIsEmpty(mix: nat -> nat, n: nat, k: nat)
    requires JustWraps(n, k)
    ensures Pieces(mix, n, k, k) == Pieces(mix, n, k, k - 1)
  {
    OnePieceMore(mix, n, k, k);
    assert Cut(n, k, k) == 0;
  }

  /** There the last worker's cut wraps to zero and exactly the last four items are lost. */
  lemma LastFourLost(mix: nat -> nat, n: nat, k: nat)
    requires JustWraps(n, k)
    ensures Parallel(mix, n, k) == Serial(mix, n - 4)
  {
    LastPieceIsEmpty(mix, n, k);
    FourEachPieces(mix, n, k, k - 1);
    assert 4 * (k - 1) == n - 4;
  }

  lemma Mix0()
    ensures Mix(0x1_FFFF_FFFC) == 0x6016c52f43d7f531
  {
    assert (0x1_FFFF_FFFC as nat) as bv64 == 0x1_FFFF_FFFC;
    assert MixWord(0x1_FFFF_FFFC) == 0x6016c52f43d7f531;
    assert (0x6016c52f43d7f531 as bv64) as nat == 0x6016c52f43d7f531;
  }

  lemma Mix1()
    ensures Mix(0x1_FFFF_FFFD) == 0xa1952e683d3589d0
  {
    assert (0x1_FFFF_FFFD as nat) as bv64 == 0x1_FFFF_FFFD;
    assert MixWord(0x1_FFFF_FFFD) == 0xa1952e683d3589d0;
    assert (0xa1952e683d3589d0 as bv64) as nat == 0xa1952e683d3589d0;
  }

  lemma Mix2()
    ensures Mix(0x1_FFFF_FFFE) == 0x12bb6bc15f51fd73
  {
    assert (0x1_FFFF_FFFE as nat) as bv64 == 0x1_FFFF_FFFE;
    assert MixWord(0x1_FFFF_FFFE) == 0x12bb6bc15f51fd73;
    assert (0x12bb6bc15f51fd73 as bv64) as nat == 0x12bb6bc15f51fd73;
  }

  lemma Mix3()
    ensures Mix(0x1_FFFF_FFFF) == 0xb0caed0a7bf9c2c8
  {
    assert (0x1_FFFF_FFFF as nat) as bv64 == 0x1_FFFF_FFFF;
    assert MixWord(0x1_FFFF_FFFF) == 0xb0caed0a7bf9c2c8;
    assert (0xb0caed0a7bf9c2c8 as bv64) as nat == 0xb0caed0a7bf9c2c8;
  }

  lemma LastFour(mix: nat -> nat, n: nat)
    requires n >= 4
    ensures Sum(mix, 0, n) == Sum(mix, 0, n - 4) + (mix(n - 4) + mix(n - 3) + mix(n - 2) + mix(n - 1))
  {
    assert Sum(mix, 0, n - 1) == Sum(mix, 0, n - 2) + mix(n - 2);
    assert Sum(mix, 0, n - 3) == Sum(mix, 0, n - 4) + mix(n - 4);
  }

  /** Leaving the last four items out goes unnoticed exactly if their values add up to a multiple of a word. */
  lemma WithoutLastFour(mix: nat -> nat, n: nat, tail: nat)
    requires n >= 4 && tail == mix(n - 4) + mix(n - 3) + mix(n - 2) + mix(n - 1)
    ensures Serial(mix, n - 4) == Serial(mix, n) <==> tail % WORD == 0
  {
    var head := Sum(mix, 0, n - 4);
    assert Serial(mix, n) == (head + tail) % WORD by {
      LastFour(mix, n);
    }
    WordCancel(head, tail, 0);
  }

  lemma DifferBy(mix: nat -> nat, n: nat, k: nat, tail: nat)
    requires JustWraps(n, k) && tail == mix(n - 4) + mix(n - 3) + mix(n - 2) + mix(n - 1)
    ensures Parallel(mix, n, k) == Serial(mix, n) <==> tail % WORD == 0
  {
    LastFourLost(mix, n, k);
    WithoutLastFour(mix, n, tail);
  }

  /** On 2^33 items and 2^31 threads the program's own parallel and serial checksums differ. */
  lemma ChecksumsDiffer(n: nat, k: nat)
    requires n == 0x2_0000_0000 && k == 0x8000_0000
    ensures Parallel(Mix, n, k) != Serial(Mix, n)
  {
    Mix0();
    Mix1();
    Mix2();
    Mix3();
    DifferBy(Mix, n, k, 0x1c5324c635c593f3c);
  }

  // --------------------------------------------------------------------- method

  datatype Outcome = Total(value: nat) | InvalidArgument

  /** The order in which the workers finish: each of the `k` once. */
  ghost predicate Schedule(order: seq<nat>, k: nat) {
    && (forall i :: 0 <= i < |order| ==> order[i] < k)
    && (forall i, j :: 0 <= i < j < |order| ==> order[i] != order[j])
    && (forall w: nat :: w < k ==> w in order)
  }

  /** What worker `w` leaves in its slot. */
  ghost function Partial(mix: nat -> nat, n: nat, k: nat, w: nat): nat
    requires k > 0
  {
    Sum(mix, Cut(n, k, w), Cut(n, k, w + 1)) % WORD
  }

  /** Whatever the finishing order, every slot ends up with its worker's word. */
  method RunWorkers(mix: nat -> nat, n: nat, k: nat, order: seq<nat>) returns (partials: array<nat>)
    requires k > 0 && Schedule(order, k)
    ensures fresh(partials) && partials.Length == k
    ensures forall w :: 0 <= w < k ==> partials[w] == Partial(mix, n, k, w)
  {
    partials := new nat[k](_ => 0);
    for i := 0 to |order|
      invariant forall w :: 0 <= w < k && w in order[..i] ==> partials[w] == Partial(mix, n, k, w)
    {
      var w := order[i];
      partials[w] := SumRange(mix, Cut(n, k, w), Cut(n, k, w + 1));
    }
    assert order[..|order|] == order;
  }

  method AddPartials(mix: nat -> nat, n: nat, k: nat, partials: array<nat>) returns (total: nat)
    requires k > 0 && partials.Length == k && forall w :: 0 <= w < k ==> partials[w] == Partial(mix, n, k, w)
    ensures total == Parallel(mix, n, k)
  {
    total := 0;
    for w := 0 to k
      invariant total == Pieces(mix, n, k, w) % WORD
    {
      WordAdd(Pieces(mix, n, k, w), Sum(mix, Cut(n, k, w), Cut(n, k, w + 1)));
      total := (total + partials[w]) % WORD;
    }
  }

  /** For every finishing order the result is the same; it is the serial checksum unless the cuts wrap. */
  method ParallelSum(mix: nat -> nat, n: nat, threads: nat, order: seq<nat>) returns (r: Outcome)
    requires n < WORD && threads < 0x1_0000_0000 && Schedule(order, Workers(n, threads))
    ensures threads == 0 <==> r.InvalidArgument?
    ensures threads > 0 && n == 0 ==> r == Total(0)
    ensures threads > 0 && n > 0 ==> r == Total(Parallel(mix, n, Workers(n, threads)))
    ensures threads > 0 && n * Workers(n, threads) < WORD ==> r == Total(Serial(mix, n))
  {
    if threads == 0 {
      return InvalidArgument;
    }
    if n == 0 {
      return Total(0);
    }
    var k := Workers(n, threads);
    var partials := RunWorkers(mix, n, k, order);
    var total := AddPartials(mix, n, k, partials);
    if n * k < WORD {
      ParallelIsSerial(mix, n, k);
    }
    r := Total(total);
  }
}
