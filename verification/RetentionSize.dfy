/** How much data the ring keeps: the size the program gives it (`main`), and how many files are on disk. */
module RetentionSize {
  import opened Options
  import opened DateTree
  import opened HpTime
  import opened NumberTheory
  import opened Store
  import opened StoreRuns
  import opened Retention

  // ---------- The size of the ring ----------

  /** The samples of so many hours. */
  function Samples(hours: real, rate: nat): real {
    hours * 3600.0 * rate as real
  }

  /** `file_index_modulo`: the files that hold `hours` of samples at the nominal rate, rounded down. */
  function RingSize(hours: real, rate: nat, perRecord: nat, perFile: nat): int
    requires perRecord > 0 && perFile > 0
  {
    Trunc(Samples(hours, rate) / (perRecord * perFile) as real)
  }

  function Product(x: real, k: real): real {
    x * k
  }

  lemma WholeQuotient(x: real, k: real)
    requires k > 0.0 && x >= 0.0
    ensures Trunc(x / k) >= 0
    ensures Product(Trunc(x / k) as real, k) <= x < Product((Trunc(x / k) + 1) as real, k)
    ensures Trunc(x / k) > 0 <==> x >= k
  {
    hide Product;
    var q := x / k;
    QuotientProduct(x, k, q);
    ProductOrder(k, 0.0, q);
    ProductOrder(k, q.Floor as real, q);
    ProductOrder(k, (q.Floor + 1) as real, q);
    ProductOrder(k, 1.0, q);
  }

  lemma QuotientProduct(x: real, k: real, q: real)
    requires k > 0.0 && q == x / k
    ensures Product(q, k) == x && Product(0.0, k) == 0.0 && Product(1.0, k) == k
  {
  }

  lemma ProductOrder(k: real, x: real, y: real)
    requires k > 0.0
    ensures x <= y <==> Product(x, k) <= Product(y, k)
  {
  }

  lemma ProductAsReal(a: nat, b: nat)
    ensures (a * b) as real == a as real * b as real
  {
  }

  lemma SamplesAre(hours: real, rate: nat)
    ensures Samples(hours, rate) == hours * 3600.0 * rate as real
    ensures hours >= 0.0 ==> Samples(hours, rate) >= 0.0
  {
  }

  /** The files of a full ring hold at most the hours asked for, and with one file more they would hold more;
      the ring has a slot at all exactly when the hours fill a file. */
  lemma RingCovers(hours: real, rate: nat, perRecord: nat, perFile: nat)
    requires perRecord > 0 && perFile > 0 && hours >= 0.0
    ensures var size, samples := RingSize(hours, rate, perRecord, perFile), hours * 3600.0 * rate as real;
            && (size * (perRecord * perFile)) as real <= samples < ((size + 1) * (perRecord * perFile)) as real
            && (size > 0 <==> samples >= (perRecord * perFile) as real)
  {
    hide Samples;
    hide Trunc;
    var k := perRecord * perFile;
    AtLeast(perRecord, perFile);
    SamplesAre(hours, rate);
    var size := Trunc(Samples(hours, rate) / k as real);
    WholeQuotient(Samples(hours, rate), k as real);
    ProductAsReal(size, k);
    ProductAsReal(size + 1, k);
  }

  /** Ten minutes at 20 samples a second, in files of 3 records of 228 two-byte samples: a ring of 17 slots. */
  lemma ShippedRing()
    ensures RingSize(0.16666667, 20, 228, 3) == 17
  {
    assert Samples(0.16666667, 20) == 12000.00024;
  }

  // ---------- The files on disk ----------

  /** The ring is used fully exactly when its size and the records in a file have no common divisor. */
  lemma FullRing(c: Config)
    requires c.ring > 0
    ensures PeriodOf(c) == c.ring <==> Gcd(c.ring, c.perFile) == 1
  {
    hide Gcd;
    hide Period;
    var p, g := PeriodOf(c), Gcd(c.ring, c.perFile);
    assert p * g == c.ring;
    if p == c.ring {
      Cancel(g, 1, p);
    }
  }

  /** How many of the first `n` files began at or before the epoch. */
  function EarlyCount(starts: seq<int>, n: nat): nat
    requires n <= |starts|
  {
    if n == 0 then 0 else EarlyCount(starts, n - 1) + if starts[n - 1] <= 0 then 1 else 0
  }

  ghost predicate LateStarts(starts: seq<int>) {
    forall j :: 0 <= j < |starts| ==> starts[j] > 0
  }

  lemma {:induction false} NoneEarly(starts: seq<int>, n: nat)
    requires n <= |starts| && LateStarts(starts)
    ensures EarlyCount(starts, n) == 0
  {
    if n > 0 {
      NoneEarly(starts, n - 1);
    }
  }

  function KeptPaths(starts: seq<int>, from: int, to: nat): set<Path>
    requires to <= |starts|
  {
    set j | 0 <= j < to && Kept(starts, from, j) :: PathOf(starts[j])
  }

  function KeptCount(starts: seq<int>, from: int, to: nat): nat
    requires to <= |starts|
  {
    if to == 0 then 0 else KeptCount(starts, from, to - 1) + if Kept(starts, from, to - 1) then 1 else 0
  }

  lemma {:induction false} PathsCount(starts: seq<int>, from: int, to: nat)
    requires to <= |starts| && GoodStarts(starts)
    ensures |KeptPaths(starts, from, to)| == KeptCount(starts, from, to)
  {
    hide PathOf;
    hide GoodStarts;
    hide Kept;
    if to > 0 {
      PathsCount(starts, from, to - 1);
      var front, last := KeptPaths(starts, from, to - 1), PathOf(starts[to - 1]);
      forall j | 0 <= j < to - 1
        ensures PathOf(starts[j]) != last
      {
        PathsDiffer(starts, j, to - 1);
      }
      assert KeptPaths(starts, from, to) == if Kept(starts, from, to - 1) then front + {last} else front;
    }
  }

  lemma {:induction false} KeptCountIs(starts: seq<int>, from: int, to: nat)
    requires to <= |starts|
    ensures KeptCount(starts, from, to) ==
            if from <= 0 then to
            else if from <= to then EarlyCount(starts, from) + (to - from)
            else EarlyCount(starts, to)
  {
    if to > 0 {
      KeptCountIs(starts, from, to - 1);
    }
  }

  /** While a file is written there are on disk as many permanent files as were written before it, up to one less
      than the period, and besides those older ones that began at or before the epoch. */
  lemma RetainedCount(c: Config, s0: nat, events: seq<Event>, s: State, starts: seq<int>)
    requires Good(c) && s0 < c.ring && Uninterrupted(events)
    requires Run(c, Begin(c, s0), events) == Some(s) && starts == Starts(c, Begin(c, s0), events)
    requires GoodStarts(starts) && InFile(s)
    ensures |s.files| == if |starts| <= PeriodOf(c) then |starts| - 1
                         else PeriodOf(c) - 1 + EarlyCount(starts, |starts| - PeriodOf(c))
    ensures LateStarts(starts) ==> |s.files| == if |starts| <= PeriodOf(c) then |starts| - 1 else PeriodOf(c) - 1
  {
    hide Starts;
    hide GoodStarts;
    hide PathOf;
    hide FilesAre;
    hide Run;
    hide PeriodOf;
    hide LateStarts;
    RetainedFiles(c, s0, events, s, starts);
    FilesCount(s.files.Keys, starts, |starts| - PeriodOf(c), |starts| - 1);
    if |starts| > PeriodOf(c) && LateStarts(starts) {
      NoneEarly(starts, |starts| - PeriodOf(c));
    }
    assert |s.files| == |s.files.Keys|;
  }

  lemma FilesCount(files: set<Path>, starts: seq<int>, from: int, to: nat)
    requires to <= |starts| && from <= to && FilesAre(files, starts, from, to) && GoodStarts(starts)
    ensures |files| == if from <= 0 then to else EarlyCount(starts, from) + (to - from)
  {
    hide PathOf;
    hide GoodStarts;
    hide Kept;
    PathsCount(starts, from, to);
    KeptCountIs(starts, from, to);
    assert files == KeptPaths(starts, from, to);
  }

  /** Files of 3 records on rings that differ by one slot: while a file is written there are never more than 5
      permanent files with 18 slots, and 16 from the 17th file on with 17 slots. */
  lemma SharedStride(c: Config, s0: nat, events: seq<Event>, s: State, starts: seq<int>)
    requires Good(c) && s0 < c.ring && Uninterrupted(events) && c.perFile == 3
    requires Run(c, Begin(c, s0), events) == Some(s) && starts == Starts(c, Begin(c, s0), events)
    requires GoodStarts(starts) && LateStarts(starts) && InFile(s)
    ensures c.ring == 18 ==> |s.files| <= 5
    ensures c.ring == 17 && |starts| >= 17 ==> |s.files| == 16
  {
    hide Starts;
    hide GoodStarts;
    hide LateStarts;
    hide Run;
    hide PeriodOf;
    RetainedCount(c, s0, events, s, starts);
    Strides(c);
  }

  lemma Strides(c: Config)
    requires c.perFile == 3
    ensures c.ring == 18 ==> PeriodOf(c) == 6
    ensures c.ring == 17 ==> PeriodOf(c) == 17
  {
    assert Gcd(18, 3) == Gcd(3, 0) == 3;
    assert Gcd(17, 3) == Gcd(3, 2) == Gcd(2, 1) == Gcd(1, 0) == 1;
  }

  /** With the ring size the program computes, records in a file that share no divisor with it, and a run long
      enough: the permanent files and the file being written together span at most the hours asked for, and
      one more file would span more. */
  lemma HoursKept(c: Config, s0: nat, events: seq<Event>, s: State, starts: seq<int>, hours: real, rate: nat)
    requires Good(c) && s0 < c.ring && Uninterrupted(events)
    requires Run(c, Begin(c, s0), events) == Some(s) && starts == Starts(c, Begin(c, s0), events)
    requires GoodStarts(starts) && LateStarts(starts) && InFile(s)
    requires hours >= 0.0 && c.ring == RingSize(hours, rate, c.perRecord, c.perFile)
    requires Gcd(c.ring, c.perFile) == 1 && |starts| >= c.ring
    ensures |s.files| + 1 == c.ring
    ensures var samples, perFile := hours * 3600.0 * rate as real, c.perRecord * c.perFile;
            ((|s.files| + 1) * perFile) as real <= samples < ((|s.files| + 2) * perFile) as real
  {
    hide Starts;
    hide GoodStarts;
    hide LateStarts;
    hide Run;
    hide Gcd;
    hide RingSize;
    RetainedCount(c, s0, events, s, starts);
    FullRing(c);
    hide PeriodOf;
    RingCovers(hours, rate, c.perRecord, c.perFile);
  }
}
