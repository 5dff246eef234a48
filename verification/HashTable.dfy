/** The string hash table of strmap.c: an array of buckets, each a chain of key-value pairs. */
module HashTable {
  import opened Options
  import opened Seqs

  datatype Pair = Pair(key: string, value: string)

  type Bucket = seq<Pair>

  // ---------- Hashing ----------

  const WORD: nat := 0x1_0000_0000_0000_0000

  /** The hash as a number of unbounded size: 5381 followed by the character codes, read in base 33. */
  function Djb2(s: string, code: char -> int): int {
    if s == [] then 5381 else 33 * Djb2(s[..|s| - 1], code) + code(s[|s| - 1])
  }

  function Power33(n: nat): nat {
    if n == 0 then 1 else 33 * Power33(n - 1)
  }

  /** Each character code by its power of 33; the last character has power 0. */
  function CodeSum(s: string, code: char -> int): int {
    if s == "" then 0 else code(s[0]) * Power33(|s| - 1) + CodeSum(s[1..], code)
  }

  lemma {:induction false} CodeSumSnoc(s: string, c: char, code: char -> int)
    ensures CodeSum(s + [c], code) == 33 * CodeSum(s, code) + code(c)
  {
    if s == "" {
      assert ([] + [c])[1..] == "";
      assert [] + [c] == [c] && CodeSum("", code) == 0;
      assert CodeSum([c], code) == code(c) * Power33(0) + CodeSum([c][1..], code);
    } else {
      CodeSumSnoc(s[1..], c, code);
      assert (s + [c])[1..] == s[1..] + [c];
      Times33(code(s[0]), Power33(|s| - 1));
    }
  }

  lemma Times33(x: int, p: int)
    ensures x * (33 * p) == 33 * (x * p)
  {
  }

  /** The number is 5381 * 33^n plus the sum of every character's code times 33 to the number of characters
      behind it. */
  lemma {:induction false} Djb2Sum(s: string, code: char -> int)
    ensures Djb2(s, code) == 5381 * Power33(|s|) + CodeSum(s, code)
  {
    if s != "" {
      var n := |s| - 1;
      Djb2Sum(s[..n], code);
      CodeSumSnoc(s[..n], s[n], code);
      assert s == s[..n] + [s[n]];
    }
  }

  lemma WrapStep(x: int, y: int, c: int)
    requires x == y % WORD
    ensures (33 * x + c) % WORD == (33 * y + c) % WORD
  {
  }

  /** Wrapping to an unsigned 64-bit word after every character loses nothing but the final remainder.
      `code` is the integer value of a plain `char`, whose sign depends on the machine. */
  method Hash(str: string, code: char -> int) returns (hash: nat)
    ensures hash == Djb2(str, code) % 0x1_0000_0000_0000_0000
  {
    hash := 5381;
    var i := 0;
    while i < |str|
      invariant 0 <= i <= |str|
      invariant hash == Djb2(str[..i], code) % WORD
    {
      assert str[..i + 1][..i] == str[..i];
      WrapStep(hash, Djb2(str[..i], code), code(str[i]));
      hash := (33 * hash + code(str[i])) % WORD;
      i := i + 1;
    }
    assert str[..i] == str;
  }

  // ---------- Layouts: what the bucket array holds ----------

  /** Position of the first pair with this key, or the length of the chain. */
  function Find(bucket: Bucket, key: string): (i: nat)
    ensures i <= |bucket|
    ensures i < |bucket| ==> bucket[i].key == key
    ensures forall j :: 0 <= j < i ==> bucket[j].key != key
  {
    if bucket == [] then 0 else if bucket[0].key == key then 0 else 1 + Find(bucket[1..], key)
  }

  function Slot(b: seq<Bucket>, hash: string -> nat, key: string): (i: nat)
    requires |b| > 0
    ensures i < |b|
  {
    hash(key) % |b|
  }

  function PutBucket(bucket: Bucket, key: string, value: string): Bucket {
    var i := Find(bucket, key);
    if i < |bucket| then bucket[i := Pair(key, value)] else bucket + [Pair(key, value)]
  }

  function Put(b: seq<Bucket>, hash: string -> nat, key: string, value: string): (b': seq<Bucket>)
    requires |b| > 0
    ensures |b'| == |b|
  {
    var i := Slot(b, hash, key);
    b[i := PutBucket(b[i], key, value)]
  }

  /** The value the table gives for a key, if any. */
  function Lookup(b: seq<Bucket>, hash: string -> nat, key: string): Option<string>
    requires |b| > 0
  {
    var bucket := b[Slot(b, hash, key)];
    var i := Find(bucket, key);
    if i < |bucket| then Some(bucket[i].value) else None
  }

  /** No key occurs twice in a chain. */
  ghost predicate DistinctKeys(ps: seq<Pair>) {
    forall j, k :: 0 <= j < k < |ps| ==> ps[j].key != ps[k].key
  }

  /** Every pair is in the bucket its key hashes to, and no bucket holds a key twice. */
  ghost predicate WellPlaced(b: seq<Bucket>, hash: string -> nat) {
    && (forall i, j :: 0 <= i < |b| && 0 <= j < |b[i]| ==> hash(b[i][j].key) % |b| == i)
    && (forall i :: 0 <= i < |b| ==> DistinctKeys(b[i]))
  }

  /** The table as a finite map. */
  ghost function Contents(b: seq<Bucket>, hash: string -> nat): map<string, string>
    requires |b| > 0
  {
    map key | key in Keys(b) && Lookup(b, hash, key).Some? :: Lookup(b, hash, key).value
  }

  ghost function Keys(b: seq<Bucket>): set<string> {
    set p <- Flatten(b) :: p.key
  }

  function Empty(capacity: nat): seq<Bucket> {
    seq(capacity, i => [])
  }

  // ---------- The layout refines a map ----------

  lemma FindIs(bucket: Bucket, j: nat)
    requires DistinctKeys(bucket) && j < |bucket|
    ensures Find(bucket, bucket[j].key) == j
  {
  }

  lemma KeyInBucket(b: seq<Bucket>, hash: string -> nat, key: string)
    requires |b| > 0 && WellPlaced(b, hash)
    ensures key in Keys(b) <==> Lookup(b, hash, key).Some?
  {
    var s := Slot(b, hash, key);
    if Lookup(b, hash, key).Some? {
      var p := b[s][Find(b[s], key)];
      InFlatten(b, p);
    }
    if key in Keys(b) {
      var p :| p in Flatten(b) && p.key == key;
      InFlatten(b, p);
      var i :| 0 <= i < |b| && p in b[i];
      var j :| 0 <= j < |b[i]| && b[i][j] == p;
    }
  }

  /** Looking a key up in the table is looking it up in the map. */
  lemma LookupRefines(b: seq<Bucket>, hash: string -> nat, key: string)
    requires |b| > 0 && WellPlaced(b, hash)
    ensures Lookup(b, hash, key) ==
            if key in Contents(b, hash) then Some(Contents(b, hash)[key]) else None
  {
    KeyInBucket(b, hash, key);
  }

  lemma PutBucketKey(bucket: Bucket, key: string, value: string)
    requires DistinctKeys(bucket)
    ensures var c := PutBucket(bucket, key, value);
            DistinctKeys(c) && Find(c, key) < |c| && c[Find(c, key)].value == value
  {
    FindIs(PutBucket(bucket, key, value), Find(bucket, key));
  }

  lemma PutBucketLookup(bucket: Bucket, key: string, value: string, other: string)
    requires DistinctKeys(bucket)
    ensures var c := PutBucket(bucket, key, value);
            && DistinctKeys(c)
            && (other != key ==>
                  && (Find(c, other) < |c| <==> Find(bucket, other) < |bucket|)
                  && (Find(c, other) < |c| ==>
                        c[Find(c, other)].value == bucket[Find(bucket, other)].value))
            && Find(c, key) < |c| && c[Find(c, key)].value == value
  {
    PutBucketKey(bucket, key, value);
    var c := PutBucket(bucket, key, value);
    var o := Find(bucket, other);
    if other != key && o < |bucket| {
      FindIs(c, o);
    }
  }

  lemma PutPlaced(b: seq<Bucket>, hash: string -> nat, key: string, value: string)
    requires |b| > 0 && WellPlaced(b, hash)
    ensures WellPlaced(Put(b, hash, key, value), hash)
  {
    var s := Slot(b, hash, key);
    PutBucketLookup(b[s], key, value, key);
    var c: seq<Bucket> := Put(b, hash, key, value);
    forall i: int, j: int | 0 <= i < |c| && 0 <= j < |c[i]|
      ensures hash(c[i][j].key) % |c| == i
    {
      if i == s && j < |b[i]| {
        assert c[i][j].key == b[i][j].key;
      }
    }
  }

  lemma PutLookup(b: seq<Bucket>, hash: string -> nat, key: string, value: string, other: string)
    requires |b| > 0 && WellPlaced(b, hash)
    ensures Lookup(Put(b, hash, key, value), hash, other) ==
            if other == key then Some(value) else Lookup(b, hash, other)
  {
    PutBucketLookup(b[Slot(b, hash, key)], key, value, other);
  }

  /** Storing a pair is updating the map, and keeps every pair where it belongs. */
  lemma PutRefines(b: seq<Bucket>, hash: string -> nat, key: string, value: string)
    requires |b| > 0 && WellPlaced(b, hash)
    ensures WellPlaced(Put(b, hash, key, value), hash)
    ensures Contents(Put(b, hash, key, value), hash) == Contents(b, hash)[key := value]
  {
    var c := Put(b, hash, key, value);
    PutPlaced(b, hash, key, value);
    var m, m' := Contents(b, hash)[key := value], Contents(c, hash);
    forall other
      ensures other in m <==> other in m'
      ensures other in m ==> m[other] == m'[other]
    {
      PutLookup(b, hash, key, value, other);
      LookupRefines(b, hash, other);
      LookupRefines(c, hash, other);
    }
    assert m.Keys == m'.Keys;
  }

  /** Pairs in enumeration order: bucket by bucket, each chain from its head. */
  function Pairs(b: seq<Bucket>): seq<Pair> {
    Flatten(b)
  }

  lemma {:induction false} PairsDistinct(b: seq<Bucket>, hash: string -> nat, n: nat)
    requires |b| > 0 && WellPlaced(b, hash) && n <= |b|
    ensures DistinctKeys(Flatten(b[..n]))
    ensures forall p :: p in Flatten(b[..n]) ==> hash(p.key) % |b| < n
  {
    if n > 0 {
      PairsDistinct(b, hash, n - 1);
      assert b[..n][..n - 1] == b[..n - 1];
      var front := Flatten(b[..n - 1]);
      var ps := front + b[n - 1];
      forall j, k | 0 <= j < k < |ps|
        ensures ps[j].key != ps[k].key
      {
        assert j < |front| ==> front[j] in front;
      }
    }
  }

  /** Enumeration visits the pairs of the map, each exactly once. */
  lemma EnumeratesMap(b: seq<Bucket>, hash: string -> nat)
    requires |b| > 0 && WellPlaced(b, hash)
    ensures DistinctKeys(Pairs(b))
    ensures forall k, v :: Pair(k, v) in Pairs(b) <==> k in Contents(b, hash) && Contents(b, hash)[k] == v
  {
    assert b[..|b|] == b;
    PairsDistinct(b, hash, |b|);
    forall k, v
      ensures Pair(k, v) in Pairs(b) <==> k in Contents(b, hash) && Contents(b, hash)[k] == v
    {
      KeyInBucket(b, hash, k);
      InFlatten(b, Pair(k, v));
      var s := Slot(b, hash, k);
      if Pair(k, v) in Pairs(b) {
        var i :| 0 <= i < |b| && Pair(k, v) in b[i];
        var j :| 0 <= j < |b[i]| && b[i][j] == Pair(k, v);
        FindIs(b[i], j);
      }
    }
  }

  lemma {:induction false} DistinctCount(ps: seq<Pair>)
    requires DistinctKeys(ps)
    ensures |set p <- ps :: p.key| == |ps|
  {
    if ps != [] {
      var n := |ps| - 1;
      DistinctCount(ps[..n]);
      var front := set p <- ps[..n] :: p.key;
      assert ps == ps[..n] + [ps[n]];
      assert (set p <- ps :: p.key) == front + {ps[n].key};
      assert ps[n].key !in front;
    }
  }

  /** The number of stored pairs is the size of the map. */
  lemma CountIsSize(b: seq<Bucket>, hash: string -> nat)
    requires |b| > 0 && WellPlaced(b, hash)
    ensures |Pairs(b)| == |Contents(b, hash)|
  {
    EnumeratesMap(b, hash);
    DistinctCount(Pairs(b));
    forall key
      ensures key in Keys(b) <==> Lookup(b, hash, key).Some?
    {
      KeyInBucket(b, hash, key);
    }
    assert Contents(b, hash).Keys == Keys(b);
    assert |Contents(b, hash)| == |Contents(b, hash).Keys|;
  }

  // ---------- Rebuilding a table from its enumeration ----------

  /** Stores the pairs one after the other. */
  function PutAll(b: seq<Bucket>, hash: string -> nat, ps: seq<Pair>): (b': seq<Bucket>)
    requires |b| > 0
    ensures |b'| == |b|
  {
    if ps == [] then b else Put(PutAll(b, hash, ps[..|ps| - 1]), hash, ps[|ps| - 1].key, ps[|ps| - 1].value)
  }

  lemma {:induction false} PutAllAppend(b: seq<Bucket>, hash: string -> nat, ps: seq<Pair>, qs: seq<Pair>)
    requires |b| > 0
    ensures PutAll(b, hash, ps + qs) == PutAll(PutAll(b, hash, ps), hash, qs)
    decreases |qs|
  {
    hide Put;
    if qs == [] {
      assert ps + qs == ps;
    } else {
      var n := |qs| - 1;
      PutAllAppend(b, hash, ps, qs[..n]);
      assert (ps + qs)[..|ps| + n] == ps + qs[..n];
    }
  }

  /** Storing a chain's own pairs in order into an empty bucket rebuilds the chain. */
  lemma {:induction false} RebuildBucket(b: seq<Bucket>, hash: string -> nat, i: nat, chain: Bucket)
    requires i < |b| && b[i] == [] && DistinctKeys(chain)
    requires forall p :: p in chain ==> hash(p.key) % |b| == i
    ensures PutAll(b, hash, chain) == b[i := chain]
    decreases |chain|
  {
    hide WellPlaced;
    hide Put;
    if chain != [] {
      var n := |chain| - 1;
      RebuildBucket(b, hash, i, chain[..n]);
      assert chain[n] in chain;
      PutLast(b[i := chain[..n]], hash, i, chain);
    }
  }

  lemma PutLast(b: seq<Bucket>, hash: string -> nat, i: nat, chain: Bucket)
    requires i < |b| && chain != [] && b[i] == chain[..|chain| - 1] && DistinctKeys(chain)
    requires hash(chain[|chain| - 1].key) % |b| == i
    ensures Put(b, hash, chain[|chain| - 1].key, chain[|chain| - 1].value) == b[i := chain]
  {
    var n := |chain| - 1;
    assert Find(b[i], chain[n].key) == n;
    assert b[i] + [chain[n]] == chain;
  }

  lemma {:induction false} RebuildPrefix(b: seq<Bucket>, hash: string -> nat, n: nat)
    requires |b| > 0 && WellPlaced(b, hash) && n <= |b|
    ensures PutAll(Empty(|b|), hash, Flatten(b[..n])) == b[..n] + Empty(|b| - n)
  {
    hide Put;
    if n > 0 {
      RebuildPrefix(b, hash, n - 1);
      assert b[..n][..n - 1] == b[..n - 1];
      var front := Flatten(b[..n - 1]);
      var c := b[..n - 1] + Empty(|b| - (n - 1));
      PutAllAppend(Empty(|b|), hash, front, b[n - 1]);
      RebuildBucket(c, hash, n - 1, b[n - 1]);
    }
  }

  /** Re-inserting the enumerated pairs into an empty table of the same capacity gives back
      every bucket, pair for pair and in order. */
  lemma Rebuild(b: seq<Bucket>, hash: string -> nat)
    requires |b| > 0 && WellPlaced(b, hash)
    ensures PutAll(Empty(|b|), hash, Pairs(b)) == b
  {
    RebuildPrefix(b, hash, |b|);
    assert b[..|b|] == b;
  }

  // ---------- Runs of operations ----------

  /** An arbitrary sequence of stores is the same sequence of map updates, from an empty map. */
  function Updates(ps: seq<Pair>): map<string, string> {
    if ps == [] then map[] else Updates(ps[..|ps| - 1])[ps[|ps| - 1].key := ps[|ps| - 1].value]
  }

  lemma EmptyIsEmpty(capacity: nat, hash: string -> nat)
    requires capacity > 0
    ensures WellPlaced(Empty(capacity), hash)
    ensures Contents(Empty(capacity), hash) == map[]
  {
  }

  lemma {:induction false} RunRefines(capacity: nat, hash: string -> nat, ps: seq<Pair>)
    requires capacity > 0
    ensures WellPlaced(PutAll(Empty(capacity), hash, ps), hash)
    ensures Contents(PutAll(Empty(capacity), hash, ps), hash) == Updates(ps)
  {
    if ps == [] {
      EmptyIsEmpty(capacity, hash);
    } else {
      var n := |ps| - 1;
      RunRefines(capacity, hash, ps[..n]);
      PutRefines(PutAll(Empty(capacity), hash, ps[..n]), hash, ps[n].key, ps[n].value);
    }
  }
}
