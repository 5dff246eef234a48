/** The StrMap object of strmap.c: bucket chains updated in place, with the room allocated for each value. */
module StrMaps {
  import opened Options
  import opened Seqs
  import opened CStrings
  import opened HashTable

  /** Which of the allocations one store may ask for are granted. */
  datatype Memory = Memory(largerValue: bool, newKey: bool, newValue: bool, newPair: bool)

  const PLENTY := Memory(true, true, true, true)

  /** Every allocation the store asks for is granted: replacing a value asks only for a longer one. */
  predicate Granted(b: seq<Bucket>, hash: string -> nat, key: string, value: string, mem: Memory)
    requires |b| > 0
  {
    match Lookup(b, hash, key)
    case Some(present) => |value| <= |present| || mem.largerValue
    case None => mem.newKey && mem.newValue && mem.newPair
  }

  /** What an enumeration writes: the callback's text for each pair, in order. */
  function Emitted(emit: (string, string) -> string, ps: seq<Pair>): string {
    if ps == [] then ""
    else Emitted(emit, ps[..|ps| - 1]) + emit(ps[|ps| - 1].key, ps[|ps| - 1].value)
  }

  lemma EmittedLast(emit: (string, string) -> string, ps: seq<Pair>, p: Pair)
    ensures Emitted(emit, ps + [p]) == Emitted(emit, ps) + emit(p.key, p.value)
  {
    assert (ps + [p])[..|ps|] == ps;
  }

  lemma EmittedNone(emit: (string, string) -> string)
    ensures Emitted(emit, []) == ""
  {
  }

  lemma EmittedStep(emit: (string, string) -> string, front: seq<Pair>, bucket: Bucket, j: nat)
    requires j < |bucket|
    ensures Emitted(emit, front + bucket[..j + 1]) ==
            Emitted(emit, front + bucket[..j]) + emit(bucket[j].key, bucket[j].value)
  {
    assert (front + bucket[..j + 1])[..|front| + j] == front + bucket[..j];
  }

  /** Keys and values are C strings, and each value and its terminator fit the bytes allocated for it. */
  ghost predicate Roomy(b: seq<Bucket>, rooms: seq<seq<nat>>) {
    && |rooms| == |b|
    && forall i :: 0 <= i < |b| ==> RoomyChain(b[i], rooms[i])
  }

  ghost predicate RoomyChain(bucket: Bucket, rooms: seq<nat>) {
    && |rooms| == |bucket|
    && forall j :: 0 <= j < |bucket| ==>
         Plain(bucket[j].key) && Plain(bucket[j].value) && |bucket[j].value| < rooms[j]
  }

  class StrMap {
    const hash: string -> nat
    const buckets: array<Bucket>
    const rooms: array<seq<nat>>  // bytes allocated for each value

    ghost function Footprint(): set<object> {
      {buckets, rooms}
    }

    /** The chains as stored. */
    ghost function View(): seq<Bucket>
      reads buckets
    {
      buckets[..]
    }

    ghost predicate Valid()
      reads buckets, rooms
    {
      && (rooms as object) != buckets
      && WellPlaced(buckets[..], hash)
      && Roomy(buckets[..], rooms[..])
    }

    constructor (capacity: nat, hash: string -> nat)
      ensures Valid() && fresh(Footprint())
      ensures this.hash == hash && View() == Empty(capacity)
    {
      this.hash := hash;
      buckets := new Bucket[capacity](_ => []);
      rooms := new seq<nat>[capacity](_ => []);
      new;
    }

    /** Position of the pair with this key in the chain, or the chain's length. */
    static method GetPair(bucket: Bucket, key: string) returns (i: nat)
      ensures i == Find(bucket, key)
    {
      i := 0;
      while i < |bucket|
        invariant 0 <= i <= |bucket|
        invariant Find(bucket, key) == i + Find(bucket[i..], key)
      {
        if bucket[i].key == key {
          return;
        }
        i := i + 1;
      }
    }

    /** Copies the value for `key` into the caller's buffer of `n` characters. Without a buffer and
        with `n` zero, answers how many bytes the value needs. */
    method Get(key: string, out: array?<char>, n: nat) returns (r: nat)
      requires Valid() && buckets.Length > 0
      requires out != null ==> n <= out.Length
      modifies if out == null then {} else {out}
      ensures var found := Lookup(View(), hash, key);
              r == if found == None then 0
                   else if out == null then (if n == 0 then |found.value| + 1 else 0)
                   else if |found.value| < n then 1 else 0
      ensures out != null && r == 1 ==> Some(CString(out[..])) == Lookup(View(), hash, key)
      ensures out != null && r == 0 ==> out[..] == old(out[..])
    {
      var bucket := buckets[hash(key) % buckets.Length];
      var i := GetPair(bucket, key);
      if i == |bucket| {
        return 0;
      }
      if out == null && n == 0 {
        return |bucket[i].value| + 1;
      }
      if out == null {
        return 0;
      }
      if |bucket[i].value| >= n {
        return 0;
      }
      StrCpy(out, bucket[i].value);
      return 1;
    }

    method Exists(key: string) returns (r: bool)
      requires Valid() && buckets.Length > 0
      ensures r <==> key in Contents(View(), hash)
    {
      var bucket := buckets[hash(key) % buckets.Length];
      var i := GetPair(bucket, key);
      r := i < |bucket|;
      LookupRefines(View(), hash, key);
    }

    /** Stores a pair. A refused allocation leaves the table as it was; a granted one makes it the
        updated map, in the layout `Put` gives. */
    method Put(key: string, value: string, mem: Memory) returns (ok: bool)
      requires Valid() && buckets.Length > 0
      requires Plain(key) && Plain(value)
      modifies buckets, rooms
      ensures Valid()
      ensures ok == old(Granted(View(), hash, key, value, mem))
      ensures View() == if ok then HashTable.Put(old(View()), hash, key, value) else old(View())
      ensures Contents(View(), hash) ==
              if ok then old(Contents(View(), hash))[key := value] else old(Contents(View(), hash))
    {
      PutRefines(View(), hash, key, value);
      var index := hash(key) % buckets.Length;
      var bucket := buckets[index];
      assert RoomyChain(bucket, rooms[..][index]);
      var i := GetPair(bucket, key);
      if i < |bucket| {
        ok := Replace(index, i, key, value, mem.largerValue);
      } else {
        ok := Append(index, key, value, mem);
      }
    }

    /** The part of `Put` that changes the value of a pair already stored. */
    method Replace(index: nat, i: nat, key: string, value: string, larger: bool) returns (ok: bool)
      requires Valid() && index < buckets.Length && i < |buckets[index]|
      requires index == Slot(View(), hash, key) && i == Find(buckets[index], key)
      requires Plain(key) && Plain(value)
      modifies buckets, rooms
      ensures Valid()
      ensures ok == (|value| <= |old(buckets[index][i].value)| || larger)
      ensures View() == if ok then HashTable.Put(old(View()), hash, key, value) else old(View())
    {
      PutPlaced(View(), hash, key, value);
      var bucket := buckets[index];
      assert RoomyChain(bucket, rooms[..][index]);
      if |bucket[i].value| < |value| {
        if !larger {
          return false;
        }
        rooms[index] := rooms[index][i := |value| + 1];
      }
      // the copy in place writes the value and its terminator
      assert |value| + 1 <= rooms[index][i];
      buckets[index] := bucket[i := bucket[i].(value := value)];
      assert buckets[index] == PutBucket(bucket, key, value);
      assert RoomyChain(buckets[index], rooms[index]);
      return true;
    }

    /** The part of `Put` that adds a pair at the end of its chain. */
    method Append(index: nat, key: string, value: string, mem: Memory) returns (ok: bool)
      requires Valid() && index < buckets.Length
      requires index == Slot(View(), hash, key) && |buckets[index]| == Find(buckets[index], key)
      requires Plain(key) && Plain(value)
      modifies buckets, rooms
      ensures Valid()
      ensures ok == (mem.newKey && mem.newValue && mem.newPair)
      ensures View() == if ok then HashTable.Put(old(View()), hash, key, value) else old(View())
    {
      PutPlaced(View(), hash, key, value);
      if !mem.newKey {
        return false;
      }
      if !mem.newValue {
        return false;
      }
      if !mem.newPair {
        return false;
      }
      var bucket := buckets[index];
      assert RoomyChain(bucket, rooms[..][index]);
      rooms[index] := rooms[index] + [|value| + 1];
      buckets[index] := bucket + [Pair(key, value)];
      assert RoomyChain(buckets[index], rooms[index]);
      return true;
    }

    method GetCount() returns (count: nat)
      requires Valid() && buckets.Length > 0
      ensures count == |Contents(View(), hash)|
    {
      count := 0;
      var i := 0;
      while i < buckets.Length
        invariant 0 <= i <= buckets.Length
        invariant count == |Flatten(View()[..i])|
      {
        assert View()[..i + 1][..i] == View()[..i];
        var m := |buckets[i]|;
        var j := 0;
        while j < m
          invariant 0 <= j <= m
          invariant count == |Flatten(View()[..i])| + j
        {
          count := count + 1;
          j := j + 1;
        }
        i := i + 1;
      }
      assert View()[..i] == View();
      CountIsSize(View(), hash);
    }

    /** Hands every pair to the callback, bucket by bucket; `stream` gathers what the callback writes. */
    method Enum(emit: (string, string) -> string, stream: string) returns (out: string)
      requires Valid()
      ensures out == stream + Emitted(emit, Pairs(View()))
    {
      hide WellPlaced;
      hide Roomy;
      hide Emitted;
      EmittedNone(emit);
      out := stream;
      ghost var b := View();
      var i := 0;
      while i < buckets.Length
        invariant 0 <= i <= buckets.Length
        invariant out == stream + Emitted(emit, Flatten(b[..i]))
      {
        ghost var front := Flatten(b[..i]);
        assert Flatten(b[..i + 1]) == front + b[i] by {
          assert b[..i + 1][..i] == b[..i];
        }
        var bucket := buckets[i];
        assert front + bucket[..0] == front;
        var j := 0;
        while j < |bucket|
          invariant 0 <= j <= |bucket|
          invariant out == stream + Emitted(emit, front + bucket[..j])
        {
          EmittedStep(emit, front, bucket, j);
          var text := emit(bucket[j].key, bucket[j].value);
          assert out + text == stream + (Emitted(emit, front + bucket[..j]) + text);
          out := out + text;
          j := j + 1;
        }
        assert bucket[..j] == bucket;
        i := i + 1;
      }
      assert b[..i] == b;
    }
  }
}
