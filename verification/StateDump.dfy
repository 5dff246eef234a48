/** Saving the ring of file times on termination and restoring it on start (`term_handler`, `main`). */
module StateDump {
  import opened Options
  import opened Seqs
  import opened Numbers
  import opened NumberTheory

  /** The position `j` places after `i` on a ring of `m`. */
  function After(i: nat, j: nat, m: nat): (p: nat)
    requires m > 0
    ensures p < m
  {
    (i + j) % m
  }

  lemma AfterNext(i: nat, j: nat, m: nat)
    requires m > 0
    ensures After(After(i, 1, m), j, m) == After(i, j + 1, m)
    ensures i < m ==> After(i, 0, m) == i && After(i, m, m) == i
    ensures i < m && 0 < j < m ==> After(i, j, m) != i
  {
    ModAdd(i + 1, j, m);
    if i < m {
      ModShift(i, 1, m);
      ModSmall(i, m);
      if 0 < j < m && After(i, j, m) == i {
        ModEqual(i + j, i, m);
        DividesSmall(m, j);
      }
    }
  }

  /** The ring read from the index on, once around. */
  function Rotated(index: nat, list: seq<int>): seq<int>
    requires |list| > 0
  {
    seq(|list|, j requires 0 <= j < |list| => list[After(index, j, |list|)])
  }

  /** Numbers as printed, each followed by a blank. */
  function Text(ns: seq<int>): string {
    if ns == [] then "" else DecimalInt(ns[0]) + " " + Text(ns[1..])
  }

  /** The contents of the state file. */
  function Dump(index: nat, list: seq<int>): string
    requires |list| > 0
  {
    DecimalInt(index) + " " + Text(Rotated(index, list))
  }

  /** What `fscanf` reads as one decimal number: the number and the text after it. */
  function Scan(s: string): (r: Option<(int, string)>)
    ensures r.Some? ==> |r.value.1| < |s|
  {
    ScanSigned(SkipSpace(s))
  }

  function ScanSigned(t: string): (r: Option<(int, string)>)
    ensures r.Some? ==> |r.value.1| < |t|
  {
    if t != "" && t[0] == '-' then Signed(-1, t[1..])
    else if t != "" && t[0] == '+' then Signed(1, t[1..])
    else Signed(1, t)
  }

  function Signed(sign: int, digits: string): (r: Option<(int, string)>)
    ensures r.Some? ==> |r.value.1| < |digits|
  {
    var n := DigitRun(digits);
    if n == 0 then None else Some((sign * Value(digits[..n]), digits[n..]))
  }

  /** All numbers up to the first text that is not one. */
  function ScanAll(s: string): seq<int>
    decreases |s|
  {
    match Scan(s)
    case None => []
    case Some((n, rest)) => [n] + ScanAll(rest)
  }

  /** Writes times into the ring from a position on, wrapping at its end. */
  function FillRing(list: seq<int>, i: nat, times: seq<int>): (r: seq<int>)
    requires i < |list|
    ensures |r| == |list|
    decreases |times|
  {
    if times == [] then list
    else FillRing(list[i := times[0]], After(i, 1, |list|), times[1..])
  }

  function Zeros(m: nat): seq<int> {
    seq(m, i => 0)
  }

  /** The index and ring a state file restores, or a fresh ring if there is no file or its index is out of range. */
  function Restore(file: Option<string>, m: nat): (r: (nat, seq<int>))
    requires m > 0
    ensures r.0 < m && |r.1| == m
  {
    if file == None then (0, Zeros(m))
    else
      // an index that cannot be read stays at its initial value, zero
      var first := Scan(file.value);
      var index := if first == None then 0 else first.value.0;
      if 0 <= index < m then (index, FillRing(Zeros(m), index, if first == None then [] else ScanAll(first.value.1)))
      else (0, Zeros(m))
  }

  // ---------- The code ----------

  method SaveState(index: nat, list: array<int>) returns (text: string)
    requires index < list.Length
    ensures text == Dump(index, list[..])
  {
    hide After;
    hide DecimalInt;
    hide Text;
    hide Rotated;
    text := DecimalInt(index) + " ";
    var ifile := index;
    var count := 0;
    AfterNext(index, 0, list.Length);
    ghost var all := Rotated(index, list[..]);
    DumpEnds(index, list[..]);
    while count < list.Length
      invariant 0 <= count <= list.Length && ifile == After(index, count, list.Length)
      invariant Dump(index, list[..]) == text + Text(all[count..])
    {
      var number := DecimalInt(list[ifile]) + " ";
      TextNext(index, list[..], count);
      Assoc(text, number, Text(all[count + 1..]));
      text := text + number;
      AfterOne(index, count, list.Length);
      ifile := (ifile + 1) % list.Length;
      count := count + 1;
    }
    assert all[count..] == [] && text + "" == text;
  }

  lemma DumpEnds(index: nat, list: seq<int>)
    requires index < |list|
    ensures |Rotated(index, list)| == |list| && Text([]) == ""
  {
  }

  lemma AfterOne(i: nat, j: nat, m: nat)
    requires m > 0
    ensures (After(i, j, m) + 1) % m == After(i, j + 1, m)
  {
    ModAdd(i + j, 1, m);
  }

  /** The next number of the dump. */
  lemma TextNext(index: nat, list: seq<int>, count: nat)
    requires index < |list| && count < |list|
    ensures count < |Rotated(index, list)|
    ensures var all := Rotated(index, list);
            Text(all[count..]) == DecimalInt(list[After(index, count, |list|)]) + " " + Text(all[count + 1..])
  {
    hide After;
    hide DecimalInt;
    var all := Rotated(index, list);
    assert all[count..][1..] == all[count + 1..];
  }

  method LoadState(file: Option<string>, list: array<int>) returns (index: nat)
    requires list.Length > 0
    modifies list
    ensures (index, list[..]) == Restore(file, list.Length)
  {
    hide Scan;
    var n := 0;
    while n < list.Length
      invariant 0 <= n <= list.Length && forall i :: 0 <= i < n ==> list[i] == 0
    {
      list[n] := 0;
      n := n + 1;
    }
    assert list[..] == Zeros(list.Length);
    index := 0;
    if file == None {
      return;
    }
    var first := Scan(file.value);
    var stateFileIndex := if first == None then 0 else first.value.0;
    var rest := if first == None then file.value else first.value.1;
    if 0 <= stateFileIndex < list.Length {
      index := stateFileIndex;
      var ifile := index;
      ghost var all := FillRing(list[..], ifile, ScanAll(rest));
      var next := Scan(rest);
      while next.Some?
        invariant 0 <= ifile < list.Length && next == Scan(rest)
        invariant FillRing(list[..], ifile, ScanAll(rest)) == all
        decreases |rest|
      {
        ghost var before, i := list[..], ifile;
        list[ifile] := next.value.0;
        assert list[..] == before[i := next.value.0];
        ifile := (ifile + 1) % list.Length;
        assert ScanAll(rest)[1..] == ScanAll(next.value.1);
        rest := next.value.1;
        next := Scan(rest);
      }
    }
  }

  // ---------- What is restored ----------

  lemma ScanDigits(sign: int, n: nat, rest: string)
    ensures Signed(sign, Decimal(n) + " " + rest) == Some((sign * n, " " + rest))
  {
    var d := Decimal(n);
    var s := d + " " + rest;
    assert s[..|d|] == d && s[|d|..] == " " + rest;
    DigitRunIs(s, |d|);
    ValueDecimal(n);
  }

  lemma ScanNumber(n: int, rest: string)
    ensures Scan(DecimalInt(n) + " " + rest) == Some((n, " " + rest))
  {
    var s := DecimalInt(n) + " " + rest;
    hide Signed;
    hide Decimal;
    assert !IsSpace(s[0]);
    assert SkipSpace(s) == s;
    if n < 0 {
      ScanDigits(-1, -n, rest);
      assert s == ['-'] + (Decimal(-n) + " " + rest);
      assert s[1..] == Decimal(-n) + " " + rest;
    } else {
      ScanDigits(1, n, rest);
    }
  }

  /** One number is read as `atol` reads it, and what follows its digits is left; without digits none is read. */
  lemma ScanReads(a: string, sign: string, digits: string, rest: string)
    requires Spaces(a) && Number(digits, rest) && (sign == "" || sign == "-" || sign == "+")
    requires sign == digits == "" && rest != "" ==> rest[0] !in "+-" && !White(rest[0])
    ensures AllDigits(digits)
    ensures Scan(a + sign + digits + rest) ==
            if digits == "" then None else Some((if sign == "-" then -(Value(digits) as int) else Value(digits), rest))
  {
    hide Scan;
    hide Signed;
    hide Number;
    hide Value;
    var u := digits + rest;
    assert a + sign + digits + rest == a + (sign + u);
    NumberFirst(digits, rest);
    SignedScan(a, sign, u);
    SignedReads(if sign == "-" then -1 else 1, digits, rest);
  }

  lemma NumberFirst(digits: string, rest: string)
    requires Number(digits, rest)
    ensures digits != "" ==> (digits + rest)[0] !in "+-" && !White((digits + rest)[0])
    ensures digits == "" ==> digits + rest == rest
  {
    if digits != "" {
      assert digits[0] in digits;
    }
  }

  lemma SignedScan(a: string, sign: string, u: string)
    requires Spaces(a) && (sign == "" || sign == "-" || sign == "+")
    requires sign == "" && u != "" ==> u[0] !in "+-" && !White(u[0])
    ensures Scan(a + (sign + u)) == Signed(if sign == "-" then -1 else 1, u)
  {
    hide SkipSpace;
    hide Signed;
    hide ScanSigned;
    SkipSpaceIs(a, sign + u);
    SignScanned(sign, u);
  }

  lemma SignScanned(sign: string, u: string)
    requires sign == "" || sign == "-" || sign == "+"
    requires sign == "" && u != "" ==> u[0] !in "+-"
    ensures ScanSigned(sign + u) == Signed(if sign == "-" then -1 else 1, u)
  {
    hide Signed;
    if sign == "" {
      assert sign + u == u;
    } else {
      assert (sign + u)[1..] == u;
    }
  }

  lemma SignedReads(sign: int, digits: string, rest: string)
    requires Number(digits, rest)
    ensures AllDigits(digits)
    ensures Signed(sign, digits + rest) == if digits == "" then None else Some((sign * Value(digits), rest))
  {
    hide Value;
    LeadingReads(digits, rest);
    assert (digits + rest)[..|digits|] == digits && (digits + rest)[|digits|..] == rest;
  }

  lemma ScanBlank(s: string)
    ensures Scan(" " + s) == Scan(s)
    ensures Scan("") == None
  {
  }

  lemma {:induction false} ScanText(ns: seq<int>)
    ensures ScanAll(" " + Text(ns)) == ns
  {
    hide Scan;
    hide DecimalInt;
    ScanBlank(Text(ns));
    if ns != [] {
      ScanNumber(ns[0], Text(ns[1..]));
      ScanText(ns[1..]);
    }
  }

  /** Slots are hit in turn: each of the last times written is in its slot, and the slots not hit keep theirs. */
  lemma {:induction false} FillRingAt(list: seq<int>, i: nat, times: seq<int>, j: nat)
    requires i < |list|
    requires if j < |times| then |times| - |list| <= j else j < |list|
    ensures FillRing(list, i, times)[After(i, j, |list|)] ==
            if j < |times| then times[j] else list[After(i, j, |list|)]
    decreases |times|
  {
    hide After;
    var m := |list|;
    if times != [] {
      var list', i' := list[i := times[0]], After(i, 1, m);
      if j > 0 {
        AfterNext(i, j - 1, m);
        AfterNext(i, j, m);
        FillRingAt(list', i', times[1..], j - 1);
      } else {
        // the first slot is hit again only by the time m places later
        AfterNext(i, m - 1, m);
        FillRingAt(list', i', times[1..], m - 1);
      }
    }
  }

  /** Writing a ring's own times once around from its index gives the ring. */
  lemma FillRotated(list: seq<int>, other: seq<int>, index: nat)
    requires index < |list| == |other|
    ensures FillRing(other, index, Rotated(index, list)) == list
  {
    hide FillRing;
    var m := |list|;
    forall p | 0 <= p < m
      ensures FillRing(other, index, Rotated(index, list))[p] == list[p]
    {
      var j := (p - index) % m;
      ModAdd(p - index, index, m);
      ModSmall(p, m);
      assert After(index, j, m) == p;
      FillRingAt(other, index, Rotated(index, list), j);
    }
  }

  /** Saving and restoring a ring of the same size gives back the index and every time. */
  lemma DumpRestore(index: nat, list: seq<int>)
    requires index < |list|
    ensures Restore(Some(Dump(index, list)), |list|) == (index, list)
  {
    hide Scan;
    hide ScanAll;
    hide FillRing;
    ScanNumber(index, Text(Rotated(index, list)));
    ScanText(Rotated(index, list));
    FillRotated(list, Zeros(|list|), index);
  }

  /** Whatever the number of times in the file, a ring of `m` holds the last `m` of them in their slots. */
  lemma RestoreHoldsLast(index: nat, times: seq<int>, m: nat)
    requires index < m
    ensures var (i, ring) := Restore(Some(DecimalInt(index) + " " + Text(times)), m);
            && i == index
            && (forall j :: |times| - m <= j < |times| && 0 <= j ==> ring[After(index, j, m)] == times[j])
            && (forall j :: |times| <= j < m ==> ring[After(index, j, m)] == 0)
  {
    hide Scan;
    hide ScanAll;
    hide FillRing;
    hide After;
    ScanNumber(index, Text(times));
    ScanText(times);
    forall j: nat | if j < |times| then |times| - m <= j else j < m
      ensures FillRing(Zeros(m), index, times)[After(index, j, m)] == if j < |times| then times[j] else 0
    {
      FillRingAt(Zeros(m), index, times, j);
    }
  }
}
