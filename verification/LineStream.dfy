/** What successive calls of the line reader deliver: the lines of the byte stream, whatever the polls did. */
module LineStream {
  import opened Options
  import opened Seqs
  import opened Numbers
  import opened LineReader

  // ---------- The bytes a poll schedule delivers ----------

  /** The bytes the polls deliver, given what was read of the current line: idle polls deliver none,
      an error from `read` inside a line delivers the last byte once more. */
  function Bytes(polls: seq<Poll>, text: string): string
    decreases |polls|, if |text| >= MAX_LINE_DATA then 1 else 0
  {
    if |text| >= MAX_LINE_DATA then Bytes(polls, "")
    else if polls == [] then ""
    else
      var p := polls[0];
      if p.Got? && IsEol(p.c) then [p.c] + Bytes(polls[1..], "")
      else if Adds(p, text) then [Added(p, text)] + Bytes(polls[1..], text + [Added(p, text)])
      else Bytes(polls[1..], text)
  }

  /** The bytes of the polls that found one. */
  function GotBytes(polls: seq<Poll>): string {
    if polls == [] then ""
    else (if polls[0].Got? then [polls[0].c] else []) + GotBytes(polls[1..])
  }

  /** An error from `read` comes while a line is being read. */
  predicate ErrsInLine(polls: seq<Poll>, text: string)
    decreases |polls|, if |text| >= MAX_LINE_DATA then 1 else 0
  {
    if |text| >= MAX_LINE_DATA then ErrsInLine(polls, "")
    else if polls == [] then false
    else
      var p := polls[0];
      if p.Got? && IsEol(p.c) then ErrsInLine(polls[1..], "")
      else (p.Failed? && text != "") || ErrsInLine(polls[1..], Extended(p, text))
  }

  /** As many bytes are delivered as came, or more: exactly the errors inside a line add bytes. */
  lemma {:induction false} BytesCount(polls: seq<Poll>, text: string)
    ensures |Bytes(polls, text)| >= |GotBytes(polls)|
    ensures ErrsInLine(polls, text) ==> |Bytes(polls, text)| > |GotBytes(polls)|
    ensures !ErrsInLine(polls, text) ==> Bytes(polls, text) == GotBytes(polls)
    decreases |polls|, if |text| >= MAX_LINE_DATA then 1 else 0
  {
    if |text| >= MAX_LINE_DATA {
      BytesCount(polls, "");
    } else if polls != [] {
      var p, rest := polls[0], polls[1..];
      BytesUnfold(polls, text);
      if p.Got? && IsEol(p.c) {
        BytesCount(rest, "");
      } else {
        BytesCount(rest, Extended(p, text));
      }
    }
  }

  /** The bytes delivered are the bytes that came, in order, exactly when no error from `read` comes inside
      a line; errors between lines do no harm. */
  lemma BytesAreGot(polls: seq<Poll>, text: string)
    ensures Bytes(polls, text) == GotBytes(polls) <==> !ErrsInLine(polls, text)
  {
    BytesCount(polls, text);
  }

  // ---------- Lines of a byte stream ----------

  /** Length of the line a stream starts with. */
  function LineLen(s: string): (n: nat)
    ensures n <= |s|
    ensures forall i :: 0 <= i < n ==> !IsEol(s[i])
    ensures n < |s| ==> IsEol(s[n])
  {
    if s == "" || IsEol(s[0]) then 0 else 1 + LineLen(s[1..])
  }

  /** The non-empty lines, split at carriage returns and newlines. */
  function Lines(s: string): seq<string>
    decreases |s|
  {
    if s == "" then []
    else if IsEol(s[0]) then Lines(s[1..])
    else [s[..LineLen(s)]] + Lines(s[LineLen(s)..])
  }

  /** What lines are: text up to a carriage return or a newline, then those of the rest; an empty one is none. */
  lemma LinesAre(text: string, c: char, rest: string)
    requires '\r' !in text && '\n' !in text && (c == '\r' || c == '\n')
    ensures Lines(text + [c] + rest) == (if text == "" then [] else [text]) + Lines(rest)
    ensures Lines(text) == if text == "" then [] else [text]
  {
    var s := text + [c] + rest;
    assert forall i :: 0 <= i < |text| ==> s[i] == text[i] && text[i] in text;
    LineLenIs(s, |text|);
    LineLenIs(text, |text|);
    assert s[..|text|] == text && s[|text|..] == [c] + rest && ([c] + rest)[1..] == rest;
    assert text[..|text|] == text && text[|text|..] == "" && [text] + [] == [text];
    assert Lines([c] + rest) == Lines(rest);
    assert [] + Lines(rest) == Lines(rest);
  }

  /** A line cut into pieces of the reader's buffer size. */
  function Cut(line: string): seq<string> {
    if line == "" then []
    else if |line| <= MAX_LINE_DATA then [line]
    else [line[..MAX_LINE_DATA]] + Cut(line[MAX_LINE_DATA..])
  }

  function Pieces(s: string): seq<string> {
    CutAll(Lines(s))
  }

  function CutAll(lines: seq<string>): seq<string> {
    if lines == [] then [] else Cut(lines[0]) + CutAll(lines[1..])
  }

  /** Lines that fit the buffer are not cut. */
  lemma {:induction false} ShortLinesWhole(lines: seq<string>)
    requires forall l <- lines :: 0 < |l| <= MAX_LINE_DATA
    ensures CutAll(lines) == lines
  {
    if lines != [] {
      assert lines[0] in lines;
      ShortLinesWhole(lines[1..]);
    }
  }

  /** No byte of a line is lost or repeated by the cutting. */
  lemma {:induction false} CutKeeps(line: string)
    ensures Flatten(Cut(line)) == line
    ensures forall p <- Cut(line) :: 0 < |p| <= 32
  {
    if |line| > MAX_LINE_DATA {
      CutKeeps(line[MAX_LINE_DATA..]);
      FlattenCons(line[..MAX_LINE_DATA], Cut(line[MAX_LINE_DATA..]));
    } else if line != "" {
      FlattenCons(line, []);
      assert [line] + [] == [line];
    }
  }

  lemma {:induction false} LineLenIs(s: string, n: nat)
    requires n <= |s| && (n < |s| ==> IsEol(s[n]))
    requires forall i :: 0 <= i < n ==> !IsEol(s[i])
    ensures LineLen(s) == n
  {
  }

  ghost predicate NoEol(s: string) {
    forall i :: 0 <= i < |s| ==> !IsEol(s[i])
  }

  lemma PiecesEol(s: string)
    requires s != "" && IsEol(s[0])
    ensures Pieces(s) == Pieces(s[1..])
  {
  }

  /** A line ended by a line end is a piece if the buffer holds it. */
  lemma PiecesLine(text: string, c: char, rest: string)
    requires 0 < |text| <= MAX_LINE_DATA && NoEol(text) && IsEol(c)
    ensures Pieces(text + [c] + rest) == [text] + Pieces(rest)
  {
    var s := text + [c] + rest;
    LineLenIs(s, |text|);
    assert s[..|text|] == text && s[|text|..] == [c] + rest;
    assert ([c] + rest)[1..] == rest;
    assert Lines(s) == [text] + Lines(rest);
  }

  /** A full buffer is a piece, whatever follows. */
  lemma PiecesFull(text: string, rest: string)
    requires |text| == MAX_LINE_DATA && NoEol(text)
    ensures Pieces(text + rest) == [text] + Pieces(rest)
  {
    hide LineLen;
    var s := text + rest;
    var n := LineLen(rest);
    LineLenIs(s, |text| + n);
    var line := s[..|text| + n];
    assert s[|text| + n..] == rest[n..];
    assert Lines(s) == [line] + Lines(rest[n..]);
    assert line[..MAX_LINE_DATA] == text && line[MAX_LINE_DATA..] == rest[..n];
    assert Cut(line) == [text] + Cut(rest[..n]);
    if n == 0 {
      assert rest[0..] == rest;
    } else {
      assert Lines(rest) == [rest[..n]] + Lines(rest[n..]);
    }
  }

  // ---------- One call, many calls ----------

  lemma TakeFull(polls: seq<Poll>, text: string)
    ensures |text| >= MAX_LINE_DATA ==> Take(polls, text) == Some(Taken(text, 0, 0))
  {
  }

  lemma BytesUnfold(polls: seq<Poll>, text: string)
    requires polls != [] && |text| < MAX_LINE_DATA
    ensures var p, rest := polls[0], polls[1..];
            Bytes(polls, text) ==
            if p.Got? && IsEol(p.c) then [p.c] + Bytes(rest, "")
            else if Adds(p, text) then [Added(p, text)] + Bytes(rest, text + [Added(p, text)])
            else Bytes(rest, text)
  {
  }

  /** The bytes of one poll more. */
  lemma BytesStep(polls: seq<Poll>, text: string)
    requires polls != [] && |text| < MAX_LINE_DATA
    ensures var p, rest := polls[0], polls[1..];
            text + Bytes(polls, text) ==
            if p.Got? && IsEol(p.c) then text + [p.c] + Bytes(rest, "")
            else Extended(p, text) + Bytes(rest, Extended(p, text))
  {
    hide Bytes;
    BytesUnfold(polls, text);
    var p, rest := polls[0], polls[1..];
    if p.Got? && IsEol(p.c) {
      Assoc(text, [p.c], Bytes(rest, ""));
    } else if Adds(p, text) {
      Assoc(text, [Added(p, text)], Bytes(rest, Extended(p, text)));
    }
  }

  /** The line taken is the first piece of the bytes, and the polls left deliver the others. */
  lemma {:induction false} TakeFirstPiece(polls: seq<Poll>, text: string)
    requires NoEol(text) && |text| <= MAX_LINE_DATA
    ensures var r := Take(polls, text);
            r.Some? ==>
              Pieces(text + Bytes(polls, text)) == [r.value.text] + Pieces(Bytes(polls[r.value.polls..], ""))
    decreases |polls|
  {
    hide Pieces;
    hide Take;
    TakeFull(polls, text);
    if |text| == MAX_LINE_DATA {
      PiecesFull(text, Bytes(polls, ""));
      assert polls[0..] == polls;
    } else {
      TakeStep(polls, text);
      if polls != [] {
        hide Bytes;
        BytesStep(polls, text);
        var p, rest := polls[0], polls[1..];
        if p.Got? && IsEol(p.c) && text != "" {
          PiecesLine(text, p.c, Bytes(rest, ""));
        } else {
          TakeFirstPiece(rest, Extended(p, text));
          if p.Got? && IsEol(p.c) {
            PiecesEol("" + [p.c] + Bytes(rest, ""));
            assert ("" + [p.c] + Bytes(rest, ""))[1..] == "" + Bytes(rest, "");
          }
          var r := Take(rest, Extended(p, text));
          assert r.Some? ==> polls[r.value.polls + 1..] == rest[r.value.polls..];
        }
      }
    }
  }

  /** What one call does: a value and the polls left, or a timeout. */
  function Call(polls: seq<Poll>, timeout: int): Option<(int, seq<Poll>)> {
    match Take(polls, "")
    case None => None
    case Some(line) =>
      if SLEEP * line.idle >= timeout then None else Some((Atol(line.text), polls[line.polls..]))
  }

  /** The values of `n` calls in a row, none of which times out. */
  function Calls(polls: seq<Poll>, timeout: int, n: nat): Option<seq<int>> {
    if n == 0 then Some([])
    else match Call(polls, timeout)
         case None => None
         case Some((value, rest)) =>
           match Calls(rest, timeout, n - 1)
           case None => None
           case Some(values) => Some([value] + values)
  }

  function Values(texts: seq<string>): seq<int> {
    seq(|texts|, i requires 0 <= i < |texts| => Atol(texts[i]))
  }

  /** For every byte stream and every schedule: calls that do not time out return the decimal values
      of the stream's non-empty lines, in order, lines longer than the buffer cut into buffers full. */
  lemma {:induction false} CallsReadPieces(polls: seq<Poll>, timeout: int, n: nat)
    requires Calls(polls, timeout, n).Some?
    ensures var pieces := Pieces(Bytes(polls, ""));
            n <= |pieces| && Calls(polls, timeout, n).value == Values(pieces[..n])
  {
    hide Pieces;
    hide Take;
    hide Bytes;
    hide Atol;
    if n > 0 {
      var line := Take(polls, "").value;
      var rest := polls[line.polls..];
      TakeFirstPiece(polls, "");
      assert "" + Bytes(polls, "") == Bytes(polls, "");
      CallsReadPieces(rest, timeout, n - 1);
    }
  }

  /** With no line longer than the buffer and no read error inside a line, the values are those of the lines. */
  lemma CallsReadLines(polls: seq<Poll>, timeout: int, n: nat)
    requires Calls(polls, timeout, n).Some?
    requires !ErrsInLine(polls, "")
    requires forall l <- Lines(GotBytes(polls)) :: |l| <= 32
    ensures var lines := Lines(GotBytes(polls));
            n <= |lines| && Calls(polls, timeout, n).value == Values(lines[..n])
  {
    CallsReadPieces(polls, timeout, n);
    BytesAreGot(polls, "");
    LinesNonEmpty(GotBytes(polls));
    ShortLinesWhole(Lines(GotBytes(polls)));
  }

  lemma {:induction false} LinesNonEmpty(s: string)
    ensures forall l <- Lines(s) :: l != ""
    decreases |s|
  {
    if s != "" {
      if IsEol(s[0]) {
        LinesNonEmpty(s[1..]);
      } else {
        LinesNonEmpty(s[LineLen(s)..]);
      }
    }
  }

  /** The schedule of the polls does not matter: only the bytes do. */
  lemma ScheduleIndependent(polls: seq<Poll>, others: seq<Poll>, timeout: int, n: nat)
    requires Bytes(polls, "") == Bytes(others, "")
    requires Calls(polls, timeout, n).Some? && Calls(others, timeout, n).Some?
    ensures Calls(polls, timeout, n) == Calls(others, timeout, n)
  {
    CallsReadPieces(polls, timeout, n);
    CallsReadPieces(others, timeout, n);
  }

  // ---------- A device that prints decimal values ----------

  /** What a device sends that prints each value on a line. */
  function DeviceText(values: seq<int>): string {
    if values == [] then "" else DecimalInt(values[0]) + "\r\n" + DeviceText(values[1..])
  }

  lemma DecimalLine(v: int)
    requires LONG_MIN <= v <= LONG_MAX
    ensures NoEol(DecimalInt(v)) && 0 < |DecimalInt(v)| <= MAX_LINE_DATA
  {
    hide Decimal;
    var d := Decimal(if v < 0 then -v else v);
    forall i | 0 <= i < |d|
      ensures IsDigit(d[i])
    {
      assert d[i] in d;
    }
    assert Pow10(5) == 100_000;
    assert Pow10(10) == 10_000_000_000;
    assert Pow10(15) == 1_000_000_000_000_000;
    assert Pow10(20) == 100_000_000_000_000_000_000;
    DecimalLength(if v < 0 then -v else v, 20);
  }

  lemma ValuesCons(text: string, texts: seq<string>)
    ensures Values([text] + texts) == [Atol(text)] + Values(texts)
  {
  }

  lemma DeviceLine(v: int, rest: string)
    requires LONG_MIN <= v <= LONG_MAX
    ensures Pieces(DecimalInt(v) + "\r\n" + rest) == [DecimalInt(v)] + Pieces(rest)
  {
    hide Pieces;
    hide DecimalInt;
    DecimalLine(v);
    PiecesLine(DecimalInt(v), '\r', "\n" + rest);
    PiecesEol("\n" + rest);
    assert ("\n" + rest)[1..] == rest;
    assert DecimalInt(v) + "\r\n" + rest == DecimalInt(v) + ['\r'] + ("\n" + rest);
  }

  lemma {:induction false} DevicePieces(values: seq<int>)
    requires forall v <- values :: LONG_MIN <= v <= LONG_MAX
    ensures Values(Pieces(DeviceText(values))) == values
  {
    if values != [] {
      hide Pieces;
      hide DecimalInt;
      hide Atol;
      var v, rest := values[0], values[1..];
      assert v in values && forall w <- rest :: w in values;
      DevicePieces(rest);
      ReadsBack(v);
      DeviceLine(v, DeviceText(rest));
      ValuesCons(DecimalInt(v), Pieces(DeviceText(rest)));
    }
  }

  /** The values a device prints are the values the reader returns, for every schedule without timeouts. */
  lemma DeviceValuesRead(values: seq<int>, polls: seq<Poll>, timeout: int, n: nat)
    requires forall v <- values :: LONG_MIN <= v <= LONG_MAX
    requires Bytes(polls, "") == DeviceText(values)
    requires Calls(polls, timeout, n).Some?
    ensures n <= |values| && Calls(polls, timeout, n).value == values[..n]
  {
    hide Pieces;
    hide Calls;
    hide Bytes;
    hide DeviceText;
    hide Atol;
    CallsReadPieces(polls, timeout, n);
    DevicePieces(values);
    var pieces := Pieces(DeviceText(values));
    assert |Values(pieces)| == |pieces|;
    assert Values(pieces[..n]) == Values(pieces)[..n];
  }

  /** An error from `read` inside a line repeats a byte: after `1`, an error and a newline the line is 11. */
  lemma ReadErrorRepeatsByte()
    ensures Take([Got('1'), Failed, Got('\n')], "") == Some(Taken("11", 3, 0))
    ensures GotBytes([Got('1'), Failed, Got('\n')]) == "1\n"
  {
    var polls := [Got('1'), Failed, Got('\n')];
    assert polls[1..] == [Failed, Got('\n')] && polls[1..][1..] == [Got('\n')];
    assert Take([Got('\n')], "11") == Some(Taken("11", 1, 0));
    assert "" + ['1'] == "1" && "1" + ['1'] == "11";
    assert GotBytes([Got('\n')]) == "\n";
  }
}
