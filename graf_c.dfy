/**
 * The C program's CSRRG graph loader: `parse_line`, which pulls every
 * integer out of a line of ";"- or space-separated text in two passes;
 * `read_line`, which reads one line from a stream of characters into a
 * growing buffer; `read_csrrg_data`, which keeps the first five non-empty
 * lines; and `wczytaj_graf`, which turns lines 4 and 5 into a CSR graph.
 * A file is the sequence of its characters, and a position in it stands for
 * the `FILE*` cursor.
 */
module GrafC {
  import opened Wrappers
  import opened Text
  import opened Graphs
  import GraphLoader
  import GraphSaver

  // ------------------------------------------------------------ parse_line

  /** What `parse_line` skips between numbers: ";" and C whitespace. */
  predicate Separator(c: char)
  {
    c == ';' || IsSpace(c)
  }

  /** The index of the first ";" in `s`, or `|s|` when there is none. */
  function SemicolonAt(s: string): (e: nat)
    ensures e <= |s| && (e < |s| ==> s[e] == ';')
    ensures forall k :: 0 <= k < e ==> s[k] != ';'
  {
    if s == [] || s[0] == ';' then 0
    else
      var e := 1 + SemicolonAt(s[1..]);
      assert forall k :: 1 <= k < e ==> s[k] == s[1..][k - 1];
      e
  }

  /**
   * The integers `parse_line` finds in the text a cursor `p` looks at, in
   * order: separators are skipped one at a time; where `strtol` converts, the
   * value is taken and scanning resumes at `endptr`; where it converts
   * nothing, everything up to the next ";" is skipped.
   */
  function Scan(s: string): seq<int>
    decreases |s|
  {
    if s == [] then [] else ScanAt(s)
  }

  /** `Scan` of a text with a character under the cursor. */
  function ScanAt(s: string): seq<int>
    requires s != []
    decreases |s|, 1
  {
    if Separator(s[0]) then Scan(s[1..]) else ScanToken(s)
  }

  /** `Scan` where the cursor is on something other than a separator. */
  function ScanToken(s: string): seq<int>
    requires s != [] && !Separator(s[0])
    decreases |s|, 0
  {
    match Strtol(s, 0)
    case Some((v, e)) => [v] + Scan(s[e..])
    case None => Scan(s[SemicolonAt(s)..])
  }

  /** A separator under the cursor is skipped. */
  lemma ScanSeparator(s: string)
    requires s != [] && Separator(s[0])
    ensures Scan(s) == Scan(s[1..])
  {
    assert Scan(s) == ScanAt(s);
  }

  /** Where `strtol` converts, the value heads what the text holds and scanning resumes at `endptr`. */
  lemma ScanNumber(s: string)
    requires s != [] && !Separator(s[0]) && Strtol(s, 0).Some?
    ensures Scan(s) == [Strtol(s, 0).value.0] + Scan(s[Strtol(s, 0).value.1..])
  {
    assert Scan(s) == ScanAt(s) == ScanToken(s);
  }

  /** Where `strtol` converts nothing, scanning resumes at the next ";". */
  lemma ScanSkip(s: string)
    requires s != [] && !Separator(s[0]) && Strtol(s, 0).None?
    ensures Scan(s) == Scan(s[SemicolonAt(s)..])
  {
    assert Scan(s) == ScanAt(s) == ScanToken(s);
  }

  /**
   * `parse_line`: the first pass counts the integers, the second stores them
   * in a fresh array of that size. No array (NULL) and a count of 0 when the
   * line holds no integer.
   */
  method ParseLine(line: string) returns (numbers: array?<int>, count: nat)
    ensures count == |Scan(line)|
    ensures numbers == null <==> count == 0
    ensures numbers != null ==> numbers.Length == count && numbers[..] == Scan(line)
  {
    var total := CountIntegers(line);
    if total == 0 {
      return null, 0;
    }
    numbers := FillIntegers(line, total);
    count := total;
  }

  /** The second pass of `parse_line`: the integers of the line, stored in order. */
  method FillIntegers(line: string, total: nat) returns (a: array<int>)
    requires total == |Scan(line)|
    ensures a.Length == total && a[..] == Scan(line)
  {
    a := new int[total];
    var p := 0;
    var i := 0;
    ghost var found: seq<int> := [];
    while p < |line| && i < total
      invariant 0 <= p <= |line| && 0 <= i <= total
      invariant found == a[..i]
      invariant found + Scan(line[p..]) == Scan(line)
      invariant i + |Scan(line[p..])| == total
      decreases |line| - p
    {
      var next;
      p, next := ScanStep(line, p);
      if next.Some? {
        a[i] := next.value;
        found := found + [next.value];
        i := i + 1;
      }
    }
    if p == |line| {
      assert line[p..] == [];
    }
    assert a[..] == a[..i];
  }

  /** The first pass of `parse_line`: how many integers the line holds. */
  method CountIntegers(line: string) returns (total: nat)
    ensures total == |Scan(line)|
  {
    var p := 0;
    total := 0;
    while p < |line|
      invariant 0 <= p <= |line|
      invariant total + |Scan(line[p..])| == |Scan(line)|
      decreases |line| - p
    {
      var found;
      p, found := ScanStep(line, p);
      if found.Some? {
        total := total + 1;
      }
    }
  }

  /**
   * One round of either pass of `parse_line`: skip separators, then take the
   * number `strtol` converts or skip to the next ";". The round moves the
   * cursor, and what it finds is the head of what the line holds from there.
   */
  method ScanStep(line: string, p0: nat) returns (p: nat, found: Option<int>)
    requires p0 < |line|
    ensures p0 < p <= |line|
    ensures Scan(line[p0..]) == (if found.Some? then [found.value] else []) + Scan(line[p..])
  {
    p := SkipSeparators(line, p0);
    if p == |line| {
      return p, None;
    }
    var r := Strtol(line[p..], 0);
    if r.Some? {
      ScanNumber(line[p..]);
      assert line[p..][r.value.1..] == line[p + r.value.1..];
      p, found := p + r.value.1, Some(r.value.0);
    } else {
      p := SkipToSemicolon(line, p);
      found := None;
    }
  }


  /** `while (*p && (*p == ';' || isspace(*p))) p++`: separators do not change what is found. */
  method SkipSeparators(line: string, p0: nat) returns (p: nat)
    requires p0 <= |line|
    ensures p0 <= p <= |line| && (p < |line| ==> !Separator(line[p]))
    ensures Scan(line[p..]) == Scan(line[p0..])
  {
    p := p0;
    while p < |line| && Separator(line[p])
      invariant p0 <= p <= |line|
      invariant Scan(line[p..]) == Scan(line[p0..])
    {
      ScanSeparator(line[p..]);
      assert line[p..][1..] == line[p + 1..];
      p := p + 1;
    }
  }

  /** `while (*p && *p != ';') p++`, taken where `strtol` converted nothing. */
  method SkipToSemicolon(line: string, p0: nat) returns (p: nat)
    requires p0 < |line| && !Separator(line[p0]) && Strtol(line[p0..], 0).None?
    ensures p0 < p <= |line|
    ensures Scan(line[p..]) == Scan(line[p0..])
  {
    p := p0;
    while p < |line| && line[p] != ';'
      invariant p0 <= p <= |line|
      invariant forall k :: p0 <= k < p ==> line[k] != ';'
    {
      p := p + 1;
    }
    var s := line[p0..];
    assert forall k :: 0 <= k < p - p0 ==> s[k] != ';';
    assert p - p0 == SemicolonAt(s) by {
      if p < |line| {
        assert s[p - p0] == ';';
      }
    }
    assert s[SemicolonAt(s)..] == line[p..];
    ScanSkip(s);
  }

  // ------------------------------------------------------------ parse_line: properties

  /** A leading ";" is skipped. */
  lemma ScanSemicolon(rest: string)
    ensures Scan(";" + rest) == Scan(rest)
  {
    ScanSeparator(";" + rest);
    assert (";" + rest)[1..] == rest;
  }

  /** `strtol` reads a rendered value back in full, up to a following non-digit. */
  lemma {:induction false} StrtolShow(x: int, rest: string)
    requires rest == [] || !IsDigit(rest[0])
    ensures Strtol(Show(x) + rest, 0) == Some((x, |Show(x)|))
  {
    var s := Show(x) + rest;
    var d := Digits(if x < 0 then -x else x);
    var j := if x < 0 then 1 else 0;
    assert s[j..j + |d|] == d;
    assert SkipSpaces(s, 0) == 0;
    SkipDigitsRun(s, j, |d|);
  }

  /** `SkipDigits` stops right after a run of `n` digits that a non-digit ends. */
  lemma {:induction false} SkipDigitsRun(s: string, j: nat, n: nat)
    requires j + n <= |s|
    requires forall k :: j <= k < j + n ==> IsDigit(s[k])
    requires j + n == |s| || !IsDigit(s[j + n])
    ensures SkipDigits(s, j) == j + n
    decreases n
  {
    if n > 0 {
      SkipDigitsRun(s, j + 1, n - 1);
    }
  }

  /** A rendered value followed by ";" and more text: the value, then what the rest holds. */
  lemma {:induction false} ScanShown(x: int, rest: string)
    requires rest == [] || rest[0] == ';'
    ensures Scan(Show(x) + rest) == [x] + Scan(rest)
  {
    var s := Show(x) + rest;
    StrtolShow(x, rest);
    assert !Separator(s[0]);
    ScanNumber(s);
    assert s[|Show(x)|..] == rest;
  }

  /**
   * What the Java CSRRG writer prints as a list (decimal values joined by
   * ";") `parse_line` reads back as the same list, of any width.
   */
  lemma {:induction false} ScanJoined(xs: seq<int>)
    ensures Scan(Join(GraphLoader.ShowAll(xs), ";")) == xs
    decreases |xs|
  {
    if |xs| == 1 {
      ScanShown(xs[0], "");
      assert Show(xs[0]) + "" == Show(xs[0]);
    } else if |xs| > 1 {
      assert GraphLoader.ShowAll(xs)[1..] == GraphLoader.ShowAll(xs[1..]);
      var rest := Join(GraphLoader.ShowAll(xs[1..]), ";");
      assert Join(GraphLoader.ShowAll(xs), ";") == Show(xs[0]) + (";" + rest);
      ScanShown(xs[0], ";" + rest);
      ScanSemicolon(rest);
      ScanJoined(xs[1..]);
    }
  }

  /** A line of separators only holds no integer, so `parse_line` gives NULL for it. */
  lemma {:induction false} ScanSeparators(s: string)
    requires forall k :: 0 <= k < |s| ==> Separator(s[k])
    ensures Scan(s) == []
    decreases |s|
  {
    if s != [] {
      ScanSeparators(s[1..]);
    }
  }

  // ------------------------------------------------------------ read_line

  /** The index of the first newline in `s`, or `|s|` when there is none. */
  function NewlineAt(s: string): (e: nat)
    ensures e <= |s|
  {
    if s == [] || s[0] == '\n' then 0 else 1 + NewlineAt(s[1..])
  }

  /** `NewlineAt` stops at a newline or the end, and passes no newline on the way. */
  lemma {:induction false} NewlineAtSpec(s: string)
    ensures NewlineAt(s) < |s| ==> s[NewlineAt(s)] == '\n'
    ensures forall k :: 0 <= k < NewlineAt(s) ==> s[k] != '\n'
  {
    if s != [] && s[0] != '\n' {
      NewlineAtSpec(s[1..]);
      forall k | 1 <= k < NewlineAt(s)
        ensures s[k] != '\n'
      {
        assert s[k] == s[1..][k - 1];
      }
    }
  }

  /** A position with no newline before it and a newline or the end at it is `NewlineAt`. */
  lemma {:induction false} NewlineAtIs(s: string, e: nat)
    requires e <= |s| && (e < |s| ==> s[e] == '\n')
    requires forall k :: 0 <= k < e ==> s[k] != '\n'
    ensures NewlineAt(s) == e
  {
    if e > 0 {
      forall k | 0 <= k < e - 1
        ensures s[1..][k] != '\n'
      {
        assert s[1..][k] == s[k + 1];
      }
      NewlineAtIs(s[1..], e - 1);
    }
  }

  /** The characters read, without one trailing carriage return (Windows line ends). */
  function DropCarriageReturn(s: string): string
  {
    if s != [] && s[|s| - 1] == '\r' then s[..|s| - 1] else s
  }

  /**
   * `read_line` on the unread rest `s` of a file: None only when nothing is
   * left; otherwise the characters up to the newline, less one trailing
   * carriage return, and what is left after the newline.
   */
  function NextLine(s: string): (r: Option<(string, string)>)
    ensures r.Some? ==> |r.value.1| < |s|
  {
    if s == [] then None
    else
      var e := NewlineAt(s);
      Some((DropCarriageReturn(s[..e]), if e < |s| then s[e + 1..] else []))
  }

  /** The initial size of the line buffer. */
  const InitialBufferSize := 1024

  /**
   * `read_line` on the unread characters of a file: characters are copied
   * into a buffer that doubles (by `realloc`) whenever only the terminator's
   * cell is left, until a newline, which is consumed, or the end of the
   * file; the result is what is still unread.
   */
  method ReadLine(file: string) returns (line: Option<string>, rest: string)
    ensures line.None? <==> NextLine(file).None?
    ensures line.Some? ==> NextLine(file) == Some((line.value, rest))
  {
    var buffer, count := ReadUntilNewline(file);
    if count == |file| && count == 0 {
      return None, file;
    }
    var next := if count < |file| then count + 1 else count;
    var length := count;
    if count > 0 && buffer[count - 1] == '\r' {
      length := count - 1;
    }
    line, rest := Some(buffer[..length]), file[next..];
    LineRead(file, count, buffer[..count], line.value, rest);
  }

  /** The loop of `read_line`: the characters before the next newline or the end, in a buffer with room for a terminator. */
  method ReadUntilNewline(file: string) returns (buffer: array<char>, count: nat)
    ensures count < buffer.Length && count == NewlineAt(file)
    ensures buffer[..count] == file[..count]
  {
    var bufferSize := InitialBufferSize;
    buffer := new char[bufferSize];
    count := 0;
    while count < |file| && file[count] != '\n'
      invariant count <= |file|
      invariant fresh(buffer) && buffer.Length == bufferSize && count < bufferSize
      invariant buffer[..count] == file[..count]
      invariant forall k :: 0 <= k < count ==> file[k] != '\n'
    {
      if count >= bufferSize - 1 {
        bufferSize := bufferSize * 2;
        buffer := Grow(buffer, count, bufferSize);
      }
      buffer[count] := file[count];
      assert buffer[..count + 1] == buffer[..count] + [file[count]];
      assert file[..count + 1] == file[..count] + [file[count]];
      count := count + 1;
    }
    NewlineAtIs(file, count);
  }

  /** The line `read_line` returns from what its loop read. */
  lemma LineRead(file: string, count: nat, raw: string, line: string, rest: string)
    requires count == NewlineAt(file) && raw == file[..count]
    requires file != []
    requires line == DropCarriageReturn(raw)
    requires rest == (if count < |file| then file[count + 1..] else [])
    ensures NextLine(file) == Some((line, rest))
  {
    var e := NewlineAt(file);
    assert NextLine(file) == Some((DropCarriageReturn(file[..e]), if e < |file| then file[e + 1..] else []));
  }

  /** `realloc`: a buffer of the new size that starts with the first `count` characters of the old one. */
  method Grow(buffer: array<char>, count: nat, size: nat) returns (grown: array<char>)
    requires count <= buffer.Length <= size
    ensures fresh(grown) && grown.Length == size
    ensures grown[..count] == buffer[..count]
  {
    grown := new char[size];
    var k := 0;
    while k < count
      invariant 0 <= k <= count
      invariant grown[..k] == buffer[..k]
    {
      grown[k] := buffer[k];
      assert grown[..k + 1] == grown[..k] + [buffer[k]];
      assert buffer[..k + 1] == buffer[..k] + [buffer[k]];
      k := k + 1;
    }
  }

  /** What `read_line` gives back, reassembled with what it dropped, is what it consumed. */
  lemma NextLineParts(s: string)
    ensures NextLine(s).None? <==> s == []
    ensures NextLine(s).Some? ==>
      var (line, rest) := NextLine(s).value;
      && '\n' !in line && |line| + |rest| <= |s|
      && s[..|line|] == line && s[|s| - |rest|..] == rest
      && s[|line|..|s| - |rest|] in {"", "\r", "\n", "\r\n"}
      && (rest != [] ==> s[|s| - |rest| - 1] == '\n')
  {
    if s != [] {
      var e := NewlineAt(s);
      NewlineAtSpec(s);
      var line := DropCarriageReturn(s[..e]);
      var rest := if e < |s| then s[e + 1..] else [];
      assert NextLine(s).value == (line, rest);
      assert s[..|line|] == line;
      var ending := s[|line|..|s| - |rest|];
      if e < |s| {
        assert s[|s| - |rest|..] == rest;
        if line == s[..e] {
          assert ending == [s[e]] == "\n";
        } else {
          assert ending == [s[e - 1], s[e]] == "\r\n";
        }
      } else {
        if line == s[..e] {
          assert ending == "";
        } else {
          assert ending == [s[e - 1]] == "\r";
        }
      }
    }
  }

  /** A line with no newline and no trailing carriage return, written with a newline, reads back unchanged. */
  lemma NextLineOfWritten(line: string, rest: string)
    requires '\n' !in line && (line == [] || line[|line| - 1] != '\r')
    ensures NextLine(line + "\n" + rest) == Some((line, rest))
  {
    var s := line + "\n" + rest;
    assert s[|line|] == '\n';
    assert forall k :: 0 <= k < |line| ==> s[k] == line[k];
    NewlineAtIs(s, |line|);
    assert s[..|line|] == line;
    assert s[|line| + 1..] == rest;
  }

  // ------------------------------------------------------------ read_csrrg_data

  /** The first `k` non-empty lines of the unread rest `s` of a file, as `read_line` gives them. */
  function NonEmptyLines(s: string, k: nat): (ls: seq<string>)
    ensures |ls| <= k && forall i :: 0 <= i < |ls| ==> ls[i] != []
    decreases |s|
  {
    if k == 0 then []
    else match NextLine(s)
      case None => []
      case Some((line, rest)) =>
        if line == [] then NonEmptyLines(rest, k) else [line] + NonEmptyLines(rest, k - 1)
  }

  /** The integers of line `i` (from 0), or none when there is no such line. */
  function LineInts(lines: seq<string>, i: nat): seq<int>
  {
    if i < |lines| then Scan(lines[i]) else []
  }

  /**
   * `read_csrrg_data` on the characters of a file: lines 1 to 5 are its first
   * five non-empty lines; None (NULL) when line 4 or line 5 holds no integer
   * or is missing, or line 5 has fewer than two; otherwise `atoi` of line 1
   * and the integers of lines 2 to 5.
   */
  function ReadCsrrg(input: string): (r: Option<GraphLoader.CsrrgData>)
    ensures r.Some? ==> |r.value.graphRowPtr| >= 2 && r.value.graphNeighbors != []
  {
    var lines := NonEmptyLines(input, 5);
    if LineInts(lines, 3) == [] || LineInts(lines, 4) == [] then None
    else if |LineInts(lines, 4)| < 2 then None
    else
      Some(GraphLoader.CsrrgData(
        if lines != [] then Atoi(lines[0]) else 0,
        LineInts(lines, 1), LineInts(lines, 2), LineInts(lines, 3), LineInts(lines, 4)))
  }

  /** A list field with its count, as `parse_line` leaves them: None (NULL) and 0 for no integers. */
  function ListField(xs: seq<int>): (Option<seq<int>>, int)
  {
    (if xs == [] then None else Some(xs), |xs|)
  }

  /** The fields of the struct once the non-empty lines `lines` are read, and their initial values beyond. */
  function FieldsOf(lines: seq<string>): (int, (Option<seq<int>>, int), (Option<seq<int>>, int), (Option<seq<int>>, int), (Option<seq<int>>, int))
  {
    (if lines != [] then Atoi(lines[0]) else 0,
     ListField(LineInts(lines, 1)), ListField(LineInts(lines, 2)), ListField(LineInts(lines, 3)), ListField(LineInts(lines, 4)))
  }

  /** The contents of a list field; none for NULL. */
  function Contents(a: Option<seq<int>>): seq<int>
  {
    if a.None? then [] else a.value
  }

  /** What `parse_line` returned, as a list field holds it. */
  function Held(numbers: array?<int>): Option<seq<int>>
    reads numbers
  {
    if numbers == null then None else Some(numbers[..])
  }

  /**
   * The `CSRRGData` struct `read_csrrg_data` allocates and fills, one field
   * per line number. A list field holds the contents of the array
   * `parse_line` returned, None for NULL.
   */
  class CsrrgStruct {
    var maxSecondaryValue: int
    var secondaryData: Option<seq<int>>
    var secondaryDataCount: int
    var secondaryRowPtr: Option<seq<int>>
    var secondaryRowPtrCount: int
    var graphNeighbors: Option<seq<int>>
    var graphNeighborsCount: int
    var graphRowPtr: Option<seq<int>>
    var graphRowPtrCount: int

    /** All nine fields. */
    function Fields(): (int, (Option<seq<int>>, int), (Option<seq<int>>, int), (Option<seq<int>>, int), (Option<seq<int>>, int))
      reads this
    {
      (maxSecondaryValue, (secondaryData, secondaryDataCount), (secondaryRowPtr, secondaryRowPtrCount),
       (graphNeighbors, graphNeighborsCount), (graphRowPtr, graphRowPtrCount))
    }

    /** The fields hold what the non-empty lines read so far give. */
    predicate Holds(lines: seq<string>)
      reads this
    {
      |lines| <= 5 && Fields() == FieldsOf(lines)
    }

    /** The five fields as values. */
    function Record(): GraphLoader.CsrrgData
      reads this
    {
      GraphLoader.CsrrgData(maxSecondaryValue, Contents(secondaryData), Contents(secondaryRowPtr),
        Contents(graphNeighbors), Contents(graphRowPtr))
    }

    /** Every count 0 and every list NULL. */
    constructor ()
      ensures Holds([])
    {
      maxSecondaryValue := 0;
      secondaryData := None;
      secondaryDataCount := 0;
      secondaryRowPtr := None;
      secondaryRowPtrCount := 0;
      graphNeighbors := None;
      graphNeighborsCount := 0;
      graphRowPtr := None;
      graphRowPtrCount := 0;
    }

    /** The `switch` on the line number: `atoi` for line 1, `parse_line` into the field of lines 2 to 5. */
    method Store(lineNumber: int, line: string, ghost lines: seq<string>)
      requires Holds(lines) && lineNumber == |lines| + 1 <= 5
      modifies this
      ensures Holds(lines + [line])
    {
      ghost var next := lines + [line];
      assert next[..|lines|] == lines;
      assert forall i: nat :: i != |lines| ==> LineInts(next, i) == LineInts(lines, i);
      assert LineInts(next, |lines|) == Scan(line);
      if lineNumber == 1 {
        maxSecondaryValue := Atoi(line);
      } else {
        var numbers, count := ParseLine(line);
        if lineNumber == 2 {
          secondaryData, secondaryDataCount := Held(numbers), count;
        } else if lineNumber == 3 {
          secondaryRowPtr, secondaryRowPtrCount := Held(numbers), count;
        } else if lineNumber == 4 {
          graphNeighbors, graphNeighborsCount := Held(numbers), count;
          // the failure check after line 4 never fires: NULL comes only with a count of 0
          assert !(graphNeighbors.None? && graphNeighborsCount > 0);
        } else {
          graphRowPtr, graphRowPtrCount := Held(numbers), count;
          // likewise after line 5
          assert !(graphRowPtr.None? && graphRowPtrCount > 0);
        }
      }
    }
  }

  /** The lines kept so far and the non-empty lines still to come, after one more `read_line`. */
  lemma LinesAdvance(s: string, k: nat, kept: seq<string>, total: seq<string>)
    requires k > 0 && kept + NonEmptyLines(s, k) == total
    ensures NextLine(s).None? ==> kept == total
    ensures NextLine(s).Some? && NextLine(s).value.0 == [] ==> kept + NonEmptyLines(NextLine(s).value.1, k) == total
    ensures NextLine(s).Some? && NextLine(s).value.0 != [] ==>
      (kept + [NextLine(s).value.0]) + NonEmptyLines(NextLine(s).value.1, k - 1) == total
  {
    if NextLine(s).Some? && NextLine(s).value.0 != [] {
      var (line, rest) := NextLine(s).value;
      assert NonEmptyLines(s, k) == [line] + NonEmptyLines(rest, k - 1);
      assert (kept + [line]) + NonEmptyLines(rest, k - 1) == kept + ([line] + NonEmptyLines(rest, k - 1));
    }
  }

  /**
   * `read_csrrg_data`: read lines until five non-empty ones are stored or
   * the file ends, then reject missing graph lists and fewer than two row
   * pointers.
   */
  method ReadCsrrgData(input: string) returns (data: CsrrgStruct?)
    ensures data == null <==> ReadCsrrg(input).None?
    ensures data != null ==> data.Record() == ReadCsrrg(input).value && data.Holds(NonEmptyLines(input, 5))
  {
    var d := new CsrrgStruct();
    ghost var lines := ReadLines(input, d);
    if d.graphNeighbors.None? || d.graphRowPtr.None? {
      return null;
    }
    if d.graphRowPtrCount < 2 {
      return null;
    }
    return d;
  }

  /** The reading loop of `read_csrrg_data`: the struct ends up holding the first five non-empty lines. */
  method ReadLines(input: string, d: CsrrgStruct) returns (ghost lines: seq<string>)
    requires d.Holds([])
    modifies d
    ensures lines == NonEmptyLines(input, 5) && d.Holds(lines)
  {
    var lineNumber := 0;
    var file := input;
    lines := [];
    while lineNumber < 5
      invariant lineNumber == |lines| <= 5
      invariant lines + NonEmptyLines(file, 5 - lineNumber) == NonEmptyLines(input, 5)
      invariant d.Holds(lines)
      decreases |file|
    {
      var line, rest := ReadLine(file);
      LinesAdvance(file, 5 - lineNumber, lines, NonEmptyLines(input, 5));
      if line.None? {
        break;
      }
      file := rest;
      if line.value == [] {
        continue;
      }
      lineNumber := lineNumber + 1;
      d.Store(lineNumber, line.value, lines);
      lines := lines + [line.value];
    }
  }

  // ------------------------------------------------------------ wczytaj_graf

  /**
   * `wczytaj_graf`: None where `read_csrrg_data` gives NULL; otherwise the
   * graph of lines 4 and 5, with as many vertices as row pointers less one
   * (at least one) and half as many edges as neighbour entries. The arrays
   * are taken over as read: nothing checks that they form a CSR structure.
   */
  method LoadGraf(input: string) returns (graf: Option<Graph>)
    ensures graf.Some? <==> ReadCsrrg(input).Some?
    ensures graf.Some? ==>
      var data := ReadCsrrg(input).value;
      && graf.value.vertexCount == |data.graphRowPtr| - 1 >= 1
      && graf.value.edgeCount == |data.graphNeighbors| / 2
      && graf.value.rowPointers == data.graphRowPtr
      && graf.value.adjacencyList == data.graphNeighbors
  {
    var data := ReadCsrrgData(input);
    if data == null {
      return None;
    }
    var vertexCount := data.graphRowPtrCount - 1;
    // the check for a vertex count below 1 never fires: `read_csrrg_data` demands two row pointers
    assert vertexCount > 0;
    graf := Some(Graph(vertexCount, data.graphNeighborsCount / 2, data.graphRowPtr.value, data.graphNeighbors.value));
  }

  // ------------------------------------------------------------ files the Java writer saves

  /** The characters of a file whose lines were printed with `println`: each line, then a newline. */
  function Unlines(lines: seq<string>): string
  {
    if lines == [] then [] else lines[0] + "\n" + Unlines(lines[1..])
  }

  /** A line `read_line` gives back as written: no newline inside and no carriage return at the end. */
  predicate Clean(line: string)
  {
    '\n' !in line && (line == [] || line[|line| - 1] != '\r')
  }

  /** The characters the Java CSRRG writer prints in a list line. */
  predicate ListChar(c: char)
  {
    IsDigit(c) || c == '-' || c == ';'
  }

  /** A printed list is clean, and non-empty when the list is. */
  lemma IntegerLineClean(xs: seq<int>)
    ensures Clean(GraphSaver.IntegerLine(xs))
    ensures xs != [] ==> GraphSaver.IntegerLine(xs) != []
  {
    var ss := GraphLoader.ShowAll(xs);
    JoinAll(ss, ";", ListChar);
    var line := GraphSaver.IntegerLine(xs);
    assert forall i :: 0 <= i < |line| ==> ListChar(line[i]);
    if xs != [] {
      assert |Join(ss, ";")| >= |ss[0]| by {
        if |ss| > 1 {
          assert Join(ss, ";") == ss[0] + ";" + Join(ss[1..], ";");
        }
      }
    }
  }

  /** A printed list is read back by `parse_line` as the list. */
  lemma IntegerLineRead(xs: seq<int>)
    ensures Scan(GraphSaver.IntegerLine(xs)) == xs
  {
    ScanJoined(xs);
  }

  /** A printed integer is read back by `atoi` as the integer. */
  lemma AtoiShow(x: int)
    ensures Atoi(Show(x)) == x
  {
    StrtolShow(x, "");
    assert Show(x) + "" == Show(x);
  }

  /** A printed integer is non-empty and clean. */
  lemma ShowClean(x: int)
    ensures Show(x) != [] && Clean(Show(x))
  {
    assert forall i :: 0 <= i < |Show(x)| ==> Show(x)[i] != '\n';
  }

  /** Each printed head line with a non-empty list is non-empty and clean. */
  lemma HeadLinesClean(k: int, vertices: seq<int>, offsets: seq<int>, adjacency: seq<int>, rowPointers: seq<int>)
    requires vertices != [] && offsets != [] && adjacency != [] && rowPointers != []
    ensures var head := GraphSaver.HeadLines(k, vertices, offsets, adjacency, rowPointers);
      forall i :: 0 <= i < 5 ==> head[i] != [] && Clean(head[i])
  {
    ShowClean(k);
    IntegerLineClean(vertices);
    IntegerLineClean(offsets);
    IntegerLineClean(adjacency);
    IntegerLineClean(rowPointers);
    FiveClean(Show(k), GraphSaver.IntegerLine(vertices), GraphSaver.IntegerLine(offsets),
      GraphSaver.IntegerLine(adjacency), GraphSaver.IntegerLine(rowPointers));
  }

  /** Five non-empty clean lines, gathered. */
  lemma FiveClean(h0: string, h1: string, h2: string, h3: string, h4: string)
    requires h0 != [] && Clean(h0) && h1 != [] && Clean(h1) && h2 != [] && Clean(h2)
    requires h3 != [] && Clean(h3) && h4 != [] && Clean(h4)
    ensures var head := [h0, h1, h2, h3, h4];
      forall i :: 0 <= i < 5 ==> head[i] != [] && Clean(head[i])
  {
  }

  /** `read_csrrg_data` on a file whose first five non-empty lines are given. */
  lemma ReadFiveLines(file: string, head: seq<string>)
    requires NonEmptyLines(file, 5) == head && |head| == 5
    requires Scan(head[3]) != [] && |Scan(head[4])| >= 2
    ensures ReadCsrrg(file) == Some(GraphLoader.CsrrgData(Atoi(head[0]), Scan(head[1]), Scan(head[2]), Scan(head[3]), Scan(head[4])))
  {
  }

  /** A file whose first five lines are printed head lines with non-empty lists is read as those lists. */
  lemma HeadFileRead(lines: seq<string>, k: int, vertices: seq<int>, offsets: seq<int>, adjacency: seq<int>, rowPointers: seq<int>)
    requires |lines| >= 5 && lines[..5] == GraphSaver.HeadLines(k, vertices, offsets, adjacency, rowPointers)
    requires vertices != [] && offsets != [] && adjacency != [] && |rowPointers| >= 2
    ensures ReadCsrrg(Unlines(lines)) == Some(GraphLoader.CsrrgData(k, vertices, offsets, adjacency, rowPointers))
  {
    var head := GraphSaver.HeadLines(k, vertices, offsets, adjacency, rowPointers);
    HeadLinesClean(k, vertices, offsets, adjacency, rowPointers);
    assert forall i :: 0 <= i < 5 ==> lines[i] == head[i];
    UnlinesFive(lines);
    FiveLinesRead(lines[0], lines[1], lines[2], lines[3], lines[4], Unlines(lines[5..]));
    assert [lines[0], lines[1], lines[2], lines[3], lines[4]] == head;
    AtoiShow(k);
    IntegerLineRead(vertices);
    IntegerLineRead(offsets);
    IntegerLineRead(adjacency);
    IntegerLineRead(rowPointers);
    ReadFiveLines(Unlines(lines), head);
  }

  /**
   * The C loader reads what the Java CSRRG writer saves: for a graph with at
   * least one vertex and one neighbour entry, and at least one vertex in a
   * part, the five fields are the part count, the grouped vertices, the
   * group offsets and the graph's two CSR arrays, of any width.
   */
  lemma CReadsJavaCsrrg(g: Graph, a: seq<int>, k: int)
    requires Csr(g) && g.vertexCount >= 1 && g.adjacencyList != []
    requires Flatten(GraphSaver.Groups(a, g.vertexCount, k)) != []
    ensures var groups := GraphSaver.Groups(a, g.vertexCount, k);
      ReadCsrrg(Unlines(GraphSaver.CsrrgText(g, a, k))) ==
        Some(GraphLoader.CsrrgData(k, Flatten(groups), GraphSaver.Offsets(groups), g.adjacencyList, g.rowPointers))
  {
    var groups := GraphSaver.Groups(a, g.vertexCount, k);
    GraphSaver.CsrrgHead(g, a, k, groups);
    HeadFileRead(GraphSaver.CsrrgText(g, a, k), k, Flatten(groups), GraphSaver.Offsets(groups), g.adjacencyList, g.rowPointers);
  }

  /** A written empty line is skipped. */
  lemma SkippedLine(rest: string, k: nat)
    requires k > 0
    ensures NonEmptyLines("\n" + rest, k) == NonEmptyLines(rest, k)
  {
    NextLineOfWritten([], rest);
    assert [] + "\n" + rest == "\n" + rest;
  }

  /** A written non-empty clean line is kept. */
  lemma KeptLine(line: string, rest: string, k: nat)
    requires k > 0 && line != [] && Clean(line)
    ensures NonEmptyLines(line + "\n" + rest, k) == [line] + NonEmptyLines(rest, k - 1)
  {
    NextLineOfWritten(line, rest);
  }

  /** The first five written lines, spelled out. */
  lemma UnlinesFive(lines: seq<string>)
    requires |lines| >= 5
    ensures Unlines(lines) ==
      lines[0] + "\n" + (lines[1] + "\n" + (lines[2] + "\n" + (lines[3] + "\n" + (lines[4] + "\n" + Unlines(lines[5..])))))
  {
    var t1 := lines[1..];
    var t2 := t1[1..];
    var t3 := t2[1..];
    var t4 := t3[1..];
    assert t4[1..] == lines[5..];
    assert Unlines(t4) == lines[4] + "\n" + Unlines(lines[5..]);
    assert Unlines(t3) == lines[3] + "\n" + Unlines(t4);
    assert Unlines(t2) == lines[2] + "\n" + Unlines(t3);
    assert Unlines(t1) == lines[1] + "\n" + Unlines(t2);
    assert Unlines(lines) == lines[0] + "\n" + Unlines(t1);
  }

  /** With the fourth written line empty, the fourth line read is the fifth one written. */
  lemma FourthLineEmpty(lines: seq<string>)
    requires |lines| >= 5 && lines[3] == []
    requires forall i :: 0 <= i < 5 && i != 3 ==> lines[i] != [] && Clean(lines[i])
    ensures var read := NonEmptyLines(Unlines(lines), 5);
      |read| >= 4 && read[3] == lines[4]
  {
    UnlinesFive(lines);
    var rest := Unlines(lines[5..]);
    assert lines[3] + "\n" + (lines[4] + "\n" + rest) == "\n" + (lines[4] + "\n" + rest);
    FourthEmptyRead(lines[0], lines[1], lines[2], lines[4], rest);
  }

  /** Five non-empty clean lines written one per line are the first five lines read, in order. */
  lemma FiveLinesRead(l0: string, l1: string, l2: string, l3: string, l4: string, rest: string)
    requires l0 != [] && Clean(l0) && l1 != [] && Clean(l1) && l2 != [] && Clean(l2)
    requires l3 != [] && Clean(l3) && l4 != [] && Clean(l4)
    ensures NonEmptyLines(l0 + "\n" + (l1 + "\n" + (l2 + "\n" + (l3 + "\n" + (l4 + "\n" + rest)))), 5) == [l0, l1, l2, l3, l4]
  {
    var r3 := l3 + "\n" + (l4 + "\n" + rest);
    var r2 := l2 + "\n" + r3;
    var r1 := l1 + "\n" + r2;
    KeptLine(l4, rest, 1);
    KeptLine(l3, l4 + "\n" + rest, 2);
    KeptLine(l2, r3, 3);
    KeptLine(l1, r2, 4);
    KeptLine(l0, r1, 5);
    NoLinesWanted(rest);
    ConsFive(l0, l1, l2, l3, l4);
  }

  /** Five lines read one after the other make the five-line sequence. */
  lemma ConsFive(l0: string, l1: string, l2: string, l3: string, l4: string)
    ensures [l0] + ([l1] + ([l2] + ([l3] + ([l4] + [])))) == [l0, l1, l2, l3, l4]
  {
  }

  /** Asking for no lines reads none. */
  lemma NoLinesWanted(s: string)
    ensures NonEmptyLines(s, 0) == []
  {
  }

  /** Three kept lines, an empty one and a kept one: the fourth line read is the fifth written. */
  lemma FourthEmptyRead(l0: string, l1: string, l2: string, l4: string, rest: string)
    requires l0 != [] && Clean(l0) && l1 != [] && Clean(l1) && l2 != [] && Clean(l2) && l4 != [] && Clean(l4)
    ensures var read := NonEmptyLines(l0 + "\n" + (l1 + "\n" + (l2 + "\n" + ("\n" + (l4 + "\n" + rest)))), 5);
      |read| >= 4 && read[3] == l4
  {
    var r4 := l4 + "\n" + rest;
    var r2 := l2 + "\n" + ("\n" + r4);
    var r1 := l1 + "\n" + r2;
    KeptLine(l4, rest, 2);
    SkippedLine(r4, 2);
    KeptLine(l2, "\n" + r4, 3);
    KeptLine(l1, r2, 4);
    KeptLine(l0, r1, 5);
  }

  /** Head lines with an empty neighbour list: a file starting with them that is accepted has the row pointers as neighbours. */
  lemma EdgelessHeadRead(lines: seq<string>, k: int, vertices: seq<int>, offsets: seq<int>, rowPointers: seq<int>)
    requires |lines| >= 5 && lines[..5] == GraphSaver.HeadLines(k, vertices, offsets, [], rowPointers)
    requires vertices != [] && offsets != [] && rowPointers != []
    ensures var r := ReadCsrrg(Unlines(lines));
      r.Some? ==> r.value.graphNeighbors == rowPointers
  {
    var head := GraphSaver.HeadLines(k, vertices, offsets, [], rowPointers);
    assert forall i :: 0 <= i < 5 ==> lines[i] == head[i];
    ShowClean(k);
    IntegerLineClean(vertices);
    IntegerLineClean(offsets);
    IntegerLineClean(rowPointers);
    assert lines[3] == [];
    FourthLineEmpty(lines);
    IntegerLineRead(rowPointers);
  }

  /**
   * A graph without edges is saved with an empty fourth line, which the C
   * loader skips: whenever it accepts the file, the neighbour list it reads
   * is the graph's row-pointer list.
   */
  lemma EdgelessGraphMisread(g: Graph, a: seq<int>, k: int)
    requires Csr(g) && g.vertexCount >= 1 && g.adjacencyList == []
    requires Flatten(GraphSaver.Groups(a, g.vertexCount, k)) != []
    ensures var r := ReadCsrrg(Unlines(GraphSaver.CsrrgText(g, a, k)));
      r.Some? ==> r.value.graphNeighbors == g.rowPointers
  {
    var groups := GraphSaver.Groups(a, g.vertexCount, k);
    GraphSaver.CsrrgHead(g, a, k, groups);
    EdgelessHeadRead(GraphSaver.CsrrgText(g, a, k), k, Flatten(groups), GraphSaver.Offsets(groups), g.rowPointers);
  }
}
