/**
 * `GraphSaver`: the two output formats of the Java partitioner, produced as
 * the sequence of lines the writer prints.
 *   - adjacency-matrix text: `#` headers, one bracketed row of "1."/"0."
 *     entries per vertex, then one "v - p" line per vertex;
 *   - CSRRG text: the part count, the vertices grouped by part, the group
 *     offsets, the graph's neighbour list and row pointers, then two lines
 *     per part describing the sub-graph induced by that part.
 * Each format is read back by the matching loader of `GraphLoader`.
 */
module GraphSaver {
  import opened Wrappers
  import opened Text
  import opened Graphs
  import opened Partitions
  import opened GraphLoader

  // ------------------------------------------------------------ adjacency-matrix text: layout

  /** The header lines, up to the matrix heading. */
  function MatrixHeader(partCount: int, vertexCount: int, cutEdges: int): seq<string>
  {
    ["# Podzial grafu na " + Show(partCount) + " czesci",
     "# Liczba wierzcholkow: " + Show(vertexCount),
     "# Liczba przecietych krawedzi: " + Show(cutEdges),
     "",
     "# Macierz sasiedztwa:"]
  }

  /** The lines between the matrix and the assignments. */
  function AssignmentHeader(): seq<string>
  {
    ["", "# Lista przypisan wierzcholkow do czesci:", "# Format: <id_wierzcholka> - <id_czesci>"]
  }

  /** How one matrix entry is printed. */
  function Entry(edge: bool): string
  {
    if edge then "1." else "0."
  }

  /** The `row` array of vertex `i`: column `j` is set exactly when `j` is one of its in-range neighbours. */
  function RowFlags(g: Graph, i: int): seq<bool>
    requires Csr(g)
  {
    seq(g.vertexCount, j requires 0 <= j < g.vertexCount => j in Neighbors(g, i))
  }

  /** The entries of a row, one space between neighbours. */
  function RowBody(flags: seq<bool>): string
  {
    if flags == [] then []
    else if |flags| == 1 then Entry(flags[0])
    else Entry(flags[0]) + " " + RowBody(flags[1..])
  }

  function RowLine(flags: seq<bool>): string
  {
    "[" + RowBody(flags) + "]"
  }

  function MatrixRows(g: Graph): seq<string>
    requires Csr(g)
  {
    seq(g.vertexCount, i requires 0 <= i < g.vertexCount => RowLine(RowFlags(g, i)))
  }

  function AssignmentLine(v: int, part: int): string
  {
    Show(v) + " - " + Show(part)
  }

  /** One "v - p" line per vertex of the graph, `p` read with the lenient `getAssignment`. */
  function AssignmentLines(a: seq<int>, n: nat): seq<string>
  {
    seq(n, v requires 0 <= v < n => AssignmentLine(v, Part(a, v)))
  }

  /** Everything `savePartitionToAdjacencyMatrixText` prints, line by line. */
  function MatrixText(g: Graph, a: seq<int>, partCount: int, cutEdges: int): seq<string>
    requires Csr(g)
  {
    MatrixHeader(partCount, g.vertexCount, cutEdges) + MatrixRows(g) + AssignmentHeader() + AssignmentLines(a, g.vertexCount)
  }

  // ------------------------------------------------------------ adjacency-matrix text: writer

  /** The `row` loop: every in-range neighbour of `i` is marked. */
  method MarkRow(g: Graph, i: int) returns (row: array<bool>)
    requires Csr(g) && 0 <= i < g.vertexCount
    ensures fresh(row) && row[..] == RowFlags(g, i)
  {
    var n := g.vertexCount;
    row := new bool[n](_ => false);
    var neighbors := Neighbors(g, i);
    for k := 0 to |neighbors|
      invariant forall j :: 0 <= j < n ==> row[j] == (j in neighbors[..k])
    {
      var neighbor := neighbors[k];
      assert neighbors[..k + 1] == neighbors[..k] + [neighbor];
      if 0 <= neighbor < n {
        row[neighbor] := true;
      }
    }
    assert neighbors[..|neighbors|] == neighbors;
  }

  /** The row printing loop: an entry per column, a space after all but the last. */
  method WriteRow(row: array<bool>) returns (text: string)
    ensures text == RowLine(row[..])
  {
    var n := row.Length;
    var body := "";
    for j := 0 to n
      invariant body == RowBody(row[..j]) + Gap(j, n)
    {
      RowStep(row[..], j);
      body := body + Entry(row[j]);
      if j < n - 1 {
        body := body + " ";
      }
    }
    assert row[..n] == row[..];
    text := "[" + body + "]";
  }

  /** The space left after the entries printed so far. */
  function Gap(j: int, n: int): string
  {
    if 0 < j < n then " " else ""
  }

  /** One more column of the printing loop. */
  lemma {:induction false} RowStep(flags: seq<bool>, j: int)
    requires 0 <= j < |flags|
    ensures RowBody(flags[..j + 1]) + Gap(j + 1, |flags|)
      == RowBody(flags[..j]) + Gap(j, |flags|) + Entry(flags[j]) + (if j < |flags| - 1 then " " else "")
  {
    assert flags[..j + 1] == flags[..j] + [flags[j]];
    RowBodySnoc(flags[..j], flags[j]);
  }

  /** Printing one more entry adds a space (unless it is the first) and the entry. */
  lemma {:induction false} RowBodySnoc(flags: seq<bool>, b: bool)
    ensures RowBody(flags + [b]) == RowBody(flags) + (if flags == [] then "" else " ") + Entry(b)
  {
    if |flags| == 1 {
      assert (flags + [b])[1..] == [b];
    } else if |flags| > 1 {
      assert (flags + [b])[1..] == flags[1..] + [b];
      RowBodySnoc(flags[1..], b);
    }
  }

  /** The matrix loop: one printed row per vertex. */
  method WriteRows(g: Graph) returns (rows: seq<string>)
    requires Csr(g)
    ensures rows == MatrixRows(g)
  {
    rows := [];
    for i := 0 to g.vertexCount
      invariant rows == MatrixRows(g)[..i]
    {
      var row := MarkRow(g, i);
      var text := WriteRow(row);
      assert MatrixRows(g)[..i + 1] == MatrixRows(g)[..i] + [text];
      rows := rows + [text];
    }
  }

  /** The assignment loop: one "v - p" line per vertex, `p` read with the lenient `getAssignment`. */
  method WriteAssignments(assignments: array<int>, n: nat) returns (lines: seq<string>)
    ensures lines == AssignmentLines(assignments[..], n)
  {
    lines := [];
    for v := 0 to n
      invariant lines == AssignmentLines(assignments[..], n)[..v]
    {
      var part := if v < assignments.Length then assignments[v] else -1;
      assert part == Part(assignments[..], v);
      ghost var all := AssignmentLines(assignments[..], n);
      assert all[v] == AssignmentLine(v, part);
      assert all[..v + 1] == all[..v] + [all[v]];
      lines := lines + [AssignmentLine(v, part)];
    }
  }

  /** `savePartitionToAdjacencyMatrixText`, with the file replaced by the printed lines. */
  method SaveAdjacencyMatrixText(g: Graph, p: Partition) returns (lines: seq<string>)
    requires Csr(g)
    ensures lines == MatrixText(g, p.assignments[..], p.partCount, p.cutEdges)
  {
    var rows := WriteRows(g);
    var assignmentLines := WriteAssignments(p.assignments, g.vertexCount);
    lines := MatrixHeader(p.partCount, g.vertexCount, p.cutEdges) + rows + AssignmentHeader() + assignmentLines;
  }

  // ------------------------------------------------------------ adjacency-matrix text: reading a row back

  /** The digit an entry leaves once the dots are read as separators. */
  function EntryDigit(edge: bool): string
  {
    if edge then "1" else "0"
  }

  function RowDigits(flags: seq<bool>): (digits: seq<string>)
    ensures |digits| == |flags|
    ensures forall j :: 0 <= j < |flags| ==> digits[j] == EntryDigit(flags[j])
  {
    if flags == [] then [] else [EntryDigit(flags[0])] + RowDigits(flags[1..])
  }

  /** The last entry of a row: its digit, then an empty field after the dot. */
  lemma {:induction false} FieldsOfLast(c: char)
    requires !CellSeparator(c)
    ensures RunFields([c, '.']) == [[c], ""]
  {
    var s := [c, '.'];
    assert FieldEnd(s, 0) == 1;
    assert RunEnd(s, 2) == 2;
    assert s[..1] == [c] && s[2..] == [];
  }

  /** An entry followed by a space and more text: its digit, then the fields of the rest. */
  lemma {:induction false} FieldsOfNext(c: char, r: string)
    requires !CellSeparator(c) && |r| >= 1 && !CellSeparator(r[0])
    ensures RunFields([c, '.', ' '] + r) == [[c]] + RunFields(r)
  {
    var s := [c, '.', ' '] + r;
    assert FieldEnd(s, 0) == 1;
    assert RunEnd(s, 2) == 3;
    assert s[..1] == [c] && s[3..] == r;
  }

  /** Split on runs of white space and dots, a row body leaves one digit per entry and a trailing empty field. */
  lemma {:induction false} RowBodyFields(flags: seq<bool>)
    requires |flags| >= 1
    ensures |RowBody(flags)| >= 2 && !CellSeparator(RowBody(flags)[0]) && RowBody(flags)[1] == '.'
    ensures RunFields(RowBody(flags)) == RowDigits(flags) + [""]
  {
    var c := if flags[0] then '1' else '0';
    assert Entry(flags[0]) == [c, '.'] && EntryDigit(flags[0]) == [c];
    if |flags| == 1 {
      FieldsOfLast(c);
    } else {
      var r := RowBody(flags[1..]);
      assert RowBody(flags) == [c, '.', ' '] + r;
      RowBodyFields(flags[1..]);
      FieldsOfNext(c, r);
    }
  }

  /** The only characters of a row body. */
  predicate RowChar(c: char)
  {
    c == '0' || c == '1' || c == '.' || c == ' '
  }

  lemma {:induction false} RowBodyChars(flags: seq<bool>)
    ensures forall i :: 0 <= i < |RowBody(flags)| ==> RowChar(RowBody(flags)[i])
  {
    if |flags| > 1 {
      RowBodyChars(flags[1..]);
      var r := RowBody(flags[1..]);
      assert RowBody(flags) == Entry(flags[0]) + " " + r;
      forall i | 3 <= i < |RowBody(flags)|
        ensures RowBody(flags)[i] == r[i - 3]
      {
      }
    }
  }

  /**
   * The matrix loader reads a printed row back as one cell per column:
   * "1" where the row holds an edge, "0" elsewhere.
   */
  lemma {:induction false} RowCells(flags: seq<bool>)
    requires |flags| >= 1
    ensures Cells(RowLine(flags)) == RowDigits(flags)
  {
    Unbracketed(flags);
    BodyCells(flags);
  }

  /** Removing the brackets of a row line leaves its body. */
  lemma {:induction false} Unbracketed(flags: seq<bool>)
    ensures RemoveBrackets(RowLine(flags)) == RowBody(flags)
  {
    var body := RowBody(flags);
    RowBodyChars(flags);
    RemoveBracketsAppend("[" + body, "]");
    RemoveBracketsAppend("[", body);
    RemoveBracketsFree(body);
    assert RemoveBrackets("[") == [] && RemoveBrackets("]") == [];
  }

  /** A row body splits into its digits. */
  lemma {:induction false} BodyCells(flags: seq<bool>)
    requires |flags| >= 1
    ensures SplitCells(RowBody(flags)) == RowDigits(flags)
  {
    var body := RowBody(flags);
    RowBodyFields(flags);
    assert FieldEnd(body, 0) == 1;
    var digits := RowDigits(flags);
    assert (digits + [""])[..|digits|] == digits;
    assert DropTrailingEmpty(digits + [""]) == DropTrailingEmpty(digits);
  }

  /** A row line is kept by the loader as it is, and it never opens the assignment section. */
  lemma {:induction false} RowLineKept(flags: seq<bool>)
    ensures Kept(RowLine(flags)) && Trim(RowLine(flags)) == RowLine(flags)
    ensures !Contains(RowLine(flags), " - ")
  {
    var line := RowLine(flags);
    RowBodyChars(flags);
    assert forall i :: 0 <= i < |line| ==> line[i] != '-' by {
      forall i | 0 <= i < |line|
        ensures line[i] != '-'
      {
        if 0 < i < |line| - 1 {
          assert line[i] == RowBody(flags)[i - 1];
        }
      }
    }
    MissingCharNoMatch(line, " - ", 1);
    TrimFixed(line);
    assert line[..1] == "[";
  }

  /** An entry is an edge cell exactly when it marks an edge. */
  lemma {:induction false} DigitIsOne(edge: bool)
    ensures IsOne(EntryDigit(edge)) <==> edge
  {
    TrimFixed(EntryDigit(edge));
  }

  // ------------------------------------------------------------ adjacency-matrix text: sections

  /** An empty line, or a `#` line without trailing blanks. */
  predicate Skipped(s: string)
  {
    s == [] || (s[0] == '#' && !Blank(s[|s| - 1]))
  }

  /** The loader drops every such line. */
  lemma {:induction false} SkippedNotKept(s: string)
    requires Skipped(s)
    ensures !Kept(s)
  {
    TrimFixed(s);
    if s != [] {
      assert s[..1] == "#";
    }
  }

  /** A `#` line ending in a number is skipped. */
  lemma {:induction false} NumberCommentSkipped(prefix: string, x: int)
    requires |prefix| >= 1 && prefix[0] == '#'
    ensures Skipped(prefix + Show(x))
  {
    var s := prefix + Show(x);
    assert s[|s| - 1] == Show(x)[|Show(x)| - 1];
  }

  lemma {:induction false} PartCountLineSkipped(partCount: int)
    ensures Skipped(MatrixHeader(partCount, 0, 0)[0])
  {
    var s := MatrixHeader(partCount, 0, 0)[0];
    assert s[|s| - 1] == 'i';
  }

  lemma {:induction false} VertexCountLineSkipped(vertexCount: int)
    ensures Skipped(MatrixHeader(0, vertexCount, 0)[1])
  {
    NumberCommentSkipped("# Liczba wierzcholkow: ", vertexCount);
  }

  lemma {:induction false} CutEdgesLineSkipped(cutEdges: int)
    ensures Skipped(MatrixHeader(0, 0, cutEdges)[2])
  {
    NumberCommentSkipped("# Liczba przecietych krawedzi: ", cutEdges);
  }

  lemma {:induction false} MatrixHeaderSkipped(partCount: int, vertexCount: int, cutEdges: int)
    ensures var h := MatrixHeader(partCount, vertexCount, cutEdges);
      |h| == 5 && Skipped(h[0]) && Skipped(h[1]) && Skipped(h[2]) && Skipped(h[3]) && Skipped(h[4])
  {
    PartCountLineSkipped(partCount);
    VertexCountLineSkipped(vertexCount);
    CutEdgesLineSkipped(cutEdges);
  }

  lemma {:induction false} AssignmentHeaderSkipped()
    ensures var h := AssignmentHeader(); |h| == 3 && Skipped(h[0]) && Skipped(h[1]) && Skipped(h[2])
  {
  }

  /** Every header line is skipped. */
  lemma {:induction false} HeadersSkipped(partCount: int, vertexCount: int, cutEdges: int)
    ensures forall k :: 0 <= k < 5 ==> Skipped(MatrixHeader(partCount, vertexCount, cutEdges)[k])
    ensures forall k :: 0 <= k < 3 ==> Skipped(AssignmentHeader()[k])
  {
    MatrixHeaderSkipped(partCount, vertexCount, cutEdges);
    AssignmentHeaderSkipped();
    var h := MatrixHeader(partCount, vertexCount, cutEdges);
    var m := AssignmentHeader();
    forall k | 0 <= k < 5 ensures Skipped(h[k]) {
      if k == 0 {} else if k == 1 {} else if k == 2 {} else if k == 3 {} else {}
    }
    forall k | 0 <= k < 3 ensures Skipped(m[k]) {
      if k == 0 {} else if k == 1 {} else {}
    }
  }

  /** Lines the loader skips do not change the sections. */
  lemma {:induction false} SectionsSkip(xs: seq<string>, ys: seq<string>)
    requires forall k :: 0 <= k < |ys| ==> Skipped(ys[k])
    ensures Sections(xs + ys) == Sections(xs)
  {
    if ys == [] {
      assert xs + ys == xs;
    } else {
      var front := ys[..|ys| - 1];
      SkippedNotKept(ys[|ys| - 1]);
      assert (xs + ys)[..|xs + ys| - 1] == xs + front;
      SectionsSkip(xs, front);
    }
  }

  /** Kept lines without " - ", before the assignment section opens, are matrix rows. */
  lemma {:induction false} SectionsRows(xs: seq<string>, ys: seq<string>)
    requires Sections(xs).1 == []
    requires forall k :: 0 <= k < |ys| ==> Kept(ys[k]) && Trim(ys[k]) == ys[k] && !Contains(ys[k], " - ")
    ensures Sections(xs + ys) == (Sections(xs).0 + ys, [])
  {
    if ys == [] {
      assert xs + ys == xs;
      assert Sections(xs).0 + ys == Sections(xs).0;
    } else {
      var front := ys[..|ys| - 1];
      assert (xs + ys)[..|xs + ys| - 1] == xs + front;
      SectionsRows(xs, front);
      assert Sections(xs).0 + front + [ys[|ys| - 1]] == Sections(xs).0 + ys;
    }
  }

  /** Kept lines of which the first holds " - " all go to the assignment section. */
  lemma {:induction false} SectionsAssigns(xs: seq<string>, ys: seq<string>)
    requires forall k :: 0 <= k < |ys| ==> Kept(ys[k]) && Trim(ys[k]) == ys[k]
    requires ys != [] ==> Contains(ys[0], " - ")
    ensures Sections(xs + ys) == (Sections(xs).0, Sections(xs).1 + ys)
  {
    if ys == [] {
      assert xs + ys == xs;
      assert Sections(xs).1 + ys == Sections(xs).1;
    } else {
      var front := ys[..|ys| - 1];
      assert (xs + ys)[..|xs + ys| - 1] == xs + front;
      SectionsAssigns(xs, front);
      assert Sections(xs).1 + front + [ys[|ys| - 1]] == Sections(xs).1 + ys;
    }
  }

  // ------------------------------------------------------------ adjacency-matrix text: assignments back

  /** A printed number has no blank and trims to itself. */
  lemma {:induction false} ShowTrimmed(x: int)
    ensures ' ' !in Show(x) && Trim(Show(x)) == Show(x)
  {
    TrimFixed(Show(x));
  }

  /** An assignment line splits at " - " into its two numbers. */
  lemma {:induction false} AssignmentLineSplit(v: int, part: int)
    ensures Split(AssignmentLine(v, part), " - ") == [Show(v), Show(part)]
    ensures Contains(AssignmentLine(v, part), " - ")
  {
    var ps := [Show(v), Show(part)];
    assert ps[1..] == [Show(part)];
    assert Join(ps, " - ") == AssignmentLine(v, part);
    ShowTrimmed(v);
    ShowTrimmed(part);
    SplitJoin(ps, " - ");
    PiecesOfJoin(ps, " - ");
  }

  /** An assignment line is kept by the loader as it is. */
  lemma {:induction false} AssignmentLineKept(v: int, part: int)
    ensures Kept(AssignmentLine(v, part)) && Trim(AssignmentLine(v, part)) == AssignmentLine(v, part)
  {
    var first, last := Show(v), Show(part);
    var line := first + " - " + last;
    assert line[0] == first[0] && (IsDigit(first[0]) || first[0] == '-');
    assert line[|line| - 1] == last[|last| - 1];
    TrimFixed(line);
    assert line[..1] == [line[0]] != "#";
  }

  /** An assignment line parses back to its two numbers. */
  lemma {:induction false} AssignmentLineEntry(v: int, part: int)
    requires Int32(v) && Int32(part)
    ensures AssignmentEntry(AssignmentLine(v, part)) == Some((v, part))
  {
    AssignmentLineSplit(v, part);
    ShowTrimmed(v);
    ShowTrimmed(part);
    ParseShow(v);
    ParseShow(part);
  }

  /** An assignment line is kept as it is, opens the assignment section and parses back to its two numbers. */
  lemma {:induction false} AssignmentLineRead(v: int, part: int)
    requires Int32(v) && Int32(part)
    ensures var line := AssignmentLine(v, part);
      Kept(line) && Trim(line) == line && Contains(line, " - ") && AssignmentEntry(line) == Some((v, part))
  {
    AssignmentLineSplit(v, part);
    AssignmentLineKept(v, part);
    AssignmentLineEntry(v, part);
  }

  /** The last entry naming a vertex, when each entry names its own position. */
  lemma {:induction false} LastMentionOwn(entries: seq<Option<(int, int)>>, v: int)
    requires forall k :: 0 <= k < |entries| ==> entries[k].Some? && entries[k].value.0 == k
    requires 0 <= v < |entries|
    ensures LastMention(entries, v) == Some(entries[v].value.1)
  {
    var last := |entries| - 1;
    if v < last {
      var front := entries[..last];
      assert front[v] == entries[v];
      LastMentionOwn(front, v);
    }
  }

  /** Entries that each name their own position give every vertex its entry's part. */
  lemma {:induction false} OwnEntriesBack(entries: seq<Option<(int, int)>>, parts: seq<int>)
    requires |entries| == |parts|
    requires forall k :: 0 <= k < |entries| ==> entries[k] == Some((k, parts[k]))
    ensures FinalAssignments(entries, |parts|) == parts
  {
    forall v | 0 <= v < |parts|
      ensures FinalAssignments(entries, |parts|)[v] == parts[v]
    {
      FinalIsLastMention(entries, |parts|, v);
      LastMentionOwn(entries, v);
    }
  }

  /** The entry of each printed assignment line. */
  lemma {:induction false} EntriesOfLines(a: seq<int>, n: nat)
    requires forall v :: 0 <= v < n ==> Int32(v) && Int32(Part(a, v))
    ensures |Entries(AssignmentLines(a, n))| == n
    ensures forall v :: 0 <= v < n ==> Entries(AssignmentLines(a, n))[v] == Some((v, Part(a, v)))
  {
    forall v | 0 <= v < n
      ensures Entries(AssignmentLines(a, n))[v] == Some((v, Part(a, v)))
    {
      AssignmentLineEntry(v, Part(a, v));
    }
  }

  /** The assignments read back from the printed lines. */
  lemma {:induction false} FinalOfLines(a: seq<int>, n: nat, entries: seq<Option<(int, int)>>)
    requires entries == Entries(AssignmentLines(a, n))
    requires forall v :: 0 <= v < n ==> Int32(v) && Int32(Part(a, v))
    ensures FinalAssignments(entries, n) == seq(n, v requires 0 <= v < n => Part(a, v))
  {
    EntriesOfLines(a, n);
    OwnEntriesBack(entries, seq(n, v requires 0 <= v < n => Part(a, v)));
  }

  /** The printed lines name a part exactly when some vertex had one. */
  lemma {:induction false} MaxOfLines(a: seq<int>, n: nat, entries: seq<Option<(int, int)>>)
    requires entries == Entries(AssignmentLines(a, n))
    requires forall v :: 0 <= v < n ==> Int32(v) && Int32(Part(a, v))
    ensures MaxPartId(entries, n) >= 0 <==> exists v :: 0 <= v < n && Part(a, v) >= 0
  {
    EntriesOfLines(a, n);
    MaxPartIdNamed(entries, n);
    forall v | 0 <= v < n && Part(a, v) >= 0
      ensures NamesPart(entries[v], n)
    {
    }
  }

  /** What the assignment section of a saved file reads back as. */
  lemma {:induction false} AssignmentsBack(a: seq<int>, n: nat)
    requires forall v :: 0 <= v < n ==> Int32(v) && Int32(Part(a, v))
    ensures FinalAssignments(Entries(AssignmentLines(a, n)), n) == seq(n, v requires 0 <= v < n => Part(a, v))
    ensures MaxPartId(Entries(AssignmentLines(a, n)), n) >= 0 <==> exists v :: 0 <= v < n && Part(a, v) >= 0
  {
    FinalOfLines(a, n, Entries(AssignmentLines(a, n)));
    MaxOfLines(a, n, Entries(AssignmentLines(a, n)));
  }

  /** Skipped headers around rows and assignment lines: the loader finds the rows and the assignment lines. */
  lemma {:induction false} LayoutSections(h: seq<string>, r: seq<string>, m: seq<string>, s: seq<string>)
    requires forall k :: 0 <= k < |h| ==> Skipped(h[k])
    requires forall k :: 0 <= k < |r| ==> Kept(r[k]) && Trim(r[k]) == r[k] && !Contains(r[k], " - ")
    requires forall k :: 0 <= k < |m| ==> Skipped(m[k])
    requires forall k :: 0 <= k < |s| ==> Kept(s[k]) && Trim(s[k]) == s[k] && Contains(s[k], " - ")
    ensures Sections(h + r + m + s) == (r, s)
  {
    HeaderThenRows(h, r);
    var front := h + r + m;
    SectionsSkip(h + r, m);
    assert Sections(front) == (r, []);
    SectionsAssigns(front, s);
    assert [] + s == s;
  }

  /** Skipped headers followed by matrix rows: the loader keeps exactly the rows. */
  lemma {:induction false} HeaderThenRows(h: seq<string>, r: seq<string>)
    requires forall k :: 0 <= k < |h| ==> Skipped(h[k])
    requires forall k :: 0 <= k < |r| ==> Kept(r[k]) && Trim(r[k]) == r[k] && !Contains(r[k], " - ")
    ensures Sections(h + r) == (r, [])
  {
    SectionsSkip([], h);
    assert [] + h == h;
    SectionsRows(h, r);
    assert [] + r == r;
  }

  /** Every printed row is a kept matrix line. */
  lemma {:induction false} RowsKept(g: Graph)
    requires Csr(g)
    ensures forall k :: 0 <= k < |MatrixRows(g)| ==>
      Kept(MatrixRows(g)[k]) && Trim(MatrixRows(g)[k]) == MatrixRows(g)[k] && !Contains(MatrixRows(g)[k], " - ")
  {
    forall k | 0 <= k < |MatrixRows(g)|
      ensures Kept(MatrixRows(g)[k]) && Trim(MatrixRows(g)[k]) == MatrixRows(g)[k] && !Contains(MatrixRows(g)[k], " - ")
    {
      RowLineKept(RowFlags(g, k));
    }
  }

  /** Every printed assignment line is a kept assignment line. */
  lemma {:induction false} AssignmentLinesKept(a: seq<int>, n: nat)
    ensures forall k :: 0 <= k < |AssignmentLines(a, n)| ==>
      Kept(AssignmentLines(a, n)[k]) && Trim(AssignmentLines(a, n)[k]) == AssignmentLines(a, n)[k] && Contains(AssignmentLines(a, n)[k], " - ")
  {
    forall k | 0 <= k < n
      ensures Kept(AssignmentLines(a, n)[k]) && Trim(AssignmentLines(a, n)[k]) == AssignmentLines(a, n)[k] && Contains(AssignmentLines(a, n)[k], " - ")
    {
      AssignmentLineSplit(k, Part(a, k));
      AssignmentLineKept(k, Part(a, k));
    }
  }

  /** How the matrix loader sorts the lines of a saved file: the printed rows, then the assignment lines. */
  lemma {:induction false} MatrixSections(g: Graph, a: seq<int>, partCount: int, cutEdges: int)
    requires Csr(g)
    ensures Sections(MatrixText(g, a, partCount, cutEdges)) == (MatrixRows(g), AssignmentLines(a, g.vertexCount))
  {
    HeadersSkipped(partCount, g.vertexCount, cutEdges);
    RowsKept(g);
    AssignmentLinesKept(a, g.vertexCount);
    LayoutSections(MatrixHeader(partCount, g.vertexCount, cutEdges), MatrixRows(g), AssignmentHeader(), AssignmentLines(a, g.vertexCount));
  }

  /** Row `i` of a saved matrix reads back as exactly the in-range neighbours of `i`, in increasing order. */
  lemma {:induction false} MatrixRowBack(g: Graph, i: int)
    requires Csr(g) && 0 <= i < g.vertexCount
    ensures Csr(MatrixGraph(CellTable(MatrixRows(g))))
    ensures var ns := Neighbors(MatrixGraph(CellTable(MatrixRows(g))), i);
      && (forall j :: j in ns <==> 0 <= j < g.vertexCount && j in Neighbors(g, i))
      && (forall x, y :: 0 <= x < y < |ns| ==> ns[x] < ns[y])
  {
    var table := CellTable(MatrixRows(g));
    var flags := RowFlags(g, i);
    RowCells(flags);
    assert table[i] == RowDigits(flags);
    forall j | 0 <= j < g.vertexCount
      ensures Cell(table[i], j) <==> j in Neighbors(g, i)
    {
      DigitIsOne(flags[j]);
    }
    MatrixEdges(table, i);
  }

  /**
   * `h` is `g` as the matrix loader sees it: the same vertices, each with
   * exactly its in-range neighbours, in increasing order without repeats.
   */
  ghost predicate ReadsBackAs(g: Graph, h: Graph)
    requires Csr(g)
  {
    && Csr(h) && h.vertexCount == g.vertexCount
    && (forall i, j :: 0 <= i < g.vertexCount ==>
          (j in Neighbors(h, i) <==> 0 <= j < g.vertexCount && j in Neighbors(g, i)))
    && (forall i, x, y :: 0 <= i < g.vertexCount && 0 <= x < y < |Neighbors(h, i)| ==> Neighbors(h, i)[x] < Neighbors(h, i)[y])
  }

  /** The graph read back from a saved matrix. */
  lemma {:induction false} MatrixGraphBack(g: Graph)
    requires Csr(g)
    ensures |MatrixRows(g)| == g.vertexCount
    ensures ReadsBackAs(g, MatrixGraph(CellTable(MatrixRows(g))))
  {
    MatrixGraphCsr(CellTable(MatrixRows(g)));
    forall i | 0 <= i < g.vertexCount
      ensures var ns := Neighbors(MatrixGraph(CellTable(MatrixRows(g))), i);
        && (forall j :: j in ns <==> 0 <= j < g.vertexCount && j in Neighbors(g, i))
        && (forall x, y :: 0 <= x < y < |ns| ==> ns[x] < ns[y])
    {
      MatrixRowBack(g, i);
    }
  }

  /**
   * Saving as matrix text and loading the file back, the graph: the loader
   * finds the printed rows and assignment lines, and the rows give a graph
   * on the same vertices in which each vertex has exactly its in-range
   * neighbours, in increasing order without repeats.
   */
  lemma {:induction false} MatrixTextRoundTrip(g: Graph, a: seq<int>, partCount: int, cutEdges: int)
    requires Csr(g)
    ensures Sections(MatrixText(g, a, partCount, cutEdges)) == (MatrixRows(g), AssignmentLines(a, g.vertexCount))
    ensures |MatrixRows(g)| == g.vertexCount
    ensures ReadsBackAs(g, MatrixGraph(CellTable(MatrixRows(g))))
  {
    MatrixSections(g, a, partCount, cutEdges);
    MatrixGraphBack(g);
  }

  /**
   * Saving as matrix text and loading the file back, the partition: the
   * assignment lines the loader finds give every vertex's part as
   * `getAssignment` reported it, and a partition comes back exactly when
   * some vertex had a part.
   */
  lemma {:induction false} MatrixTextAssignmentsRoundTrip(g: Graph, a: seq<int>, partCount: int, cutEdges: int)
    requires Csr(g)
    requires forall v :: 0 <= v < g.vertexCount ==> Int32(v) && Int32(Part(a, v))
    ensures Sections(MatrixText(g, a, partCount, cutEdges)).1 == AssignmentLines(a, g.vertexCount)
    ensures FinalAssignments(Entries(AssignmentLines(a, g.vertexCount)), g.vertexCount) == seq(g.vertexCount, v requires 0 <= v < g.vertexCount => Part(a, v))
    ensures MaxPartId(Entries(AssignmentLines(a, g.vertexCount)), g.vertexCount) >= 0 <==> exists v :: 0 <= v < g.vertexCount && Part(a, v) >= 0
  {
    MatrixSections(g, a, partCount, cutEdges);
    AssignmentsBack(a, g.vertexCount);
  }

  // ------------------------------------------------------------ CSRRG text: layout

  /** A list of integers as the CSRRG writer prints it: decimal values separated by ";". */
  function IntegerLine(xs: seq<int>): string
  {
    Join(ShowAll(xs), ";")
  }

  /** The vertices below `n` whose part (read with `getAssignment`) is `q`, in increasing order. */
  function Members(a: seq<int>, n: nat, q: int): seq<int>
  {
    if n == 0 then [] else Members(a, n - 1, q) + (if Part(a, n - 1) == q then [n - 1] else [])
  }

  /** `verticesByPart`: one list per part id 0 .. partCount-1, none for a negative count. */
  function Groups(a: seq<int>, n: nat, partCount: int): seq<seq<int>>
  {
    seq(if partCount > 0 then partCount else 0, q => Members(a, n, q))
  }

  /** Line 3: where each group starts in line 2, then the total. */
  function Offsets(groups: seq<seq<int>>): seq<int>
  {
    Starts(groups, |groups|) + [|Flatten(groups)|]
  }

  /** `globalToLocal`: each member mapped to its position in the group. */
  function LocalIndex(group: seq<int>): map<int, int>
  {
    if group == [] then map[] else LocalIndex(group[..|group| - 1])[group[|group| - 1] := |group| - 1]
  }

  /** The neighbours of one member that the sub-graph keeps, renumbered by `index`, in storage order. */
  function LocalNeighbors(ns: seq<int>, a: seq<int>, q: int, index: map<int, int>): seq<int>
  {
    if ns == [] then []
    else
      var nb := ns[|ns| - 1];
      LocalNeighbors(ns[..|ns| - 1], a, q, index) + (if Part(a, nb) == q && nb in index then [index[nb]] else [])
  }

  /** The neighbour lists of the sub-graph induced by part `q`, one per member. */
  function SubLists(g: Graph, a: seq<int>, q: int, group: seq<int>): seq<seq<int>>
    requires Csr(g)
  {
    seq(|group|, i requires 0 <= i < |group| => LocalNeighbors(Neighbors(g, group[i]), a, q, LocalIndex(group)))
  }

  /** The sub-graph of part `q` in CSR form: `subgraphRowPtrs` and `subgraphAdjList`. */
  function SubGraph(g: Graph, a: seq<int>, q: int, group: seq<int>): Graph
    requires Csr(g)
  {
    FromLists(SubLists(g, a, q, group), 0)
  }

  /** The two lines of part `q`: the sub-graph's row pointers, then its neighbour list. */
  function PartLines(g: Graph, a: seq<int>, q: int, group: seq<int>): seq<string>
    requires Csr(g)
  {
    [IntegerLine(SubGraph(g, a, q, group).rowPointers), IntegerLine(SubGraph(g, a, q, group).adjacencyList)]
  }

  /** The lines of the first `p` parts. */
  function PartsLines(g: Graph, a: seq<int>, groups: seq<seq<int>>, p: nat): seq<string>
    requires Csr(g) && p <= |groups|
  {
    if p == 0 then [] else PartsLines(g, a, groups, p - 1) + PartLines(g, a, p - 1, groups[p - 1])
  }

  /** Everything `savePartitionToCsrrgText` prints, line by line. */
  function CsrrgText(g: Graph, a: seq<int>, partCount: int): seq<string>
    requires Csr(g)
  {
    CsrrgLines(g, a, partCount, Groups(a, g.vertexCount, partCount))
  }

  /** The printed lines, given the grouped vertices. */
  function CsrrgLines(g: Graph, a: seq<int>, partCount: int, groups: seq<seq<int>>): seq<string>
    requires Csr(g)
  {
    HeadLines(partCount, Flatten(groups), Offsets(groups), g.adjacencyList, g.rowPointers)
      + PartsLines(g, a, groups, |groups|)
  }

  /** Lines 1 to 5: the part count, then four lists of integers. */
  function HeadLines(partCount: int, vertices: seq<int>, offsets: seq<int>, adjacency: seq<int>, rowPointers: seq<int>): seq<string>
  {
    [Show(partCount), IntegerLine(vertices), IntegerLine(offsets), IntegerLine(adjacency), IntegerLine(rowPointers)]
  }

  // ------------------------------------------------------------ CSRRG text: writer

  /** Printing one more value: a ";" unless it is the first, then the value. */
  lemma {:induction false} IntegerLineSnoc(xs: seq<int>, x: int)
    ensures IntegerLine(xs + [x]) == IntegerLine(xs) + (if xs == [] then "" else ";") + Show(x)
  {
    assert ShowAll(xs + [x]) == ShowAll(xs) + [Show(x)];
    if xs == [] {
      assert ShowAll(xs + [x]) == [Show(x)];
    } else {
      JoinSnoc(ShowAll(xs), Show(x), ";");
    }
  }

  /** The printing loops of lines 4 and 5 and of the part lines: the first value, then ";" and each further one. */
  method WriteIntegers(xs: seq<int>) returns (line: string)
    ensures line == IntegerLine(xs)
  {
    line := "";
    for i := 0 to |xs|
      invariant line == IntegerLine(xs[..i])
    {
      IntegerLineSnoc(xs[..i], xs[i]);
      assert xs[..i + 1] == xs[..i] + [xs[i]];
      if i == 0 {
        line := Show(xs[i]);
      } else {
        line := line + ";" + Show(xs[i]);
      }
    }
    assert xs[..|xs|] == xs;
  }

  /** Line 2: every group in order, ";" between vertices, tracked by the `first` flag. */
  method WriteGroups(groups: seq<seq<int>>) returns (line: string)
    ensures line == IntegerLine(Flatten(groups))
  {
    line := "";
    var first := true;
    for p := 0 to |groups|
      invariant line == IntegerLine(Flatten(groups[..p]))
      invariant first <==> Flatten(groups[..p]) == []
    {
      assert groups[..p + 1][..p] == groups[..p];
      line, first := WriteGroup(line, first, Flatten(groups[..p]), groups[p]);
    }
    assert groups[..|groups|] == groups;
  }

  /** The inner loop of line 2: the vertices of one group after those already printed. */
  method WriteGroup(line: string, first: bool, ghost done: seq<int>, vertices: seq<int>) returns (line': string, first': bool)
    requires line == IntegerLine(done) && (first <==> done == [])
    ensures line' == IntegerLine(done + vertices) && (first' <==> done + vertices == [])
  {
    line', first' := line, first;
    assert done + vertices[..0] == done;
    for i := 0 to |vertices|
      invariant line' == IntegerLine(done + vertices[..i])
      invariant first' <==> done + vertices[..i] == []
    {
      IntegerLineSnoc(done + vertices[..i], vertices[i]);
      assert done + vertices[..i + 1] == done + vertices[..i] + [vertices[i]];
      if !first' {
        line' := line' + ";";
      }
      line' := line' + Show(vertices[i]);
      first' := false;
    }
    assert vertices[..|vertices|] == vertices;
  }

  /** Line 3: "0", then the running total after each group. */
  method WriteOffsets(groups: seq<seq<int>>) returns (line: string)
    ensures line == IntegerLine(Offsets(groups))
  {
    line := "0";
    var pointer := 0;
    assert IntegerLine([0]) == Show(0) == "0";
    assert groups[..0] == [];
    for p := 0 to |groups|
      invariant pointer == |Flatten(groups[..p])|
      invariant line == IntegerLine(Starts(groups, p) + [pointer])
    {
      CsrStep(groups, p, Flatten(groups[..p]), Starts(groups, p));
      IntegerLineSnoc(Starts(groups, p + 1), pointer + |groups[p]|);
      pointer := pointer + |groups[p]|;
      line := line + ";" + Show(pointer);
    }
    assert groups[..|groups|] == groups;
  }

  /** Adding vertex `v` to the group of its part. */
  lemma {:induction false} GroupsStep(a: seq<int>, v: nat, partCount: int)
    ensures Groups(a, v + 1, partCount) ==
      if 0 <= Part(a, v) < partCount then Groups(a, v, partCount)[Part(a, v) := Groups(a, v, partCount)[Part(a, v)] + [v]]
      else Groups(a, v, partCount)
  {
    var before, after := Groups(a, v, partCount), Groups(a, v + 1, partCount);
    forall q | 0 <= q < |after|
      ensures after[q] == if Part(a, v) == q then before[q] + [v] else before[q]
    {
      assert before[q] + [] == before[q];
    }
    if 0 <= Part(a, v) < partCount {
      var q := Part(a, v);
      assert after == before[q := before[q] + [v]];
    } else {
      assert after == before;
    }
  }

  /** The grouping loops: an empty list per part, then each vertex appended to the list of its part. */
  method GroupVertices(assignments: array<int>, n: nat, partCount: int) returns (groups: seq<seq<int>>)
    ensures groups == Groups(assignments[..], n, partCount)
  {
    groups := [];
    var i := 0;
    while i < partCount
      invariant 0 <= i <= (if partCount > 0 then partCount else 0)
      invariant groups == seq(i, _ => [])
    {
      groups := groups + [[]];
      i := i + 1;
    }
    assert groups == Groups(assignments[..], 0, partCount);
    for v := 0 to n
      invariant groups == Groups(assignments[..], v, partCount)
    {
      GroupsStep(assignments[..], v, partCount);
      var partId := if v < assignments.Length then assignments[v] else -1;
      assert partId == Part(assignments[..], v);
      if 0 <= partId < partCount {
        groups := groups[partId := groups[partId] + [v]];
      }
    }
  }

  /** The `globalToLocal` loop: each member mapped to its position. */
  method IndexGroup(group: seq<int>) returns (index: map<int, int>)
    ensures index == LocalIndex(group)
  {
    index := map[];
    for i := 0 to |group|
      invariant index == LocalIndex(group[..i])
    {
      assert group[..i + 1][..i] == group[..i];
      index := index[group[i] := i];
    }
    assert group[..|group|] == group;
  }

  /** The neighbour loop of one member: a neighbour in part `q` that the index holds is appended, renumbered. */
  method AppendLocal(subAdj: seq<int>, ns: seq<int>, a: array<int>, q: int, index: map<int, int>) returns (subAdj': seq<int>)
    ensures subAdj' == subAdj + LocalNeighbors(ns, a[..], q, index)
  {
    subAdj' := subAdj;
    assert subAdj + [] == subAdj;
    for k := 0 to |ns|
      invariant subAdj' == subAdj + LocalNeighbors(ns[..k], a[..], q, index)
    {
      var neighbor := ns[k];
      assert ns[..k + 1][..k] == ns[..k];
      var part := if 0 <= neighbor < a.Length then a[neighbor] else -1;
      assert part == Part(a[..], neighbor);
      if part == q && neighbor in index {
        subAdj' := subAdj' + [index[neighbor]];
      } else {
        assert LocalNeighbors(ns[..k + 1], a[..], q, index) == LocalNeighbors(ns[..k], a[..], q, index) + [];
      }
    }
    assert ns[..|ns|] == ns;
  }

  /** One more list of the CSR build: its start is the length so far, its entries follow. */
  lemma {:induction false} CsrStep(lists: seq<seq<int>>, k: nat, flat: seq<int>, starts: seq<int>)
    requires k < |lists| && flat == Flatten(lists[..k]) && starts == Starts(lists, k)
    ensures flat + lists[k] == Flatten(lists[..k + 1])
    ensures starts + [|flat|] == Starts(lists, k + 1)
  {
    assert lists[..k + 1][..k] == lists[..k];
  }

  /** The sub-graph loops of one part: row pointers and neighbour list built member by member. */
  method BuildSubGraph(g: Graph, a: array<int>, q: int, group: seq<int>, index: map<int, int>)
    returns (rowPtrs: array<int>, subAdj: seq<int>)
    requires Csr(g) && index == LocalIndex(group)
    ensures fresh(rowPtrs)
    ensures rowPtrs[..] == SubGraph(g, a[..], q, group).rowPointers
    ensures subAdj == SubGraph(g, a[..], q, group).adjacencyList
  {
    var partSize := |group|;
    ghost var lists := SubLists(g, a[..], q, group);
    subAdj := [];
    rowPtrs := new int[partSize + 1];
    for local := 0 to partSize
      invariant subAdj == Flatten(lists[..local])
      invariant rowPtrs[..local] == Starts(lists, local)
    {
      CsrStep(lists, local, subAdj, rowPtrs[..local]);
      rowPtrs[local] := |subAdj|;
      assert rowPtrs[..local + 1] == Starts(lists, local + 1);
      subAdj := AppendLocal(subAdj, Neighbors(g, group[local]), a, q, index);
    }
    rowPtrs[partSize] := |subAdj|;
    assert lists[..partSize] == lists;
    assert rowPtrs[..] == rowPtrs[..partSize] + [|subAdj|];
  }

  /** One part: the index, the sub-graph, and its two printed lines. */
  method WritePart(g: Graph, a: array<int>, q: int, group: seq<int>) returns (rowLine: string, adjLine: string)
    requires Csr(g)
    ensures [rowLine, adjLine] == PartLines(g, a[..], q, group)
  {
    var index := IndexGroup(group);
    var rowPtrs, subAdj := BuildSubGraph(g, a, q, group, index);
    if |group| > 0 {
      rowLine := WriteIntegers(rowPtrs[..]);
    } else {
      rowLine := "0";
      assert rowPtrs[..] == [0];
      assert IntegerLine([0]) == Show(0) == "0";
    }
    if subAdj != [] {
      adjLine := WriteIntegers(subAdj);
    } else {
      adjLine := "";
    }
  }

  /** The loop over the parts: two lines each. */
  method WriteParts(g: Graph, a: array<int>, groups: seq<seq<int>>) returns (lines: seq<string>)
    requires Csr(g)
    ensures lines == PartsLines(g, a[..], groups, |groups|)
  {
    lines := [];
    for q := 0 to |groups|
      invariant lines == PartsLines(g, a[..], groups, q)
    {
      var rowLine, adjLine := WritePart(g, a, q, groups[q]);
      lines := lines + [rowLine, adjLine];
    }
  }

  /** `savePartitionToCsrrgText`, with the file replaced by the printed lines. */
  method SaveCsrrgText(g: Graph, p: Partition) returns (lines: seq<string>)
    requires Csr(g)
    ensures lines == CsrrgText(g, p.assignments[..], p.partCount)
  {
    var groups := GroupVertices(p.assignments, g.vertexCount, p.partCount);
    var vertexLine := WriteGroups(groups);
    var offsetLine := WriteOffsets(groups);
    var adjacencyLine := "";
    if |g.adjacencyList| > 0 {
      adjacencyLine := WriteIntegers(g.adjacencyList);
    }
    var rowPointerLine := WriteIntegers(g.rowPointers);
    var partLines := WriteParts(g, p.assignments, groups);
    lines := [Show(p.partCount), vertexLine, offsetLine, adjacencyLine, rowPointerLine] + partLines;
  }

  // ------------------------------------------------------------ CSRRG text: what the groups hold

  /** A part's group holds exactly the vertices below `n` in that part, in increasing order. */
  lemma {:induction false} MembersSpec(a: seq<int>, n: nat, q: int)
    ensures forall x :: x in Members(a, n, q) <==> 0 <= x < n && Part(a, x) == q
    ensures forall i, j :: 0 <= i < j < |Members(a, n, q)| ==> Members(a, n, q)[i] < Members(a, n, q)[j]
  {
    if n > 0 {
      MembersSpec(a, n - 1, q);
      var front, m := Members(a, n - 1, q), Members(a, n, q);
      forall i | 0 <= i < |front|
        ensures m[i] == front[i] && m[i] < n - 1
      {
        assert front[i] in front;
      }
    }
  }

  /** Something is in a concatenation of lists exactly when it is in one of them. */
  lemma {:induction false} FlattenMember(xss: seq<seq<int>>, x: int)
    ensures x in Flatten(xss) <==> exists i :: 0 <= i < |xss| && x in xss[i]
  {
    if xss != [] {
      var front := xss[..|xss| - 1];
      FlattenMember(front, x);
      assert forall i :: 0 <= i < |front| ==> front[i] == xss[i];
    }
  }

  /** Line 2 lists exactly the vertices below `n` whose part is one of 0 .. partCount-1. */
  lemma {:induction false} GroupsCover(a: seq<int>, n: nat, partCount: int)
    ensures forall x :: x in Flatten(Groups(a, n, partCount)) <==> 0 <= x < n && 0 <= Part(a, x) < partCount
  {
    var groups := Groups(a, n, partCount);
    forall x
      ensures x in Flatten(groups) <==> 0 <= x < n && 0 <= Part(a, x) < partCount
    {
      FlattenMember(groups, x);
      forall q | 0 <= q < |groups|
        ensures x in groups[q] <==> 0 <= x < n && Part(a, x) == q
      {
        MembersSpec(a, n, q);
      }
      if 0 <= x < n && 0 <= Part(a, x) < partCount {
        assert x in groups[Part(a, x)];
      }
    }
  }

  /** Number of vertices below `n` whose part is one of 0 .. partCount-1. */
  function AssignedBelow(a: seq<int>, n: nat, partCount: int): nat
  {
    if n == 0 then 0 else AssignedBelow(a, n - 1, partCount) + (if 0 <= Part(a, n - 1) < partCount then 1 else 0)
  }

  lemma {:induction false} FlattenEmpty(xss: seq<seq<int>>)
    requires forall i :: 0 <= i < |xss| ==> xss[i] == []
    ensures Flatten(xss) == []
  {
    if xss != [] {
      FlattenEmpty(xss[..|xss| - 1]);
    }
  }

  /** Appending to one list lengthens the concatenation by one. */
  lemma {:induction false} FlattenGrow(xss: seq<seq<int>>, q: int, x: int)
    requires 0 <= q < |xss|
    ensures |Flatten(xss[q := xss[q] + [x]])| == |Flatten(xss)| + 1
  {
    var yss, last := xss[q := xss[q] + [x]], |xss| - 1;
    if q < last {
      assert yss[..last] == xss[..last][q := xss[q] + [x]];
      FlattenGrow(xss[..last], q, x);
    } else {
      assert yss[..last] == xss[..last];
    }
  }

  /** Line 2 lists each such vertex once: its length is their number, at most `n`. */
  lemma {:induction false} GroupsCount(a: seq<int>, n: nat, partCount: int)
    ensures |Flatten(Groups(a, n, partCount))| == AssignedBelow(a, n, partCount) <= n
  {
    if n == 0 {
      FlattenEmpty(Groups(a, n, partCount));
    } else {
      GroupsCount(a, n - 1, partCount);
      GroupsStep(a, n - 1, partCount);
      if 0 <= Part(a, n - 1) < partCount {
        FlattenGrow(Groups(a, n - 1, partCount), Part(a, n - 1), n - 1);
      }
    }
  }

  /** Line 3 starts at 0, ends at the length of line 2, and delimits each group within it. */
  lemma {:induction false} OffsetsDelimit(groups: seq<seq<int>>)
    ensures var offsets := Offsets(groups);
      && |offsets| == |groups| + 1 && offsets[0] == 0 && offsets[|groups|] == |Flatten(groups)|
      && (forall q, r :: 0 <= q <= r <= |groups| ==> offsets[q] <= offsets[r])
      && (forall q :: 0 <= q < |groups| ==> Flatten(groups)[offsets[q]..offsets[q + 1]] == groups[q])
  {
    FromListsCsr(groups, 0);
  }

  // ------------------------------------------------------------ CSRRG text: the sub-graphs

  /** With distinct members, the index holds exactly the members, each at its position. */
  lemma {:induction false} LocalIndexSpec(group: seq<int>)
    requires forall i, j :: 0 <= i < j < |group| ==> group[i] < group[j]
    ensures forall x :: x in LocalIndex(group) <==> x in group
    ensures forall i :: 0 <= i < |group| ==> LocalIndex(group)[group[i]] == i
  {
    if group != [] {
      var front := group[..|group| - 1];
      LocalIndexSpec(front);
      assert forall i :: 0 <= i < |front| ==> front[i] == group[i];
    }
  }

  /** An entry of the renumbered list comes from a neighbour in part `q` that the index holds. */
  lemma {:induction false} LocalNeighborsSpec(ns: seq<int>, a: seq<int>, q: int, index: map<int, int>)
    ensures forall e :: e in LocalNeighbors(ns, a, q, index) <==>
      exists j :: 0 <= j < |ns| && Part(a, ns[j]) == q && ns[j] in index && index[ns[j]] == e
  {
    if ns != [] {
      var front := ns[..|ns| - 1];
      LocalNeighborsSpec(front, a, q, index);
      forall e
        ensures e in LocalNeighbors(ns, a, q, index) <==>
          exists j :: 0 <= j < |ns| && Part(a, ns[j]) == q && ns[j] in index && index[ns[j]] == e
      {
        if exists j :: 0 <= j < |front| && Part(a, front[j]) == q && front[j] in index && index[front[j]] == e {
          var j :| 0 <= j < |front| && Part(a, front[j]) == q && front[j] in index && index[front[j]] == e;
          assert ns[j] == front[j];
        }
        if exists j :: 0 <= j < |ns| && Part(a, ns[j]) == q && ns[j] in index && index[ns[j]] == e {
          var j :| 0 <= j < |ns| && Part(a, ns[j]) == q && ns[j] in index && index[ns[j]] == e;
          if j < |front| {
            assert front[j] == ns[j];
          }
        }
      }
    }
  }

  /** One member's renumbered list: `e` occurs exactly when member `e` is a neighbour of the member. */
  lemma {:induction false} SubListEntries(g: Graph, a: seq<int>, q: int, group: seq<int>, i: int)
    requires Csr(g) && 0 <= i < |group|
    requires forall x, y :: 0 <= x < y < |group| ==> group[x] < group[y]
    requires forall x :: 0 <= x < |group| ==> Part(a, group[x]) == q
    ensures forall e :: e in SubLists(g, a, q, group)[i] <==> 0 <= e < |group| && group[e] in Neighbors(g, group[i])
  {
    var ns, index := Neighbors(g, group[i]), LocalIndex(group);
    LocalIndexSpec(group);
    LocalNeighborsSpec(ns, a, q, index);
    forall e
      ensures e in SubLists(g, a, q, group)[i] <==> 0 <= e < |group| && group[e] in ns
    {
      if 0 <= e < |group| && group[e] in ns {
        var j :| 0 <= j < |ns| && ns[j] == group[e];
        assert Part(a, ns[j]) == q && ns[j] in index && index[ns[j]] == e;
      }
      if exists j :: 0 <= j < |ns| && Part(a, ns[j]) == q && ns[j] in index && index[ns[j]] == e {
        var j :| 0 <= j < |ns| && Part(a, ns[j]) == q && ns[j] in index && index[ns[j]] == e;
        var x :| 0 <= x < |group| && group[x] == ns[j];
        assert index[group[x]] == x;
      }
    }
  }

  /**
   * The sub-graph of a group of distinct vertices of part `q` is in CSR form
   * on the group's positions, and has an edge from position `i` to position
   * `e` exactly when the graph has an edge between the two vertices.
   */
  lemma {:induction false} SubGraphEdges(g: Graph, a: seq<int>, q: int, group: seq<int>)
    requires Csr(g)
    requires forall x, y :: 0 <= x < y < |group| ==> group[x] < group[y]
    requires forall x :: 0 <= x < |group| ==> Part(a, group[x]) == q
    ensures var sub := SubGraph(g, a, q, group);
      && Csr(sub) && sub.vertexCount == |group| && EntriesInRange(sub)
      && forall i, e :: 0 <= i < |group| ==> (e in Neighbors(sub, i) <==> 0 <= e < |group| && group[e] in Neighbors(g, group[i]))
  {
    var lists := SubLists(g, a, q, group);
    FromListsCsr(lists, 0);
    forall i | 0 <= i < |group|
      ensures forall e :: e in lists[i] <==> 0 <= e < |group| && group[e] in Neighbors(g, group[i])
    {
      SubListEntries(g, a, q, group, i);
    }
    forall i, x | 0 <= i < |lists| && 0 <= x < |lists[i]|
      ensures 0 <= lists[i][x] < |group|
    {
      assert lists[i][x] in lists[i];
    }
    FlattenInRange(lists, |group|);
  }

  /** The sub-graph written for part `q` is the one its vertices induce. */
  lemma {:induction false} PartSubGraph(g: Graph, a: seq<int>, partCount: int, q: int)
    requires Csr(g) && 0 <= q < partCount
    ensures var group := Groups(a, g.vertexCount, partCount)[q];
      var sub := SubGraph(g, a, q, group);
      && Csr(sub) && sub.vertexCount == |group| && EntriesInRange(sub)
      && (forall x :: x in group <==> 0 <= x < g.vertexCount && Part(a, x) == q)
      && forall i, e :: 0 <= i < |group| ==> (e in Neighbors(sub, i) <==> 0 <= e < |group| && group[e] in Neighbors(g, group[i]))
  {
    var group := Members(a, g.vertexCount, q);
    MembersSpec(a, g.vertexCount, q);
    assert forall x :: 0 <= x < |group| ==> group[x] in group;
    SubGraphEdges(g, a, q, group);
  }

  // ------------------------------------------------------------ CSRRG text: reading it back

  /** A printed list of 32-bit values reads back, with `parseIntegerList`, as itself. */
  lemma {:induction false} IntegerLineBack(xs: seq<int>)
    requires forall i :: 0 <= i < |xs| ==> Int32(xs[i])
    ensures IntegerList(Some(IntegerLine(xs)), ";") == xs
  {
    IntegerListOfJoin(xs, ";");
  }

  /** Values between 0 and a 32-bit bound are 32-bit values. */
  lemma {:induction false} BoundedInt32(xs: seq<int>, bound: int)
    requires Int32(bound)
    requires forall i :: 0 <= i < |xs| ==> 0 <= xs[i] <= bound
    ensures forall i :: 0 <= i < |xs| ==> Int32(xs[i])
  {
  }

  /** The grouped vertices and the group offsets are 32-bit values when the vertex count is. */
  lemma {:induction false} GroupValuesInt32(a: seq<int>, n: nat, partCount: int)
    requires Int32(n)
    ensures var groups := Groups(a, n, partCount);
      && (forall i :: 0 <= i < |Flatten(groups)| ==> Int32(Flatten(groups)[i]))
      && (forall i :: 0 <= i < |Offsets(groups)| ==> Int32(Offsets(groups)[i]))
  {
    var groups := Groups(a, n, partCount);
    GroupsCover(a, n, partCount);
    GroupsCount(a, n, partCount);
    OffsetsDelimit(groups);
    forall i | 0 <= i < |Flatten(groups)|
      ensures 0 <= Flatten(groups)[i] <= n
    {
      assert Flatten(groups)[i] in Flatten(groups);
    }
    BoundedInt32(Flatten(groups), n);
    BoundedInt32(Offsets(groups), n);
  }

  /** The row pointers of a CSR graph lie between 0 and the number of neighbour entries. */
  lemma {:induction false} GraphValuesInt32(g: Graph)
    requires Csr(g) && Int32(|g.adjacencyList|)
    ensures forall i :: 0 <= i < |g.rowPointers| ==> Int32(g.rowPointers[i])
  {
    assert forall i :: 0 <= i < |g.rowPointers| ==> g.rowPointers[0] <= g.rowPointers[i] <= g.rowPointers[g.vertexCount];
    BoundedInt32(g.rowPointers, |g.adjacencyList|);
  }

  /** The first line reads back as the part count. */
  lemma {:induction false} PartCountBack(partCount: int)
    requires Int32(partCount)
    ensures ParseInt(Trim(Show(partCount))) == Some(partCount)
  {
    ShowTrimmed(partCount);
    ParseShow(partCount);
  }

  /** What the CSRRG loader makes of lines whose first is a number and whose next four read back as lists. */
  lemma {:induction false} CsrrgOfLines(lines: seq<string>, partCount: int, xs1: seq<int>, xs2: seq<int>, xs3: seq<int>, xs4: seq<int>)
    requires |lines| >= 1 && ParseInt(Trim(lines[0])) == Some(partCount)
    requires IntegerList(LineAt(lines, 1), ";") == xs1 && IntegerList(LineAt(lines, 2), ";") == xs2
    requires IntegerList(LineAt(lines, 3), ";") == xs3 && IntegerList(LineAt(lines, 4), ";") == xs4
    ensures Csrrg(lines) ==
      if |xs4| < 2 then None
      else Some((Graph(|xs4| - 1, |xs3| / 2, xs4, xs3), CsrrgData(partCount, xs1, xs2, xs3, xs4)))
  {
  }

  /** Line `k` of the file, printed from `xs` and read back with `parseIntegerList`. */
  lemma {:induction false} LineRead(lines: seq<string>, k: nat, xs: seq<int>)
    requires forall i :: 0 <= i < |xs| ==> Int32(xs[i])
    requires k < |lines| && lines[k] == IntegerLine(xs)
    ensures IntegerList(LineAt(lines, k), ";") == xs
  {
    IntegerLineBack(xs);
  }

  /** The five leading lines of a saved CSRRG file, read back. */
  lemma {:induction false} HeadLinesBack(partCount: int, vertices: seq<int>, offsets: seq<int>, adjacency: seq<int>, rowPointers: seq<int>, lines: seq<string>)
    requires Int32(partCount)
    requires forall i :: 0 <= i < |vertices| ==> Int32(vertices[i])
    requires forall i :: 0 <= i < |offsets| ==> Int32(offsets[i])
    requires forall i :: 0 <= i < |adjacency| ==> Int32(adjacency[i])
    requires forall i :: 0 <= i < |rowPointers| ==> Int32(rowPointers[i])
    requires |lines| >= 5 && lines[..5] == HeadLines(partCount, vertices, offsets, adjacency, rowPointers)
    ensures Csrrg(lines) ==
      if |rowPointers| < 2 then None
      else Some((Graph(|rowPointers| - 1, |adjacency| / 2, rowPointers, adjacency), CsrrgData(partCount, vertices, offsets, adjacency, rowPointers)))
  {
    var head := lines[..5];
    assert lines[0] == head[0] == Show(partCount);
    assert lines[1] == head[1] && lines[2] == head[2] && lines[3] == head[3] && lines[4] == head[4];
    PartCountBack(partCount);
    LineRead(lines, 1, vertices);
    LineRead(lines, 2, offsets);
    LineRead(lines, 3, adjacency);
    LineRead(lines, 4, rowPointers);
    CsrrgOfLines(lines, partCount, vertices, offsets, adjacency, rowPointers);
  }

  /** The first five lines of the text are the head lines. */
  lemma {:induction false} CsrrgHead(g: Graph, a: seq<int>, partCount: int, groups: seq<seq<int>>)
    requires Csr(g)
    ensures var lines := CsrrgLines(g, a, partCount, groups);
      |lines| >= 5 && lines[..5] == HeadLines(partCount, Flatten(groups), Offsets(groups), g.adjacencyList, g.rowPointers)
  {
    var head := HeadLines(partCount, Flatten(groups), Offsets(groups), g.adjacencyList, g.rowPointers);
    assert (head + PartsLines(g, a, groups, |groups|))[..5] == head;
  }

  /**
   * Saving a graph with at least one vertex as CSRRG text and loading the
   * file back gives the same CSR arrays (with the edge count recomputed as
   * half the neighbour entries), the part count, the grouped vertices and
   * the group offsets.
   */
  lemma {:induction false} CsrrgTextRoundTrip(g: Graph, a: seq<int>, partCount: int)
    requires Csr(g) && g.vertexCount >= 1
    requires Int32(partCount) && Int32(g.vertexCount) && Int32(|g.adjacencyList|)
    requires forall i :: 0 <= i < |g.adjacencyList| ==> Int32(g.adjacencyList[i])
    ensures var groups := Groups(a, g.vertexCount, partCount);
      Csrrg(CsrrgText(g, a, partCount)) ==
        Some((g.(edgeCount := |g.adjacencyList| / 2),
              CsrrgData(partCount, Flatten(groups), Offsets(groups), g.adjacencyList, g.rowPointers)))
  {
    var groups := Groups(a, g.vertexCount, partCount);
    CsrrgHead(g, a, partCount, groups);
    GroupValuesInt32(a, g.vertexCount, partCount);
    GraphValuesInt32(g);
    HeadLinesBack(partCount, Flatten(groups), Offsets(groups), g.adjacencyList, g.rowPointers, CsrrgLines(g, a, partCount, groups));
  }

  /** Head lines with a single row pointer 0: the loader rejects them, whatever the first line holds. */
  lemma {:induction false} SingleRowPointerRejected(partCount: int, vertices: seq<int>, offsets: seq<int>, adjacency: seq<int>, lines: seq<string>)
    requires |lines| >= 5 && lines[..5] == HeadLines(partCount, vertices, offsets, adjacency, [0])
    ensures Csrrg(lines) == None
  {
    assert lines[4] == IntegerLine([0]);
    IntegerLineBack([0]);
    LineRead(lines, 4, [0]);
    if ParseInt(Trim(lines[0])).Some? {
      CsrrgOfLines(lines, ParseInt(Trim(lines[0])).value, IntegerList(LineAt(lines, 1), ";"), IntegerList(LineAt(lines, 2), ";"),
        IntegerList(LineAt(lines, 3), ";"), [0]);
    }
  }

  /** A saved graph without vertices has one row pointer, and the CSRRG loader rejects the file. */
  lemma {:induction false} CsrrgEmptyRejected(g: Graph, a: seq<int>, partCount: int)
    requires Csr(g) && g.vertexCount == 0
    ensures Csrrg(CsrrgText(g, a, partCount)) == None
  {
    var groups := Groups(a, g.vertexCount, partCount);
    CsrrgHead(g, a, partCount, groups);
    assert g.rowPointers == [0];
    SingleRowPointerRejected(partCount, Flatten(groups), Offsets(groups), g.adjacencyList, CsrrgLines(g, a, partCount, groups));
  }
}
