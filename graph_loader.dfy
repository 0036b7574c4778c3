/**
 * `GraphLoader`: the four input formats of the Java partitioner, read from
 * the lines (or bytes) of a file.
 *   - adjacency-matrix text: one matrix row per line, optionally followed
 *     by "v - p" assignment lines;
 *   - CSRRG text: five lines, of which the last two are the neighbour list
 *     and the row pointers of the graph;
 *   - "simple assignment" text: lines "Wierzchołek X -> Podgraf Y";
 *   - "simple assignment" binary: one bit per vertex, least significant
 *     bit first.
 * An exception of the source is a `None` result or a null partition here.
 */
module GraphLoader {
  import opened Wrappers
  import opened Text
  import opened Graphs
  import opened Partitions

  // ------------------------------------------------------------ parseIntegerList

  /** The integer a piece of a line stands for, if it trims to a valid `int`. */
  function Token(piece: string): seq<int>
  {
    match ParseInt(Trim(piece))
    case Some(v) => [v]
    case None => []
  }

  /** A list of one-element lists flattens to the list of those elements. */
  lemma {:induction false} FlattenSingletons(xss: seq<seq<int>>, ys: seq<int>)
    requires |xss| == |ys|
    requires forall k :: 0 <= k < |xss| ==> xss[k] == [ys[k]]
    ensures Flatten(xss) == ys
  {
    if xss != [] {
      var n := |xss|;
      FlattenSingletons(xss[..n - 1], ys[..n - 1]);
      assert ys == ys[..n - 1] + [ys[n - 1]];
    }
  }

  /** The values of the pieces that hold an integer, in order; the others are dropped. */
  function Integers(pieces: seq<string>): seq<int>
  {
    Flatten(seq(|pieces|, i requires 0 <= i < |pieces| => Token(pieces[i])))
  }

  /** Appending a piece appends its value, if any. */
  lemma IntegersSnoc(pieces: seq<string>, piece: string)
    ensures Integers(pieces + [piece]) == Integers(pieces) + Token(piece)
  {
    var ps := pieces + [piece];
    var tokens := seq(|ps|, i requires 0 <= i < |ps| => Token(ps[i]));
    assert tokens[..|pieces|] == seq(|pieces|, i requires 0 <= i < |pieces| => Token(pieces[i]));
  }

  /** What `parseIntegerList` returns: nothing for a missing or blank line, else the integers between delimiters. */
  function IntegerList(line: Option<string>, delimiter: string): seq<int>
    requires |delimiter| > 0
  {
    if line.None? || Trim(line.value) == [] then [] else Integers(Split(line.value, delimiter))
  }

  method ParseIntegerList(line: Option<string>, delimiter: string) returns (numbers: seq<int>)
    requires |delimiter| > 0
    ensures numbers == IntegerList(line, delimiter)
  {
    if line.None? || Trim(line.value) == [] {
      return [];
    }
    var parts := Split(line.value, delimiter);
    numbers := CollectIntegers(parts);
  }

  /** The loop of `parseIntegerList` over the pieces of the line. */
  method CollectIntegers(parts: seq<string>) returns (numbers: seq<int>)
    ensures numbers == Integers(parts)
  {
    numbers := [];
    var i := 0;
    while i < |parts|
      invariant 0 <= i <= |parts|
      invariant numbers == Integers(parts[..i])
    {
      var value := ParsePiece(parts[i]);
      IntegersSnoc(parts[..i], parts[i]);
      assert parts[..i] + [parts[i]] == parts[..i + 1];
      numbers := numbers + value;
      i := i + 1;
    }
    assert parts[..i] == parts;
  }

  /** One piece: trimmed, skipped when empty, and dropped when `Integer.parseInt` throws. */
  method ParsePiece(piece: string) returns (value: seq<int>)
    ensures value == Token(piece)
  {
    var trimmed := Trim(piece);
    value := [];
    if trimmed != [] {
      match ParseInt(trimmed)
      case Some(v) =>
        value := [v];
      case None =>
    }
  }

  /** The renderings of a list of integers. */
  function ShowAll(xs: seq<int>): (ss: seq<string>)
    ensures |ss| == |xs|
  {
    seq(|xs|, i requires 0 <= i < |xs| => Show(xs[i]))
  }

  lemma TokenOfShow(x: int)
    requires Int32(x)
    ensures Token(Show(x)) == [x]
  {
    ParseShow(x);
    TrimFixed(Show(x));
  }

  lemma IntegersOfShown(xs: seq<int>)
    requires forall i :: 0 <= i < |xs| ==> Int32(xs[i])
    ensures Integers(ShowAll(xs)) == xs
  {
    var ss := ShowAll(xs);
    var tokens := seq(|ss|, i requires 0 <= i < |ss| => Token(ss[i]));
    forall k | 0 <= k < |xs|
      ensures tokens[k] == [xs[k]]
    {
      TokenOfShow(xs[k]);
    }
    FlattenSingletons(tokens, xs);
  }

  /** A character that is neither a digit nor a minus sign occurs in no rendering. */
  lemma ShownAvoid(xs: seq<int>, c: char)
    requires !IsDigit(c) && c != '-'
    ensures forall k :: 0 <= k < |xs| ==> c !in ShowAll(xs)[k]
  {
    forall k | 0 <= k < |xs|
      ensures c !in ShowAll(xs)[k]
    {
      var s := Show(xs[k]);
      assert forall i :: 0 <= i < |s| ==> s[i] != c;
    }
  }

  /** A join whose first piece starts with a non-blank does not trim to nothing. */
  lemma JoinNotBlank(ss: seq<string>, d: string)
    requires |ss| >= 1 && |ss[0]| >= 1 && !Blank(ss[0][0])
    ensures Trim(Join(ss, d)) != []
  {
    var line := Join(ss, d);
    if |ss| > 1 {
      assert line == ss[0] + (d + Join(ss[1..], d));
    }
    assert line[0] == ss[0][0];
    assert TrimStart(line) == line;
    TrimEndPrefix(line);
  }

  /**
   * A list written as its decimal values joined by a delimiter that starts
   * with neither a digit nor a minus sign reads back as the same list.
   */
  lemma IntegerListOfJoin(xs: seq<int>, delimiter: string)
    requires |delimiter| > 0 && !IsDigit(delimiter[0]) && delimiter[0] != '-'
    requires forall i :: 0 <= i < |xs| ==> Int32(xs[i])
    ensures IntegerList(Some(Join(ShowAll(xs), delimiter)), delimiter) == xs
  {
    var ss := ShowAll(xs);
    if xs != [] {
      ShownAvoid(xs, delimiter[0]);
      SplitJoin(ss, delimiter);
      JoinNotBlank(ss, delimiter);
      IntegersOfShown(xs);
    }
  }

  // ------------------------------------------------------------ adjacency-matrix text: sections

  /** A line the matrix loader keeps: not blank once trimmed, and not a `#` comment. */
  predicate Kept(line: string)
  {
    Trim(line) != [] && !StartsWith(Trim(line), "#")
  }

  /** Every kept line, trimmed, in file order. */
  function KeptLines(lines: seq<string>): seq<string>
  {
    if lines == [] then []
    else KeptLines(lines[..|lines| - 1]) + (if Kept(lines[|lines| - 1]) then [Trim(lines[|lines| - 1])] else [])
  }

  /**
   * The matrix rows and the assignment lines, as the reading loop sorts the
   * kept lines: the first one that holds " - " opens the assignment section
   * and every later kept line belongs to it.
   */
  function Sections(lines: seq<string>): (seq<string>, seq<string>)
  {
    if lines == [] then ([], [])
    else
      var (rows, assigns) := Sections(lines[..|lines| - 1]);
      var line := lines[|lines| - 1];
      if !Kept(line) then (rows, assigns)
      else if assigns != [] || Contains(Trim(line), " - ") then (rows, assigns + [Trim(line)])
      else (rows + [Trim(line)], assigns)
  }

  /**
   * The two sections split the kept lines: the rows come first and none of
   * them holds " - ", and the assignment section opens with a line that does.
   */
  lemma {:induction false} SectionsSplitKept(lines: seq<string>)
    ensures Sections(lines).0 + Sections(lines).1 == KeptLines(lines)
    ensures forall k :: 0 <= k < |Sections(lines).0| ==> !Contains(Sections(lines).0[k], " - ")
    ensures Sections(lines).1 != [] ==> Contains(Sections(lines).1[0], " - ")
  {
    if lines != [] {
      var front := lines[..|lines| - 1];
      SectionsSplitKept(front);
      var (rows, assigns) := Sections(front);
      var line := lines[|lines| - 1];
      if Kept(line) && assigns == [] && !Contains(Trim(line), " - ") {
        assert rows + [Trim(line)] + [] == rows + assigns + [Trim(line)];
      } else if Kept(line) {
        assert rows + (assigns + [Trim(line)]) == rows + assigns + [Trim(line)];
      }
    }
  }

  /** The reading loop of `loadGraphFromAdjacencyMatrixText`, with its section flag. */
  method SplitSections(lines: seq<string>) returns (rows: seq<string>, assigns: seq<string>)
    ensures (rows, assigns) == Sections(lines)
  {
    rows, assigns := [], [];
    var inAssignmentSection := false;
    for i := 0 to |lines|
      invariant (rows, assigns) == Sections(lines[..i])
      invariant inAssignmentSection <==> assigns != []
    {
      var line := Trim(lines[i]);
      assert lines[..i + 1][..i] == lines[..i];
      if line != [] && !StartsWith(line, "#") {
        if !inAssignmentSection && Contains(line, " - ") {
          inAssignmentSection := true;
        }
        if inAssignmentSection {
          assigns := assigns + [line];
        } else {
          rows := rows + [line];
        }
      }
    }
    assert lines[..|lines|] == lines;
  }

  // ------------------------------------------------------------ adjacency-matrix text: cells

  predicate IsBracket(c: char)
  {
    c == '[' || c == ']'
  }

  /** `replaceAll("[\\[\\]]", "")`: the text without its square brackets. */
  function RemoveBrackets(s: string): string
  {
    if s == [] then [] else RemoveBrackets(s[..|s| - 1]) + (if IsBracket(s[|s| - 1]) then [] else [s[|s| - 1]])
  }

  /** Removing brackets keeps every other character, in order, and distributes over concatenation. */
  lemma {:induction false} RemoveBracketsAppend(s: string, t: string)
    ensures RemoveBrackets(s + t) == RemoveBrackets(s) + RemoveBrackets(t)
    decreases |t|
  {
    if t != [] {
      var u := t[..|t| - 1];
      assert (s + t)[..|s + t| - 1] == s + u;
      RemoveBracketsAppend(s, u);
    } else {
      assert s + t == s;
    }
  }

  /** Text without brackets is left as it is. */
  lemma {:induction false} RemoveBracketsFree(s: string)
    requires forall i :: 0 <= i < |s| ==> !IsBracket(s[i])
    ensures RemoveBrackets(s) == s
  {
    if s != [] {
      RemoveBracketsFree(s[..|s| - 1]);
    }
  }

  /** The cells of a matrix row: brackets removed, split on runs of white space and dots. */
  function Cells(row: string): seq<string>
  {
    SplitCells(RemoveBrackets(row))
  }

  /** The cells of every row: the matrix as the loader reads it. */
  function CellTable(rows: seq<string>): seq<seq<string>>
  {
    seq(|rows|, i requires 0 <= i < |rows| => Cells(rows[i]))
  }

  /** A cell that marks an edge. */
  predicate IsOne(cell: string)
  {
    Trim(cell) == "1" || Trim(cell) == "1.0"
  }

  /** Matrix entry `j` of a row with these cells: cell `j` exists and marks an edge. */
  predicate Cell(cells: seq<string>, j: int)
  {
    0 <= j < |cells| && IsOne(cells[j])
  }

  /** One row of the matrix loop: only cells before both the end of the row and column n are written. */
  method FillRow(m: array2<bool>, i: int, row: string)
    requires 0 <= i < m.Length0
    requires forall j :: 0 <= j < m.Length1 ==> !m[i, j]
    modifies m
    ensures forall r, j :: 0 <= r < m.Length0 && 0 <= j < m.Length1 ==>
      m[r, j] == if r == i then Cell(Cells(row), j) else old(m[r, j])
  {
    var values := SplitCells(RemoveBrackets(row));
    var bound := if |values| < m.Length1 then |values| else m.Length1;
    for j := 0 to bound
      invariant forall r, c :: 0 <= r < m.Length0 && 0 <= c < m.Length1 ==>
        m[r, c] == if r == i && c < j then Cell(values, c) else old(m[r, c])
    {
      var val := Trim(values[j]);
      if val != [] {
        m[i, j] := val == "1" || val == "1.0";
      }
    }
  }

  /** `m` is the n-by-n matrix of a table of n rows of cells. */
  ghost predicate MatrixOf(m: array2<bool>, table: seq<seq<string>>)
    reads m
  {
    && m.Length0 == |table| && m.Length1 == |table|
    && forall i, j :: 0 <= i < |table| && 0 <= j < |table| ==> m[i, j] == Cell(table[i], j)
  }

  /** The n-by-n matrix of the rows, n being the number of rows. */
  method ParseMatrix(rows: seq<string>) returns (m: array2<bool>)
    ensures fresh(m) && MatrixOf(m, CellTable(rows))
  {
    var n := |rows|;
    ghost var table := CellTable(rows);
    m := new bool[n, n]((i, j) => false);
    for i := 0 to n
      invariant forall r, j :: 0 <= r < n && 0 <= j < n ==> m[r, j] == if r < i then Cell(table[r], j) else false
    {
      FillRow(m, i, rows[i]);
      assert table[i] == Cells(rows[i]);
    }
  }

  // ------------------------------------------------------------ adjacency-matrix text: CSR

  /** The columns below `hi` of a row of cells that hold an edge, in increasing order. */
  function Columns(cells: seq<string>, hi: nat): seq<int>
  {
    if hi == 0 then [] else Columns(cells, hi - 1) + (if Cell(cells, hi - 1) then [hi - 1] else [])
  }

  /** How many columns below `hi` of row `i` hold an edge to a higher vertex. */
  function Above(cells: seq<string>, i: int, hi: nat): nat
  {
    if hi == 0 then 0 else Above(cells, i, hi - 1) + (if Cell(cells, hi - 1) && i < hi - 1 then 1 else 0)
  }

  /** The neighbour list of every row. */
  function RowLists(table: seq<seq<string>>): seq<seq<int>>
  {
    seq(|table|, i requires 0 <= i < |table| => Columns(table[i], |table|))
  }

  /** The edges `i < j` counted over the first `k` rows. */
  function UpperEdges(table: seq<seq<string>>, k: nat): nat
    requires k <= |table|
  {
    if k == 0 then 0 else UpperEdges(table, k - 1) + Above(table[k - 1], k - 1, |table|)
  }

  /** The graph the matrix loader builds from the matrix table. */
  function MatrixGraph(table: seq<seq<string>>): Graph
  {
    FromLists(RowLists(table), UpperEdges(table, |table|))
  }

  /** The inner loop of the conversion for row `i`. */
  method ScanRow(m: array2<bool>, i: int, ghost table: seq<seq<string>>) returns (columns: seq<int>, above: nat)
    requires MatrixOf(m, table) && 0 <= i < |table|
    ensures columns == Columns(table[i], |table|) && above == Above(table[i], i, |table|)
  {
    ghost var cells := table[i];
    columns, above := [], 0;
    for j := 0 to m.Length1
      invariant columns == Columns(cells, j) && above == Above(cells, i, j)
    {
      if m[i, j] {
        columns := columns + [j];
        if i < j {
          above := above + 1;
        }
      }
    }
  }

  /** One pass of the outer conversion loop: row `i` starts where the list ends, then its columns are added. */
  method ConvertRow(m: array2<bool>, i: int, ghost table: seq<seq<string>>, rowPointers: array<int>,
                    adjacencyList: seq<int>, edgeCount: nat)
    returns (adjacencyList': seq<int>, edgeCount': nat)
    requires MatrixOf(m, table) && 0 <= i < |table| && rowPointers.Length == |table| + 1
    requires adjacencyList == Flatten(RowLists(table)[..i]) && edgeCount == UpperEdges(table, i)
    requires rowPointers[..i] == Starts(RowLists(table), i)
    modifies rowPointers
    ensures adjacencyList' == Flatten(RowLists(table)[..i + 1]) && edgeCount' == UpperEdges(table, i + 1)
    ensures rowPointers[..i + 1] == Starts(RowLists(table), i + 1)
  {
    assert RowLists(table)[..i + 1][..i] == RowLists(table)[..i];
    rowPointers[i] := |adjacencyList|;
    assert rowPointers[..i + 1] == rowPointers[..i] + [rowPointers[i]];
    var columns, above := ScanRow(m, i, table);
    adjacencyList' := adjacencyList + columns;
    edgeCount' := edgeCount + above;
  }

  /** The conversion of the matrix to CSR form, counting each edge `i < j` once. */
  method ToCsr(m: array2<bool>, ghost table: seq<seq<string>>) returns (g: Graph)
    requires MatrixOf(m, table)
    ensures g == MatrixGraph(table)
  {
    var n := m.Length0;
    var adjacencyList: seq<int> := [];
    var rowPointers := new int[n + 1];
    var edgeCount := 0;
    for i := 0 to n
      invariant adjacencyList == Flatten(RowLists(table)[..i]) && edgeCount == UpperEdges(table, i)
      invariant rowPointers[..i] == Starts(RowLists(table), i)
    {
      adjacencyList, edgeCount := ConvertRow(m, i, table, rowPointers, adjacencyList, edgeCount);
    }
    rowPointers[n] := |adjacencyList|;
    assert rowPointers[..] == rowPointers[..n] + [rowPointers[n]];
    assert RowLists(table)[..n] == RowLists(table);
    g := Graph(n, edgeCount, rowPointers[..], adjacencyList);
  }


  // ------------------------------------------------------------ adjacency-matrix text: the graph

  /** The columns of a row of cells are exactly its "1" cells below `hi`, in strictly increasing order. */
  lemma {:induction false} ColumnsAreCells(cells: seq<string>, hi: nat)
    ensures forall j :: j in Columns(cells, hi) <==> 0 <= j < hi && Cell(cells, j)
    ensures forall a, b :: 0 <= a < b < |Columns(cells, hi)| ==> Columns(cells, hi)[a] < Columns(cells, hi)[b]
    ensures forall a :: 0 <= a < |Columns(cells, hi)| ==> 0 <= Columns(cells, hi)[a] < hi
  {
    if hi > 0 {
      ColumnsAreCells(cells, hi - 1);
    }
  }

  /** The matrix loader builds a well-formed CSR graph whose row `i` lists the "1" cells of matrix row `i`. */
  lemma MatrixGraphCsr(table: seq<seq<string>>)
    ensures Csr(MatrixGraph(table)) && EntriesInRange(MatrixGraph(table))
    ensures forall i :: 0 <= i < |table| ==> Neighbors(MatrixGraph(table), i) == Columns(table[i], |table|)
  {
    var lists := RowLists(table);
    FromListsCsr(lists, UpperEdges(table, |table|));
    forall i | 0 <= i < |table|
      ensures forall a :: 0 <= a < |lists[i]| ==> 0 <= lists[i][a] < |table|
    {
      ColumnsAreCells(table[i], |table|);
    }
    FlattenInRange(lists, |table|);
  }

  /**
   * What the matrix loader promises about each vertex: `j` is a neighbour of
   * `i` exactly when matrix cell (i, j) is set, and the neighbours come in
   * strictly increasing order, so none is repeated.
   */
  lemma MatrixEdges(table: seq<seq<string>>, i: int)
    requires 0 <= i < |table|
    ensures Csr(MatrixGraph(table))
    ensures forall j :: j in Neighbors(MatrixGraph(table), i) <==> 0 <= j < |table| && Cell(table[i], j)
    ensures var ns := Neighbors(MatrixGraph(table), i); forall a, b :: 0 <= a < b < |ns| ==> ns[a] < ns[b]
  {
    MatrixGraphCsr(table);
    ColumnsAreCells(table[i], |table|);
  }

  /** Number of entries of `s` greater than `x`. */
  function CountAbove(s: seq<int>, x: int): nat
  {
    if s == [] then 0 else CountAbove(s[..|s| - 1], x) + (if s[|s| - 1] > x then 1 else 0)
  }

  /** The entries `i < j` of a graph's first `k` rows. */
  function UpperEntries(g: Graph, k: nat): nat
    requires Csr(g) && k <= g.vertexCount
  {
    if k == 0 then 0 else UpperEntries(g, k - 1) + CountAbove(Neighbors(g, k - 1), k - 1)
  }

  lemma {:induction false} AboveCountsColumns(cells: seq<string>, i: int, hi: nat)
    ensures Above(cells, i, hi) == CountAbove(Columns(cells, hi), i)
  {
    if hi > 0 {
      AboveCountsColumns(cells, i, hi - 1);
      var c := Columns(cells, hi - 1);
      if Cell(cells, hi - 1) {
        assert (c + [hi - 1])[..|c|] == c;
      } else {
        assert c + [] == c;
      }
    }
  }

  /** Entries above the diagonal in the first `k` neighbour lists. */
  function ListsAbove(lists: seq<seq<int>>, k: nat): nat
    requires k <= |lists|
  {
    if k == 0 then 0 else ListsAbove(lists, k - 1) + CountAbove(lists[k - 1], k - 1)
  }

  lemma {:induction false} UpperEntriesOfLists(g: Graph, lists: seq<seq<int>>, k: nat)
    requires Csr(g) && g.vertexCount == |lists| && k <= |lists|
    requires forall i :: 0 <= i < |lists| ==> Neighbors(g, i) == lists[i]
    ensures UpperEntries(g, k) == ListsAbove(lists, k)
  {
    if k > 0 {
      UpperEntriesOfLists(g, lists, k - 1);
      assert Neighbors(g, k - 1) == lists[k - 1];
    }
  }

  lemma {:induction false} UpperEdgesCount(table: seq<seq<string>>, k: nat)
    requires k <= |table|
    ensures UpperEdges(table, k) == ListsAbove(RowLists(table), k)
  {
    if k > 0 {
      UpperEdgesCount(table, k - 1);
      assert RowLists(table)[k - 1] == Columns(table[k - 1], |table|);
      AboveCountsColumns(table[k - 1], k - 1, |table|);
    }
  }

  /** The edge count of the loaded graph is its number of stored entries `i < j`. */
  lemma MatrixEdgeCount(table: seq<seq<string>>)
    ensures Csr(MatrixGraph(table))
    ensures MatrixGraph(table).edgeCount == UpperEntries(MatrixGraph(table), |table|)
  {
    MatrixGraphCsr(table);
    UpperEdgesCount(table, |table|);
    UpperEntriesOfLists(MatrixGraph(table), RowLists(table), |table|);
  }

  // ------------------------------------------------------------ adjacency-matrix text: assignments

  /** A "v - p" line whose two sides both trim to valid integers. */
  function AssignmentEntry(line: string): Option<(int, int)>
  {
    var parts := Split(line, " - ");
    if |parts| != 2 then None
    else
      match ParseInt(Trim(parts[0]))
      case None => None
      case Some(v) =>
        match ParseInt(Trim(parts[1]))
        case None => None
        case Some(p) => Some((v, p))
  }

  /** The parsed entry of every assignment line. */
  function Entries(lines: seq<string>): seq<Option<(int, int)>>
  {
    seq(|lines|, k requires 0 <= k < |lines| => AssignmentEntry(lines[k]))
  }

  /** The effect of one entry on the assignments: an entry for a vertex below `|a|` overwrites it. */
  function Assign(a: seq<int>, entry: Option<(int, int)>): (r: seq<int>)
    ensures |r| == |a|
  {
    match entry
    case Some((v, p)) => if 0 <= v < |a| then a[v := p] else a
    case None => a
  }

  /** The effect of one entry on the largest part id: `Math.max` over the entries that were written. */
  function RaiseMax(m: int, entry: Option<(int, int)>, n: int): int
  {
    match entry
    case Some((v, p)) => if 0 <= v < n && p > m then p else m
    case None => m
  }

  /** The assignments once every entry is applied, every vertex starting at -1. */
  function FinalAssignments(entries: seq<Option<(int, int)>>, n: nat): (a: seq<int>)
    ensures |a| == n
  {
    if entries == [] then seq(n, _ => -1) else Assign(FinalAssignments(entries[..|entries| - 1], n), entries[|entries| - 1])
  }

  /** The largest part id written, or -1 when none was. */
  function MaxPartId(entries: seq<Option<(int, int)>>, n: nat): int
  {
    if entries == [] then -1 else RaiseMax(MaxPartId(entries[..|entries| - 1], n), entries[|entries| - 1], n)
  }

  /** The part given to vertex `v` by the last entry that names it, if any. */
  function LastMention(entries: seq<Option<(int, int)>>, v: int): Option<int>
  {
    if entries == [] then None
    else if entries[|entries| - 1].Some? && entries[|entries| - 1].value.0 == v then Some(entries[|entries| - 1].value.1)
    else LastMention(entries[..|entries| - 1], v)
  }

  /** An entry that writes a non-negative part id for a vertex below `n`. */
  predicate NamesPart(entry: Option<(int, int)>, n: int)
  {
    entry.Some? && 0 <= entry.value.0 < n && entry.value.1 >= 0
  }

  /** Each vertex keeps -1 unless some entry names it, and then takes the part of the last such entry. */
  lemma {:induction false} FinalIsLastMention(entries: seq<Option<(int, int)>>, n: nat, v: int)
    requires 0 <= v < n
    ensures FinalAssignments(entries, n)[v] == match LastMention(entries, v) case None => -1 case Some(p) => p
  {
    if entries != [] {
      FinalIsLastMention(entries[..|entries| - 1], n, v);
    }
  }

  /** No vertex ends with a part id above the largest one written. */
  lemma {:induction false} FinalBelowMax(entries: seq<Option<(int, int)>>, n: nat)
    ensures MaxPartId(entries, n) >= -1
    ensures forall v :: 0 <= v < n ==> FinalAssignments(entries, n)[v] <= MaxPartId(entries, n)
  {
    if entries != [] {
      FinalBelowMax(entries[..|entries| - 1], n);
    }
  }

  /** A part id is written (and a partition built) exactly when some entry names a non-negative part. */
  lemma {:induction false} MaxPartIdNamed(entries: seq<Option<(int, int)>>, n: nat)
    ensures MaxPartId(entries, n) >= 0 <==> exists k :: 0 <= k < |entries| && NamesPart(entries[k], n)
  {
    if entries != [] {
      var front := entries[..|entries| - 1];
      MaxPartIdNamed(front, n);
      FinalBelowMax(front, n);
      if exists k :: 0 <= k < |front| && NamesPart(front[k], n) {
        var k :| 0 <= k < |front| && NamesPart(front[k], n);
        assert entries[k] == front[k];
      }
      if exists k :: 0 <= k < |entries| && NamesPart(entries[k], n) {
        var k :| 0 <= k < |entries| && NamesPart(entries[k], n);
        if k < |front| {
          assert front[k] == entries[k];
        }
      }
    }
  }

  /** `split(" - ")` and the two `parseInt` calls of one assignment line; a failure is the caught exception. */
  method ParseEntry(line: string) returns (entry: Option<(int, int)>)
    ensures entry == AssignmentEntry(line)
  {
    var parts := Split(line, " - ");
    entry := None;
    if |parts| == 2 {
      var vertex := ParseInt(Trim(parts[0]));
      var partId := ParseInt(Trim(parts[1]));
      if vertex.Some? && partId.Some? {
        entry := Some((vertex.value, partId.value));
      }
    }
  }

  /** One pass of the assignment loop. */
  method ReadAssignment(assignments: array<int>, line: string, maxPartId: int) returns (maxPartId': int)
    modifies assignments
    ensures assignments[..] == Assign(old(assignments[..]), AssignmentEntry(line))
    ensures maxPartId' == RaiseMax(maxPartId, AssignmentEntry(line), assignments.Length)
  {
    var entry := ParseEntry(line);
    maxPartId' := maxPartId;
    if entry.Some? {
      var (vertex, partId) := entry.value;
      if 0 <= vertex < assignments.Length {
        assignments[vertex] := partId;
        maxPartId' := if maxPartId > partId then maxPartId else partId;
      }
    }
  }

  /** The size loop: every non-negative assignment counts one vertex for its part. */
  method CountSizes(assignments: array<int>, partSizes: array<int>)
    requires assignments != partSizes
    requires forall v :: 0 <= v < assignments.Length ==> assignments[v] < partSizes.Length
    requires forall p :: 0 <= p < partSizes.Length ==> partSizes[p] == 0
    modifies partSizes
    ensures forall p :: 0 <= p < partSizes.Length ==> partSizes[p] == Occurrences(assignments[..], p)
  {
    for v := 0 to assignments.Length
      invariant forall p :: 0 <= p < partSizes.Length ==> partSizes[p] == Occurrences(assignments[..v], p)
    {
      assert assignments[..v + 1] == assignments[..v] + [assignments[v]];
      forall p | 0 <= p < partSizes.Length {
        OccurrencesAppend(assignments[..v], assignments[v], p);
      }
      if assignments[v] >= 0 {
        partSizes[assignments[v]] := partSizes[assignments[v]] + 1;
      }
    }
    assert assignments[..assignments.Length] == assignments[..];
  }

  /** The line loop of the assignment section: the last mention of each vertex, and the largest part id seen. */
  method ReadAssignments(lines: seq<string>, n: nat) returns (assignments: array<int>, maxPartId: int)
    ensures fresh(assignments)
    ensures assignments[..] == FinalAssignments(Entries(lines), n) && maxPartId == MaxPartId(Entries(lines), n)
  {
    ghost var entries := Entries(lines);
    assignments := new int[n](_ => -1);
    maxPartId := -1;
    assert assignments[..] == FinalAssignments(entries[..0], n);
    for k := 0 to |lines|
      invariant assignments[..] == FinalAssignments(entries[..k], n) && maxPartId == MaxPartId(entries[..k], n)
    {
      assert entries[..k + 1][..k] == entries[..k];
      maxPartId := ReadAssignment(assignments, lines[k], maxPartId);
    }
    assert entries[..|lines|] == entries;
  }

  /** The assignment section: null when it writes no non-negative part id, else a consistent partition. */
  method ParseAssignments(lines: seq<string>, n: nat) returns (p: Partition?)
    ensures p == null <==> MaxPartId(Entries(lines), n) < 0
    ensures p != null ==> fresh(p) && fresh(p.assignments) && fresh(p.partSizes) && p.Valid()
    ensures p != null ==> p.assignments[..] == FinalAssignments(Entries(lines), n) && p.partCount == MaxPartId(Entries(lines), n) + 1
    ensures p != null ==> p.cutEdges == 0 && p.marginPercent == 10
  {
    if lines == [] {
      return null;
    }
    var assignments, maxPartId := ReadAssignments(lines, n);
    if maxPartId < 0 {
      return null;
    }
    FinalBelowMax(Entries(lines), n);
    var partCount := maxPartId + 1;
    var partSizes := new int[partCount](_ => 0);
    CountSizes(assignments, partSizes);
    p := new Partition.Of(assignments, partSizes, partCount, 0, 10);
  }

  /** `loadGraphFromAdjacencyMatrixText` over the lines of the file. */
  method LoadAdjacencyMatrixText(lines: seq<string>) returns (g: Graph, p: Partition?)
    ensures var (rows, assigns) := Sections(lines);
      && g == MatrixGraph(CellTable(rows))
      && (p == null <==> MaxPartId(Entries(assigns), |rows|) < 0)
      && (p != null ==>
            p.assignments[..] == FinalAssignments(Entries(assigns), |rows|) &&
            p.partCount == MaxPartId(Entries(assigns), |rows|) + 1)
    ensures p != null ==> fresh(p) && fresh(p.assignments) && fresh(p.partSizes) && p.Valid()
    ensures p != null ==> p.cutEdges == 0 && p.marginPercent == 10
  {
    var rows, assigns := SplitSections(lines);
    var m := ParseMatrix(rows);
    g := ToCsr(m, CellTable(rows));
    p := ParseAssignments(assigns, |rows|);
  }

  // ------------------------------------------------------------ CSRRG text

  /** What the CSRRG loader keeps of a file beside the graph: line 1 and the four integer lists. */
  datatype CsrrgData = CsrrgData(
    maxSecondaryValue: int,
    secondaryData: seq<int>,
    secondaryRowPtr: seq<int>,
    graphNeighbors: seq<int>,
    graphRowPtr: seq<int>)

  /** `readLine` for line `k` (counting from 0): the line, or null past the end of the file. */
  function LineAt(lines: seq<string>, k: nat): Option<string>
  {
    if k < |lines| then Some(lines[k]) else None
  }

  /**
   * `loadGraphFromCsrrgText`: None where the source throws (an empty file,
   * a first line that is not an integer, fewer than two row pointers);
   * otherwise the graph of lines 4 and 5 and the five fields.
   */
  function Csrrg(lines: seq<string>): Option<(Graph, CsrrgData)>
  {
    if lines == [] then None
    else
      match ParseInt(Trim(lines[0]))
      case None => None
      case Some(maxSecondaryValue) =>
        var neighbors, rowPtr := IntegerList(LineAt(lines, 3), ";"), IntegerList(LineAt(lines, 4), ";");
        if |rowPtr| < 2 then None
        else
          var data := CsrrgData(maxSecondaryValue, IntegerList(LineAt(lines, 1), ";"), IntegerList(LineAt(lines, 2), ";"), neighbors, rowPtr);
          Some((Graph(|rowPtr| - 1, |neighbors| / 2, rowPtr, neighbors), data))
  }

  method LoadCsrrgText(lines: seq<string>) returns (r: Option<(Graph, CsrrgData)>)
    ensures r == Csrrg(lines)
    ensures r.Some? ==> r.value.0.vertexCount >= 1 && |r.value.0.rowPointers| == r.value.0.vertexCount + 1
  {
    if lines == [] {
      return None;
    }
    var first := ParseInt(Trim(lines[0]));
    if first.None? {
      return None;
    }
    var secondaryData := ParseIntegerList(LineAt(lines, 1), ";");
    var secondaryRowPtr := ParseIntegerList(LineAt(lines, 2), ";");
    var graphNeighbors := ParseIntegerList(LineAt(lines, 3), ";");
    var graphRowPtr := ParseIntegerList(LineAt(lines, 4), ";");
    if |graphRowPtr| < 2 {
      return None;
    }
    var graph := Graph(|graphRowPtr| - 1, |graphNeighbors| / 2, graphRowPtr, graphNeighbors);
    r := Some((graph, CsrrgData(first.value, secondaryData, secondaryRowPtr, graphNeighbors, graphRowPtr)));
  }

  // ------------------------------------------------------------ graphs without edges

  /** The graph of the two assignment-only formats: `n` vertices, no edges, all row pointers 0. */
  function EmptyGraph(n: nat): Graph
  {
    Graph(n, 0, seq(n + 1, _ => 0), [])
  }

  /** Such a graph is a valid undirected graph in which no vertex has a neighbour. */
  lemma EmptyGraphUndirected(n: nat)
    ensures Undirected(EmptyGraph(n))
    ensures forall v :: Neighbors(EmptyGraph(n), v) == []
  {
  }

  // ------------------------------------------------------------ simple assignment text

  /** `parseInt(side.substring(side.indexOf(' ') + 1).trim())` on a trimmed side of the arrow. */
  function NumberAfterSpace(side: string): Option<int>
  {
    var t := Trim(side);
    var start := match Find(t, " ", 0) case Some(i) => i + 1 case None => 0;
    ParseInt(Trim(t[start..]))
  }

  /** The vertex and part of a line "Wierzchołek X -> Podgraf Y", if it is one that parses. */
  function SimpleEntry(line: string): Option<(int, int)>
  {
    var t := Trim(line);
    if t == [] || !(StartsWith(t, "Wierzchołek") && Contains(t, "->") && Contains(t, "Podgraf")) then None
    else
      var parts := Split(t, "->");
      if |parts| != 2 then None
      else
        match NumberAfterSpace(parts[0])
        case None => None
        case Some(v) =>
          match NumberAfterSpace(parts[1])
          case None => None
          case Some(p) => Some((v, p))
  }

  /** The parsed entry of every line. */
  function SimpleEntries(lines: seq<string>): seq<Option<(int, int)>>
  {
    seq(|lines|, k requires 0 <= k < |lines| => SimpleEntry(lines[k]))
  }

  /** The map the entries build: a later entry for a vertex replaces an earlier one. */
  function EntryMap(entries: seq<Option<(int, int)>>): map<int, int>
  {
    if entries == [] then map[]
    else
      var m := EntryMap(entries[..|entries| - 1]);
      match entries[|entries| - 1]
      case Some((v, p)) => m[v := p]
      case None => m
  }

  /** `Math.max` of -1 and every vertex named. */
  function MaxVertex(entries: seq<Option<(int, int)>>): int
  {
    if entries == [] then -1
    else
      var m := MaxVertex(entries[..|entries| - 1]);
      match entries[|entries| - 1]
      case Some((v, _)) => if v > m then v else m
      case None => m
  }

  /** `Math.max` of -1 and every part named, including parts later overwritten. */
  function MaxPart(entries: seq<Option<(int, int)>>): int
  {
    if entries == [] then -1
    else
      var m := MaxPart(entries[..|entries| - 1]);
      match entries[|entries| - 1]
      case Some((_, p)) => if p > m then p else m
      case None => m
  }

  /** Every key lies at or below the largest vertex named, which is itself a key unless none was named; every value lies at or below the largest part. */
  lemma {:induction false} EntryMapBounds(entries: seq<Option<(int, int)>>)
    ensures MaxVertex(entries) >= -1 && MaxPart(entries) >= -1
    ensures forall k :: k in EntryMap(entries) ==> k <= MaxVertex(entries) && EntryMap(entries)[k] <= MaxPart(entries)
    ensures MaxVertex(entries) == -1 || MaxVertex(entries) in EntryMap(entries)
  {
    if entries != [] {
      EntryMapBounds(entries[..|entries| - 1]);
    }
  }

  /** One line of the simple text loop: trimmed, recognised, split at the arrow and parsed; a failure is the caught exception. */
  method ParseSimpleLine(line: string) returns (entry: Option<(int, int)>)
    ensures entry == SimpleEntry(line)
  {
    entry := None;
    var t := Trim(line);
    if t == [] {
      return;
    }
    if StartsWith(t, "Wierzchołek") && Contains(t, "->") && Contains(t, "Podgraf") {
      var parts := Split(t, "->");
      if |parts| == 2 {
        var vertexId := NumberAfterSpace(parts[0]);
        var partId := NumberAfterSpace(parts[1]);
        if vertexId.Some? && partId.Some? {
          entry := Some((vertexId.value, partId.value));
        }
      }
    }
  }

  /** The reading loop of `loadSimpleAssignmentText`. */
  method ScanSimple(lines: seq<string>) returns (assignments: map<int, int>, maxVertexId: int, maxPartId: int)
    ensures var entries := SimpleEntries(lines);
      assignments == EntryMap(entries) && maxVertexId == MaxVertex(entries) && maxPartId == MaxPart(entries)
  {
    ghost var entries := SimpleEntries(lines);
    assignments, maxVertexId, maxPartId := map[], -1, -1;
    for k := 0 to |lines|
      invariant assignments == EntryMap(entries[..k])
      invariant maxVertexId == MaxVertex(entries[..k]) && maxPartId == MaxPart(entries[..k])
    {
      assert entries[..k + 1][..k] == entries[..k];
      var entry := ParseSimpleLine(lines[k]);
      if entry.Some? {
        var (vertexId, partId) := entry.value;
        assignments := assignments[vertexId := partId];
        maxVertexId := if maxVertexId > vertexId then maxVertexId else vertexId;
        maxPartId := if maxPartId > partId then maxPartId else partId;
      }
    }
    assert entries[..|lines|] == entries;
  }

  /** The vertices of `[lo, hi)` that are not keys of `m`. */
  function Gaps(m: map<int, int>, lo: int, hi: int): nat
    decreases hi - lo
  {
    if lo >= hi then 0 else (if lo in m then 0 else 1) + Gaps(m, lo + 1, hi)
  }

  /** The keys of `keys` in `[lo, hi)`. */
  function KeysIn(keys: set<int>, lo: int, hi: int): set<int>
  {
    set k | k in keys && lo <= k < hi
  }

  /** Each vertex of `[lo, hi)` is either a key or a gap. */
  lemma {:induction false} KeysAndGaps(m: map<int, int>, lo: int, hi: int)
    requires lo <= hi
    ensures |KeysIn(m.Keys, lo, hi)| + Gaps(m, lo, hi) == hi - lo
    decreases hi - lo
  {
    if lo < hi {
      KeysAndGaps(m, lo + 1, hi);
      if lo in m {
        assert KeysIn(m.Keys, lo, hi) == KeysIn(m.Keys, lo + 1, hi) + {lo};
      } else {
        assert KeysIn(m.Keys, lo, hi) == KeysIn(m.Keys, lo + 1, hi);
      }
    } else {
      assert KeysIn(m.Keys, lo, hi) == {};
    }
  }

  /** No key is a negative vertex and no value is a negative part; otherwise the source throws. */
  predicate SimpleValid(m: map<int, int>)
  {
    forall k :: k in m ==> k >= 0 && m[k] >= 0
  }

  /** The assignment a vertex ends with: its value in the map, part 0 when it has none. */
  function SimplePart(m: map<int, int>, v: int): int
  {
    if v in m then m[v] else 0
  }

  /**
   * The entry loop over the map, in an order the source leaves to the hash
   * map: writes each value and counts it in its part; a negative key or
   * value stops it (the source throws).
   */
  method PlaceEntries(m: map<int, int>, assignments: array<int>, partSizes: array<int>) returns (ok: bool)
    requires assignments != partSizes
    requires forall k :: k in m ==> k < assignments.Length && m[k] < partSizes.Length
    requires forall v :: 0 <= v < assignments.Length ==> assignments[v] == 0
    requires forall p :: 0 <= p < partSizes.Length ==> partSizes[p] == 0
    modifies assignments, partSizes
    ensures ok <==> SimpleValid(m)
    ensures ok ==> forall v :: 0 <= v < assignments.Length ==> assignments[v] == SimplePart(m, v)
    ensures ok ==> forall p :: 1 <= p < partSizes.Length ==> partSizes[p] == Occurrences(assignments[..], p)
    ensures ok && partSizes.Length > 0 ==>
      partSizes[0] + Gaps(m, 0, assignments.Length) == Occurrences(assignments[..], 0)
  {
    var n := assignments.Length;
    var remaining := m.Keys;
    KeysAndGaps(m, 0, n);
    assert forall v :: 0 <= v < n ==> assignments[..][v] == 0;
    assert Occurrences(assignments[..], 0) == n by {
      AllZeroOccurrences(assignments[..]);
    }
    forall p | 1 <= p < partSizes.Length
      ensures partSizes[p] == Occurrences(assignments[..], p)
    {
      OccurrencesAbsent(assignments[..], p);
    }
    while remaining != {}
      invariant remaining <= m.Keys
      invariant forall v :: 0 <= v < n ==> assignments[v] == if v in m && v !in remaining then m[v] else 0
      invariant forall k :: k in m && k !in remaining ==> k >= 0 && m[k] >= 0
      invariant forall p :: 1 <= p < partSizes.Length ==> partSizes[p] == Occurrences(assignments[..], p)
      invariant partSizes.Length > 0 ==>
        partSizes[0] + |KeysIn(remaining, 0, n)| + Gaps(m, 0, n) == Occurrences(assignments[..], 0)
      decreases |remaining|
    {
      var key :| key in remaining;
      if key < 0 || m[key] < 0 {
        return false;
      }
      PlaceOne(m, remaining, assignments, partSizes, key);
      remaining := remaining - {key};
    }
    ok := true;
  }

  /** `assignmentsArray[key] = value; partSizes[value]++` for one valid, not yet placed key. */
  method PlaceOne(m: map<int, int>, remaining: set<int>, assignments: array<int>, partSizes: array<int>, key: int)
    requires assignments != partSizes && key in remaining && remaining <= m.Keys
    requires 0 <= key < assignments.Length && 0 <= m[key] < partSizes.Length
    requires forall v :: 0 <= v < assignments.Length ==> assignments[v] == if v in m && v !in remaining then m[v] else 0
    requires forall p :: 1 <= p < partSizes.Length ==> partSizes[p] == Occurrences(assignments[..], p)
    requires partSizes[0] + |KeysIn(remaining, 0, assignments.Length)| + Gaps(m, 0, assignments.Length) == Occurrences(assignments[..], 0)
    modifies assignments, partSizes
    ensures forall v :: 0 <= v < assignments.Length ==>
      assignments[v] == if v in m && v !in remaining - {key} then m[v] else 0
    ensures forall p :: 1 <= p < partSizes.Length ==> partSizes[p] == Occurrences(assignments[..], p)
    ensures partSizes[0] + |KeysIn(remaining - {key}, 0, assignments.Length)| + Gaps(m, 0, assignments.Length) ==
      Occurrences(assignments[..], 0)
  {
    var n := assignments.Length;
    ghost var before := assignments[..];
    assert KeysIn(remaining, 0, n) == KeysIn(remaining - {key}, 0, n) + {key};
    assignments[key] := m[key];
    assert assignments[..] == before[key := m[key]];
    forall p | 0 <= p < partSizes.Length {
      OccurrencesUpdate(before, key, m[key], p);
    }
    partSizes[m[key]] := partSizes[m[key]] + 1;
  }

  lemma {:induction false} AllZeroOccurrences(s: seq<int>)
    requires forall i :: 0 <= i < |s| ==> s[i] == 0
    ensures Occurrences(s, 0) == |s|
  {
    if s != [] {
      AllZeroOccurrences(s[1..]);
    }
  }

  /** The second loop: every vertex without an entry counts for part 0. */
  method CountGaps(m: map<int, int>, n: nat, partSizes: array<int>)
    requires partSizes.Length > 0 || Gaps(m, 0, n) == 0
    modifies partSizes
    ensures partSizes.Length > 0 ==> partSizes[0] == old(partSizes[0]) + Gaps(m, 0, n)
    ensures forall p :: 1 <= p < partSizes.Length ==> partSizes[p] == old(partSizes[p])
  {
    for i := 0 to n
      invariant partSizes.Length > 0 ==> partSizes[0] + Gaps(m, i, n) == old(partSizes[0]) + Gaps(m, 0, n)
      invariant partSizes.Length == 0 ==> Gaps(m, i, n) == 0
      invariant forall p :: 1 <= p < partSizes.Length ==> partSizes[p] == old(partSizes[p])
    {
      if i !in m {
        partSizes[0] := partSizes[0] + 1;
      }
    }
  }

  /** With a valid map, every vertex up to the largest named gets a part between 0 and the largest part named. */
  lemma SimplePartsInRange(m: map<int, int>, maxVertexId: int, maxPartId: int)
    requires forall k :: k in m ==> k <= maxVertexId && m[k] <= maxPartId
    requires maxVertexId == -1 || maxVertexId in m
    ensures SimpleValid(m) ==> forall v :: 0 <= v <= maxVertexId ==> 0 <= SimplePart(m, v) <= maxPartId
    ensures SimpleValid(m) && maxPartId < 0 ==> maxVertexId == -1 && Gaps(m, 0, maxVertexId + 1) == 0
  {
  }

  /**
   * `loadSimpleAssignmentText`: None where the source throws (a negative
   * vertex or part in the final map); otherwise a graph without edges on
   * vertices 0 .. max vertex named, and a partition that puts every vertex
   * without an entry in part 0 and counts it there.
   */
  method LoadSimpleAssignmentText(lines: seq<string>) returns (r: Option<(Graph, Partition)>)
    ensures var entries := SimpleEntries(lines);
      && (r.None? <==> !SimpleValid(EntryMap(entries)))
      && (r.Some? ==>
            MaxVertex(entries) >= -1 &&
            r.value.0 == EmptyGraph(MaxVertex(entries) + 1) &&
            r.value.1.partCount == MaxPart(entries) + 1 &&
            r.value.1.assignments[..] == seq(MaxVertex(entries) + 1, v => SimplePart(EntryMap(entries), v)))
    ensures r.Some? ==> fresh(r.value.1) && fresh(r.value.1.assignments) && fresh(r.value.1.partSizes)
    ensures r.Some? ==> r.value.1.Valid() && r.value.1.cutEdges == 0 && r.value.1.marginPercent == 10
    ensures r.Some? ==> Sum(r.value.1.partSizes[..]) == r.value.0.vertexCount
  {
    var m, maxVertexId, maxPartId := ScanSimple(lines);
    EntryMapBounds(SimpleEntries(lines));
    SimplePartsInRange(m, maxVertexId, maxPartId);
    var vertexCount := maxVertexId + 1;
    var graph := EmptyGraph(vertexCount);
    var partCount := maxPartId + 1;
    var assignments := new int[vertexCount](_ => 0);
    var partSizes := new int[partCount](_ => 0);
    var ok := PlaceEntries(m, assignments, partSizes);
    if !ok {
      return None;
    }
    CountGaps(m, vertexCount, partSizes);
    var p := new Partition.Of(assignments, partSizes, partCount, 0, 10);
    SizesSumToVertexCount(assignments[..], partSizes[..]);
    assert assignments[..] == seq(vertexCount, v => SimplePart(m, v));
    r := Some((graph, p));
  }

  // ------------------------------------------------------------ simple assignment binary

  /** A byte as `FileInputStream.read` returns it. */
  newtype Byte = x: int | 0 <= x < 256

  function Pow2(b: nat): (r: nat)
    ensures r >= 1
  {
    if b == 0 then 1 else 2 * Pow2(b - 1)
  }

  /** Binary digit `b` of `x`, counting from the least significant. */
  function Bit(x: nat, b: nat): (d: int)
    ensures d == 0 || d == 1
  {
    if b == 0 then x % 2 else Bit(x / 2, b - 1)
  }

  /** Dividing by `2h` is halving and then dividing by `h`. */
  lemma HalveThenDivide(x: nat, h: nat)
    requires h >= 1
    ensures x / (2 * h) == (x / 2) / h
  {
    var q, r := (x / 2) / h, (x / 2) % h;
    assert x / 2 == h * q + r;
    assert (2 * h) * q == 2 * (h * q);
    assert x == (2 * h) * q + (2 * r + x % 2);
    DivModUnique(x, 2 * h, q, 2 * r + x % 2);
  }

  /** `(x >> b) & 1` is binary digit `b` of `x`. */
  lemma {:induction false} ShiftedBit(x: nat, b: nat)
    ensures (x / Pow2(b)) % 2 == Bit(x, b)
  {
    if b > 0 {
      ShiftedBit(x / 2, b - 1);
      HalveThenDivide(x, Pow2(b - 1));
    }
  }

  /** The eight bits of a byte, least significant first. */
  function ByteBits(x: Byte): seq<int>
  {
    seq(8, b requires 0 <= b < 8 => Bit(x as nat, b))
  }

  /** The bits of every byte, in file order. */
  function Bits(bytes: seq<Byte>): seq<int>
  {
    if bytes == [] then [] else Bits(bytes[..|bytes| - 1]) + ByteBits(bytes[|bytes| - 1])
  }

  /** Vertex `k` gets bit `k % 8` of byte `k / 8`, so every assignment is 0 or 1. */
  lemma {:induction false} BitsLayout(bytes: seq<Byte>)
    ensures |Bits(bytes)| == 8 * |bytes|
    ensures forall k :: 0 <= k < |Bits(bytes)| ==> Bits(bytes)[k] == Bit(bytes[k / 8] as nat, k % 8)
    ensures forall k :: 0 <= k < |Bits(bytes)| ==> Bits(bytes)[k] == 0 || Bits(bytes)[k] == 1
  {
    if bytes != [] {
      var front := bytes[..|bytes| - 1];
      BitsLayout(front);
      forall k | 0 <= k < |Bits(bytes)|
        ensures Bits(bytes)[k] == Bit(bytes[k / 8] as nat, k % 8)
      {
        if k < 8 * |front| {
          assert Bits(bytes)[k] == Bits(front)[k];
          assert front[k / 8] == bytes[k / 8];
        } else {
          DivModUnique(k, 8, |front|, k - 8 * |front|);
        }
      }
    }
  }

  /** The number the bits stand for, least significant first. */
  function FromBits(bits: seq<int>): int
  {
    if bits == [] then 0 else bits[0] + 2 * FromBits(bits[1..])
  }

  lemma {:induction false} LowBits(x: nat, k: nat)
    ensures FromBits(seq(k, b requires 0 <= b < k => Bit(x, b))) == x % Pow2(k)
  {
    if k > 0 {
      var bits := seq(k, b requires 0 <= b < k => Bit(x, b));
      LowBits(x / 2, k - 1);
      assert bits[1..] == seq(k - 1, b requires 0 <= b < k - 1 => Bit(x / 2, b));
      var h := Pow2(k - 1);
      DivModUnique(x, Pow2(k), (x / 2) / h, 2 * ((x / 2) % h) + x % 2);
    }
  }

  /** The eight bits of a byte give the byte back: no information is lost in the unpacking. */
  lemma ByteBitsRoundTrip(x: Byte)
    ensures FromBits(ByteBits(x)) == x as int
  {
    LowBits(x as nat, 8);
  }

  /** The inner loop: the eight bits of one byte, appended least significant first. */
  method AppendByte(bits: seq<int>, byteValue: Byte) returns (bits': seq<int>)
    ensures bits' == bits + ByteBits(byteValue)
  {
    bits' := bits;
    for bitPos := 0 to 8
      invariant bits' == bits + ByteBits(byteValue)[..bitPos]
    {
      var bit := (byteValue as int / Pow2(bitPos)) % 2;
      ShiftedBit(byteValue as nat, bitPos);
      assert ByteBits(byteValue)[..bitPos + 1] == ByteBits(byteValue)[..bitPos] + [bit];
      bits' := bits' + [bit];
    }
  }

  /** The reading loop of `loadSimpleAssignmentBinary`. */
  method UnpackBits(bytes: seq<Byte>) returns (bits: seq<int>)
    ensures bits == Bits(bytes)
  {
    bits := [];
    for i := 0 to |bytes|
      invariant bits == Bits(bytes[..i])
    {
      assert bytes[..i + 1][..i] == bytes[..i];
      bits := AppendByte(bits, bytes[i]);
    }
    assert bytes[..|bytes|] == bytes;
  }

  /** The partition loop: bit `i` is the part of vertex `i`, counted in its part. */
  method BinaryPartition(bits: seq<int>) returns (p: Partition)
    requires forall k :: 0 <= k < |bits| ==> bits[k] == 0 || bits[k] == 1
    ensures fresh(p) && fresh(p.assignments) && fresh(p.partSizes) && p.Valid()
    ensures p.assignments[..] == bits && p.partCount == 2 && p.cutEdges == 0 && p.marginPercent == 10
    ensures Sum(p.partSizes[..]) == |bits|
  {
    var vertexCount := |bits|;
    var assignments := new int[vertexCount];
    var partSizes := new int[2](_ => 0);
    for i := 0 to vertexCount
      invariant assignments[..i] == bits[..i]
      invariant forall q :: 0 <= q < 2 ==> partSizes[q] == Occurrences(bits[..i], q)
    {
      assert bits[..i + 1] == bits[..i] + [bits[i]];
      OccurrencesAppend(bits[..i], bits[i], 0);
      OccurrencesAppend(bits[..i], bits[i], 1);
      assignments[i] := bits[i];
      partSizes[bits[i]] := partSizes[bits[i]] + 1;
      assert assignments[..i + 1] == assignments[..i] + [assignments[i]];
    }
    assert assignments[..] == assignments[..vertexCount];
    assert bits[..vertexCount] == bits;
    p := new Partition.Of(assignments, partSizes, 2, 0, 10);
    SizesSumToVertexCount(bits, partSizes[..]);
  }

  /** `loadSimpleAssignmentBinary` over the bytes of the file: 8 vertices per byte, two parts, no edges. */
  method LoadSimpleAssignmentBinary(bytes: seq<Byte>) returns (g: Graph, p: Partition)
    ensures g == EmptyGraph(8 * |bytes|)
    ensures p.assignments[..] == Bits(bytes) && p.partCount == 2
    ensures fresh(p) && fresh(p.assignments) && fresh(p.partSizes) && p.Valid()
    ensures p.cutEdges == 0 && p.marginPercent == 10
    ensures Sum(p.partSizes[..]) == g.vertexCount
  {
    var bits := UnpackBits(bytes);
    BitsLayout(bytes);
    g := EmptyGraph(|bits|);
    p := BinaryPartition(bits);
  }
}
