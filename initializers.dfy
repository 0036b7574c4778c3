/**
 * The initial partitions of `PartitionInitializer` (Java) and of
 * `podzial.c` (C): modulo, sequential (contiguous blocks), random followed by
 * rebalancing, and (Java only) depth-first region growing. Every initialiser
 * refuses an empty graph or a non-positive part count; Java throws
 * `IllegalArgumentException`, C returns NULL, and both are `null` here.
 */
module Initializers {
  import opened Graphs
  import opened Partitions
  import opened PartitionUtils
  import opened Rebalance

  /**
   * The number of vertices part `p` receives when n vertices are dealt to k
   * parts as evenly as possible: n/k, plus one for the first n%k parts.
   */
  function BlockSize(n: int, k: int, p: int): (r: int)
    requires n >= 0 && k > 0 && 0 <= p
    ensures 0 <= n / k <= r <= n / k + 1
    ensures n % k == 0 ==> r == n / k
  {
    n / k + (if p < n % k then 1 else 0)
  }

  /** Dealing one more vertex, number n, to part n % k grows that part's block by one and no other. */
  lemma {:induction false} BlockSizeStep(n: int, k: int, p: int)
    requires n >= 0 && k > 0 && 0 <= p < k
    ensures BlockSize(n + 1, k, p) == BlockSize(n, k, p) + (if p == n % k then 1 else 0)
  {
    var q, r := n / k, n % k;
    assert n == k * q + r;
    if r + 1 < k {
      assert n + 1 == k * q + (r + 1);
      DivModUnique(n + 1, k, q, r + 1);
    } else {
      assert n + 1 == k * (q + 1) + 0;
      DivModUnique(n + 1, k, q + 1, 0);
    }
  }

  /** First vertex of part `p` in the sequential layout: the blocks of the parts before it, laid end to end. */
  function Start(n: int, k: int, p: nat): (s: int)
    requires n >= 0 && k > 0
    ensures s >= 0
  {
    if p == 0 then 0 else Start(n, k, p - 1) + BlockSize(n, k, p - 1)
  }

  /** Closed form of the block starts: p blocks of n/k, plus one extra vertex for each of the first n%k parts. */
  lemma {:induction false} StartClosedForm(n: int, k: int, p: nat)
    requires n >= 0 && k > 0
    ensures Start(n, k, p) == p * (n / k) + (if p < n % k then p else n % k)
  {
    if p > 0 {
      StartClosedForm(n, k, p - 1);
      assert p * (n / k) == (p - 1) * (n / k) + n / k;
    }
  }

  /** The k blocks together hold exactly the n vertices. */
  lemma {:induction false} BlocksCoverAll(n: int, k: int)
    requires n >= 0 && k > 0
    ensures Start(n, k, k) == n
  {
    StartClosedForm(n, k, k);
    assert n == k * (n / k) + n % k;
  }

  /** Later parts start no earlier. */
  lemma {:induction false} StartMonotone(n: int, k: int, p: nat, q: nat)
    requires n >= 0 && k > 0 && p <= q
    ensures Start(n, k, p) <= Start(n, k, q)
    decreases q - p
  {
    if p < q {
      StartMonotone(n, k, p, q - 1);
      assert Start(n, k, q) == Start(n, k, q - 1) + BlockSize(n, k, q - 1);
    }
  }

  /** Vertex v lies in the block of part p. */
  predicate InBlock(n: int, k: int, v: int, p: int)
    requires n >= 0 && k > 0
  {
    0 <= p < k && Start(n, k, p) <= v < Start(n, k, p + 1)
  }

  /** In the sequential layout the part ids never decrease along the vertex order. */
  lemma {:induction false} BlocksAreContiguous(n: int, k: int, a: seq<int>, u: int, v: int)
    requires n >= 0 && k > 0 && 0 <= u <= v < |a|
    requires InBlock(n, k, u, a[u]) && InBlock(n, k, v, a[v])
    ensures a[u] <= a[v]
  {
    if a[u] > a[v] {
      StartMonotone(n, k, a[v] + 1, a[u]);
    }
  }

  /** `a` is the sequential layout of n vertices over k parts: every vertex lies in its part's block. */
  predicate SequentialLayout(n: int, k: int, a: seq<int>)
    requires n >= 0 && k > 0
  {
    |a| == n && forall v :: 0 <= v < n ==> InBlock(n, k, v, a[v])
  }

  /** The blocks do not overlap, so there is only one sequential layout. */
  lemma {:induction false} SequentialLayoutUnique(n: int, k: int, a: seq<int>, b: seq<int>)
    requires n >= 0 && k > 0 && SequentialLayout(n, k, a) && SequentialLayout(n, k, b)
    ensures a == b
  {
    forall v | 0 <= v < n
      ensures a[v] == b[v]
    {
      assert InBlock(n, k, v, a[v]) && InBlock(n, k, v, b[v]);
      if a[v] < b[v] {
        StartMonotone(n, k, a[v] + 1, b[v]);
      } else if b[v] < a[v] {
        StartMonotone(n, k, b[v] + 1, a[v]);
      }
    }
  }

  /**
   * The shape the depth-first initialiser leaves: every vertex in one of
   * the k parts, the parts before `last` grown to n/k vertices each, the
   * parts after it empty, and `last` short of n/k unless it is the final
   * part (which takes every vertex the search did not reach).
   */
  ghost predicate GrownLayout(n: int, k: int, a: seq<int>, last: int)
    requires k > 0
  {
    && |a| == n && FullyAssigned(a, k) && 0 <= last < k
    && (forall p :: 0 <= p < k && p != last ==> Occurrences(a, p) == if p < last then n / k else 0)
    && (n / k > 0 && last < k - 1 ==> Occurrences(a, last) < n / k)
  }

  /**
   * `initializeModulo`: vertex i goes to part i % numParts, so part p holds
   * BlockSize(n, numParts, p) vertices; the cut is computed at the end.
   */
  method Modulo(g: Graph, numParts: int, marginPercent: int) returns (r: Partition?)
    requires Csr(g)
    ensures r == null <==> g.vertexCount <= 0 || numParts <= 0
    ensures r != null ==>
      && fresh(r) && fresh(r.assignments) && fresh(r.partSizes) && r.Valid()
      && r.partCount == numParts && r.marginPercent == marginPercent
      && r.assignments.Length == g.vertexCount
      && (forall v :: 0 <= v < g.vertexCount ==> r.assignments[v] == v % numParts)
      && (forall p :: 0 <= p < numParts ==> r.partSizes[p] == BlockSize(g.vertexCount, numParts, p))
      && r.cutEdges == CutEdges(g, r.assignments[..])
  {
    var n := g.vertexCount;
    if n <= 0 || numParts <= 0 {
      return null;
    }
    r := new Partition(numParts, n, marginPercent);
    var i := 0;
    while i < n
      invariant 0 <= i <= n
      invariant r.Valid() && r.partCount == numParts && r.assignments.Length == n
      invariant forall v :: 0 <= v < i ==> r.assignments[v] == v % numParts
      invariant forall v :: i <= v < n ==> r.assignments[v] == -1
      invariant forall p :: 0 <= p < numParts ==> r.partSizes[p] == BlockSize(i, numParts, p)
    {
      var ok := r.SetAssignment(i, i % numParts);
      forall p | 0 <= p < numParts
        ensures r.partSizes[p] == BlockSize(i + 1, numParts, p)
      {
        BlockSizeStep(i, numParts, p);
      }
      i := i + 1;
    }
    r.cutEdges := CutEdges(g, r.assignments[..]);
  }

  /** One part's block of the sequential layout: `count` vertices from `r.assignments` index `from`. */
  method FillBlock(r: Partition, n: int, p: int, from: int, count: int) returns (next: int)
    requires r.Valid() && r.assignments.Length == n && 0 <= p < r.partCount
    requires 0 <= from && 0 <= count && from + count <= n
    requires forall v :: from <= v < n ==> r.assignments[v] == -1
    modifies r.assignments, r.partSizes
    ensures r.Valid() && next == from + count
    ensures forall v :: 0 <= v < n ==> r.assignments[v] == if from <= v < next then p else old(r.assignments[v])
    ensures forall q :: 0 <= q < r.partCount ==> r.partSizes[q] == old(r.partSizes[q]) + (if q == p then count else 0)
  {
    next := from;
    var i := 0;
    while i < count && next < n
      invariant 0 <= i <= count && next == from + i
      invariant r.Valid()
      invariant forall v :: 0 <= v < n ==> r.assignments[v] == if from <= v < next then p else old(r.assignments[v])
      invariant forall q :: 0 <= q < r.partCount ==> r.partSizes[q] == old(r.partSizes[q]) + (if q == p then i else 0)
    {
      var ok := r.SetAssignment(next, p);
      next := next + 1;
      i := i + 1;
    }
  }

  /** Part p's block in the Java layout, placed right after the blocks of the parts before it. */
  method FillNextBlock(r: Partition, n: int, p: int, index: int, size: int) returns (next: int)
    requires r.Valid() && r.assignments.Length == n && 0 <= p < r.partCount && n >= 0
    requires index == Start(n, r.partCount, p) && index <= n && size == BlockSize(n, r.partCount, p)
    requires forall v :: 0 <= v < index ==> InBlock(n, r.partCount, v, r.assignments[v])
    requires forall v :: index <= v < n ==> r.assignments[v] == -1
    requires forall q :: 0 <= q < r.partCount ==> r.partSizes[q] == if q < p then BlockSize(n, r.partCount, q) else 0
    modifies r.assignments, r.partSizes
    ensures r.Valid() && next == Start(n, r.partCount, p + 1) && next <= n
    ensures forall v :: 0 <= v < next ==> InBlock(n, r.partCount, v, r.assignments[v])
    ensures forall v :: next <= v < n ==> r.assignments[v] == -1
    ensures forall q :: 0 <= q < r.partCount ==> r.partSizes[q] == if q <= p then BlockSize(n, r.partCount, q) else 0
  {
    StartMonotone(n, r.partCount, p + 1, r.partCount);
    BlocksCoverAll(n, r.partCount);
    next := FillBlock(r, n, p, index, size);
    forall v | 0 <= v < next
      ensures InBlock(n, r.partCount, v, r.assignments[v])
    {
      if v >= index {
        assert r.assignments[v] == p;
      }
    }
  }

  /**
   * `initializeSequential`: part p receives the BlockSize(n, numParts, p)
   * vertices from Start(n, numParts, p) on, so every vertex lies in its
   * part's block.
   */
  method Sequential(g: Graph, numParts: int, marginPercent: int) returns (r: Partition?)
    requires Csr(g)
    ensures r == null <==> g.vertexCount <= 0 || numParts <= 0
    ensures r != null ==>
      && fresh(r) && fresh(r.assignments) && fresh(r.partSizes) && r.Valid()
      && r.partCount == numParts && r.marginPercent == marginPercent
      && r.assignments.Length == g.vertexCount
      && (forall v :: 0 <= v < g.vertexCount ==> InBlock(g.vertexCount, numParts, v, r.assignments[v]))
      && (forall p :: 0 <= p < numParts ==> r.partSizes[p] == BlockSize(g.vertexCount, numParts, p))
      && r.cutEdges == CutEdges(g, r.assignments[..])
  {
    var n := g.vertexCount;
    if n <= 0 || numParts <= 0 {
      return null;
    }
    r := new Partition(numParts, n, marginPercent);
    var verticesPerPart := n / numParts;
    var remainder := n % numParts;
    var vertexIndex := 0;
    var p := 0;
    while p < numParts
      invariant 0 <= p <= numParts && vertexIndex == Start(n, numParts, p) && vertexIndex <= n
      invariant r.Valid() && r.partCount == numParts && r.assignments.Length == n
      invariant forall v :: 0 <= v < vertexIndex ==> InBlock(n, numParts, v, r.assignments[v])
      invariant forall v :: vertexIndex <= v < n ==> r.assignments[v] == -1
      invariant forall q :: 0 <= q < numParts ==> r.partSizes[q] == if q < p then BlockSize(n, numParts, q) else 0
    {
      var partSize := verticesPerPart + (if p < remainder then 1 else 0);
      vertexIndex := FillNextBlock(r, n, p, vertexIndex, partSize);
      p := p + 1;
    }
    BlocksCoverAll(n, numParts);
    r.cutEdges := CutEdges(g, r.assignments[..]);
  }

  /**
   * `initializeRandom`: every vertex gets an arbitrary part in
   * 0 .. numParts-1 (`Random.nextInt`), then the partition is rebalanced,
   * which also computes the cut. With a single part the rebalancer returns
   * at once and the cut stays 0, which is then the true cut.
   */
  method RandomStart(g: Graph, numParts: int, marginPercent: int) returns (r: Partition?, ghost rounds: nat)
    requires Csr(g)
    ensures r == null <==> g.vertexCount <= 0 || numParts <= 0
    ensures r != null ==>
      && fresh(r) && fresh(r.assignments) && fresh(r.partSizes) && r.Valid()
      && r.partCount == numParts && r.marginPercent == marginPercent
      && r.assignments.Length == g.vertexCount
      && FullyAssigned(r.assignments[..], numParts)
      && rounds <= g.vertexCount / 2
      && (numParts > 1 && rounds < g.vertexCount / 2 ==>
            Settled(r.partSizes[..], AveragePartSize(g.vertexCount, numParts),
                    MaxImbalance(g.vertexCount, numParts, marginPercent)))
      && r.cutEdges == CutEdges(g, r.assignments[..])
  {
    var n := g.vertexCount;
    rounds := 0;
    if n <= 0 || numParts <= 0 {
      return null, rounds;
    }
    r := new Partition(numParts, n, marginPercent);
    var i := 0;
    while i < n
      invariant 0 <= i <= n
      invariant r.Valid() && r.partCount == numParts && r.assignments.Length == n
      invariant forall v :: 0 <= v < i ==> 0 <= r.assignments[v] < numParts
      invariant r.cutEdges == 0
    {
      var partId :| 0 <= partId < numParts;
      var ok := r.SetAssignment(i, partId);
      i := i + 1;
    }
    assert FullyAssigned(r.assignments[..], numParts);
    rounds := Balance(g, r);
    if numParts == 1 {
      assert forall v :: 0 <= v < n ==> Part(r.assignments[..], v) == 0;
      SinglePartHasNoCut(g, r.assignments[..]);
    }
  }

  /**
   * The depth-first growth from `start` inside `initializeDFS`: pop a vertex,
   * and if it is unvisited, mark it, put it in `part` and push its unvisited
   * neighbours; stop when the stack is empty or the part has `target`
   * vertices. Returns the new size of the part.
   */
  method Grow(g: Graph, r: Partition, visited: array<bool>, start: int, part: int, size0: int, target: int)
    returns (size: int)
    requires Csr(g) && EntriesInRange(g)
    requires r.Valid() && r.assignments.Length == g.vertexCount == visited.Length
    requires 0 <= part < r.partCount && 0 <= size0 <= target
    requires 0 <= start < g.vertexCount && !visited[start]
    requires forall u :: 0 <= u < g.vertexCount && !visited[u] ==> r.assignments[u] == -1
    modifies r.assignments, r.partSizes, visited
    ensures r.Valid() && size0 <= size <= target
    ensures size0 < target ==> visited[start]
    ensures forall u :: 0 <= u < g.vertexCount && old(visited[u]) ==> visited[u] && r.assignments[u] == old(r.assignments[u])
    ensures forall u :: 0 <= u < g.vertexCount && !old(visited[u]) ==>
      r.assignments[u] == if visited[u] then part else -1
    ensures forall q :: 0 <= q < r.partCount ==> r.partSizes[q] == old(r.partSizes[q]) + (if q == part then size - size0 else 0)
  {
    var n := g.vertexCount;
    var stack := [start];
    size := size0;
    while stack != [] && size < target
      invariant size0 <= size <= target
      invariant forall i :: 0 <= i < |stack| ==> 0 <= stack[i] < n
      invariant visited[start] || (stack == [start] && size == size0)
      invariant r.Valid()
      invariant forall u :: 0 <= u < n && old(visited[u]) ==> visited[u] && r.assignments[u] == old(r.assignments[u])
      invariant forall u :: 0 <= u < n && !old(visited[u]) ==> r.assignments[u] == if visited[u] then part else -1
      invariant forall q :: 0 <= q < r.partCount ==> r.partSizes[q] == old(r.partSizes[q]) + (if q == part then size - size0 else 0)
      decreases target - size, |stack|
    {
      var v := stack[|stack| - 1];
      stack := stack[..|stack| - 1];
      if !visited[v] {
        visited[v] := true;
        var ok := r.SetAssignment(v, part);
        size := size + 1;
        stack := PushUnvisited(g, visited, v, stack);
      }
    }
  }

  /** Push, in storage order, every neighbour of `v` not yet visited. */
  method PushUnvisited(g: Graph, visited: array<bool>, v: int, stack: seq<int>) returns (stack': seq<int>)
    requires Csr(g) && EntriesInRange(g) && visited.Length == g.vertexCount && 0 <= v < g.vertexCount
    requires forall i :: 0 <= i < |stack| ==> 0 <= stack[i] < g.vertexCount
    ensures forall i :: 0 <= i < |stack'| ==> 0 <= stack'[i] < g.vertexCount
    ensures |stack| <= |stack'| && stack'[..|stack|] == stack
    ensures forall i :: |stack| <= i < |stack'| ==> stack'[i] in Neighbors(g, v) && !visited[stack'[i]]
  {
    var ns := Neighbors(g, v);
    stack' := stack;
    var j := 0;
    while j < |ns|
      invariant 0 <= j <= |ns|
      invariant forall i :: 0 <= i < |stack'| ==> 0 <= stack'[i] < g.vertexCount
      invariant |stack| <= |stack'| && stack'[..|stack|] == stack
      invariant forall i :: |stack| <= i < |stack'| ==> stack'[i] in ns && !visited[stack'[i]]
    {
      assert g.rowPointers[v] + j < g.rowPointers[v + 1] <= |g.adjacencyList|;
      if !visited[ns[j]] {
        stack' := stack' + [ns[j]];
      }
      j := j + 1;
    }
  }

  /** The last loop of `initializeDFS`: every vertex still unvisited joins `part`. */
  method AssignRest(r: Partition, visited: array<bool>, part: int) returns (ghost added: int)
    requires r.Valid() && r.assignments.Length == visited.Length && 0 <= part < r.partCount
    requires forall u :: 0 <= u < visited.Length ==> if visited[u] then 0 <= r.assignments[u] < r.partCount else r.assignments[u] == -1
    modifies r.assignments, r.partSizes
    ensures r.Valid() && FullyAssigned(r.assignments[..], r.partCount)
    ensures forall u :: 0 <= u < visited.Length ==> r.assignments[u] == if visited[u] then old(r.assignments[u]) else part
    ensures added >= 0 && (added == 0 <== forall u :: 0 <= u < visited.Length ==> visited[u])
    ensures forall q :: 0 <= q < r.partCount ==> r.partSizes[q] == old(r.partSizes[q]) + (if q == part then added else 0)
  {
    added := 0;
    var v := 0;
    while v < visited.Length
      invariant 0 <= v <= visited.Length && added >= 0
      invariant (forall u :: 0 <= u < v ==> visited[u]) ==> added == 0
      invariant r.Valid()
      invariant forall u :: 0 <= u < visited.Length ==>
        r.assignments[u] == if visited[u] || u >= v then old(r.assignments[u]) else part
      invariant forall q :: 0 <= q < r.partCount ==> r.partSizes[q] == old(r.partSizes[q]) + (if q == part then added else 0)
    {
      if !visited[v] {
        var ok := r.SetAssignment(v, part);
        added := added + 1;
      }
      v := v + 1;
    }
  }

  /**
   * `initializeDFS`: parts are grown one after another by depth-first search
   * from the lowest unvisited vertex, each up to `n / numParts` vertices;
   * the part in use when the scan ends (`last`) also receives every vertex
   * never reached. So each earlier part holds exactly n / numParts
   * vertices, each later part none, and when growth stopped before the
   * final part, the last one holds fewer than n / numParts.
   */
  method Dfs(g: Graph, numParts: int, marginPercent: int) returns (r: Partition?, ghost last: int)
    requires Csr(g) && EntriesInRange(g)
    ensures r == null <==> g.vertexCount <= 0 || numParts <= 0
    ensures r != null ==>
      && fresh(r) && fresh(r.assignments) && fresh(r.partSizes) && r.Valid()
      && r.partCount == numParts && r.marginPercent == marginPercent
      && r.assignments.Length == g.vertexCount
      && FullyAssigned(r.assignments[..], numParts)
      && 0 <= last < numParts
      && (forall p :: 0 <= p < numParts && p != last ==>
            r.partSizes[p] == if p < last then g.vertexCount / numParts else 0)
      && (g.vertexCount / numParts > 0 && last < numParts - 1 ==> r.partSizes[last] < g.vertexCount / numParts)
      && r.cutEdges == CutEdges(g, r.assignments[..])
  {
    var n := g.vertexCount;
    last := 0;
    if n <= 0 || numParts <= 0 {
      return null, last;
    }
    r := new Partition(numParts, n, marginPercent);
    var visited := new bool[n](_ => false);
    var targetSizePerPart := n / numParts;
    var currentPart := 0;
    var currentPartSize := 0;
    var start := 0;
    while start < n && currentPart < numParts
      invariant 0 <= start <= n && 0 <= currentPart < numParts && 0 <= currentPartSize <= targetSizePerPart
      invariant r.Valid() && r.partCount == numParts && r.assignments.Length == n
      invariant forall u :: 0 <= u < n ==>
        if visited[u] then 0 <= r.assignments[u] <= currentPart else r.assignments[u] == -1
      invariant forall p :: 0 <= p < numParts ==>
        r.partSizes[p] == if p < currentPart then targetSizePerPart else if p == currentPart then currentPartSize else 0
      invariant targetSizePerPart > 0 && currentPart < numParts - 1 ==>
        currentPartSize < targetSizePerPart && forall u :: 0 <= u < start ==> visited[u]
    {
      if !visited[start] {
        currentPartSize := Grow(g, r, visited, start, currentPart, currentPartSize, targetSizePerPart);
        if currentPartSize >= targetSizePerPart && currentPart < numParts - 1 {
          currentPart := currentPart + 1;
          currentPartSize := 0;
        }
      }
      start := start + 1;
    }
    last := currentPart;
    var added := AssignRest(r, visited, currentPart);
    r.cutEdges := CutEdges(g, r.assignments[..]);
  }

  // ---------------------------------------------------------------------
  // The C initialisers of podzial.c: they fill a malloc'd assignment array
  // and a calloc'd (zeroed) size array directly, one vertex at a time.
  // ---------------------------------------------------------------------

  /** `przypisania[i] = czesc; rozmiary_czesci[czesc]++`: the sizes keep counting the filled prefix. */
  method Place(a: array<int>, sizes: array<int>, i: int, p: int)
    requires a != sizes && 0 <= i < a.Length && 0 <= p < sizes.Length
    requires forall q :: 0 <= q < sizes.Length ==> sizes[q] == Occurrences(a[..i], q)
    modifies a, sizes
    ensures a[..] == old(a[..])[i := p]
    ensures forall q :: 0 <= q < sizes.Length ==> sizes[q] == Occurrences(a[..i + 1], q)
    ensures forall q :: 0 <= q < sizes.Length ==> sizes[q] == old(sizes[q]) + (if q == p then 1 else 0)
  {
    ghost var prefix := a[..i];
    a[i] := p;
    sizes[p] := sizes[p] + 1;
    assert a[..i + 1] == prefix + [p];
    forall q | 0 <= q < sizes.Length
      ensures sizes[q] == Occurrences(a[..i + 1], q)
    {
      OccurrencesAppend(prefix, p, q);
    }
  }

  /** The zeroed size array of `calloc`, which counts the empty prefix. */
  method ZeroSizes(a: array<int>, k: int) returns (sizes: array<int>)
    requires k > 0
    ensures fresh(sizes) && sizes.Length == k
    ensures forall q :: 0 <= q < k ==> sizes[q] == 0 == Occurrences(a[..0], q)
  {
    sizes := new int[k](_ => 0);
  }

  /** The filled arrays become a partition; the cut field is written separately. */
  method Wrap(a: array<int>, sizes: array<int>, k: int, cut: int, margin: int) returns (r: Partition)
    requires a != sizes && sizes.Length == k
    requires forall q :: 0 <= q < k ==> sizes[q] == Occurrences(a[..a.Length], q)
    ensures r.Valid() && r.assignments == a && r.partSizes == sizes
    ensures r.partCount == k && r.cutEdges == cut && r.marginPercent == margin
    ensures fresh(r)
  {
    assert a[..a.Length] == a[..];
    r := new Partition.Of(a, sizes, k, cut, margin);
  }

  /** `inicjalizuj_podzial_modulo`: NULL for invalid counts, otherwise the layout of `Modulo`. */
  method ModuloC(g: Graph, k: int, margin: int) returns (r: Partition?)
    requires Csr(g)
    ensures r == null <==> g.vertexCount <= 0 || k <= 0
    ensures r != null ==>
      && fresh(r) && fresh(r.assignments) && fresh(r.partSizes) && r.Valid()
      && r.partCount == k && r.marginPercent == margin
      && r.assignments.Length == g.vertexCount
      && (forall v :: 0 <= v < g.vertexCount ==> r.assignments[v] == v % k)
      && (forall p :: 0 <= p < k ==> r.partSizes[p] == BlockSize(g.vertexCount, k, p))
      && r.cutEdges == CutEdges(g, r.assignments[..])
  {
    var n := g.vertexCount;
    if n <= 0 || k <= 0 {
      return null;
    }
    var a := new int[n];
    var sizes := ZeroSizes(a, k);
    var i := 0;
    while i < n
      invariant 0 <= i <= n
      invariant forall v :: 0 <= v < i ==> a[v] == v % k
      invariant forall q :: 0 <= q < k ==> sizes[q] == Occurrences(a[..i], q) == BlockSize(i, k, q)
    {
      Place(a, sizes, i, i % k);
      forall q | 0 <= q < k
        ensures sizes[q] == BlockSize(i + 1, k, q)
      {
        BlockSizeStep(i, k, q);
      }
      i := i + 1;
    }
    r := Wrap(a, sizes, k, 0, margin);
    r.cutEdges := CutEdges(g, a[..]);
  }

  /** One block of `inicjalizuj_podzial_sekwencyjny`: `count` vertices from index `from` go to part p. */
  method PlaceBlock(a: array<int>, sizes: array<int>, p: int, from: int, count: int) returns (next: int)
    requires a != sizes && 0 <= p < sizes.Length
    requires 0 <= from && 0 <= count && from + count <= a.Length
    requires forall q :: 0 <= q < sizes.Length ==> sizes[q] == Occurrences(a[..from], q)
    modifies a, sizes
    ensures next == from + count
    ensures forall q :: 0 <= q < sizes.Length ==> sizes[q] == Occurrences(a[..next], q)
    ensures forall q :: 0 <= q < sizes.Length ==> sizes[q] == old(sizes[q]) + (if q == p then count else 0)
    ensures forall v :: 0 <= v < a.Length ==> a[v] == if from <= v < next then p else old(a[v])
  {
    next := from;
    var i := 0;
    while i < count && next < a.Length
      invariant 0 <= i <= count && next == from + i
      invariant forall q :: 0 <= q < sizes.Length ==> sizes[q] == Occurrences(a[..next], q)
      invariant forall q :: 0 <= q < sizes.Length ==> sizes[q] == old(sizes[q]) + (if q == p then i else 0)
      invariant forall v :: 0 <= v < a.Length ==> a[v] == if from <= v < next then p else old(a[v])
    {
      Place(a, sizes, next, p);
      next := next + 1;
      i := i + 1;
    }
  }

  /** Part p's block in the C layout, placed right after the blocks of the parts before it. */
  method PlaceNextBlock(a: array<int>, sizes: array<int>, n: int, k: int, p: int, index: int, size: int)
    returns (next: int)
    requires a != sizes && a.Length == n && sizes.Length == k && 0 <= p < k && n >= 0
    requires index == Start(n, k, p) && index <= n && size == BlockSize(n, k, p)
    requires forall v :: 0 <= v < index ==> InBlock(n, k, v, a[v])
    requires forall q :: 0 <= q < k ==> sizes[q] == Occurrences(a[..index], q)
    requires forall q :: 0 <= q < k ==> sizes[q] == if q < p then BlockSize(n, k, q) else 0
    modifies a, sizes
    ensures next == Start(n, k, p + 1) && next <= n
    ensures forall v :: 0 <= v < next ==> InBlock(n, k, v, a[v])
    ensures forall q :: 0 <= q < k ==> sizes[q] == Occurrences(a[..next], q)
    ensures forall q :: 0 <= q < k ==> sizes[q] == if q <= p then BlockSize(n, k, q) else 0
  {
    StartMonotone(n, k, p + 1, k);
    BlocksCoverAll(n, k);
    next := PlaceBlock(a, sizes, p, index, size);
    forall v | 0 <= v < next
      ensures InBlock(n, k, v, a[v])
    {
      if v >= index {
        assert a[v] == p;
      }
    }
  }

  /** `inicjalizuj_podzial_sekwencyjny`: NULL for invalid counts, otherwise the layout of `Sequential`. */
  method SequentialC(g: Graph, k: int, margin: int) returns (r: Partition?)
    requires Csr(g)
    ensures r == null <==> g.vertexCount <= 0 || k <= 0
    ensures r != null ==>
      && fresh(r) && fresh(r.assignments) && fresh(r.partSizes) && r.Valid()
      && r.partCount == k && r.marginPercent == margin
      && r.assignments.Length == g.vertexCount
      && (forall v :: 0 <= v < g.vertexCount ==> InBlock(g.vertexCount, k, v, r.assignments[v]))
      && (forall p :: 0 <= p < k ==> r.partSizes[p] == BlockSize(g.vertexCount, k, p))
      && r.cutEdges == CutEdges(g, r.assignments[..])
  {
    var n := g.vertexCount;
    if n <= 0 || k <= 0 {
      return null;
    }
    var a := new int[n];
    var sizes := ZeroSizes(a, k);
    var perPart, extra := n / k, n % k;
    var index := 0;
    var p := 0;
    while p < k
      invariant 0 <= p <= k && index == Start(n, k, p) && index <= n
      invariant forall v :: 0 <= v < index ==> InBlock(n, k, v, a[v])
      invariant forall q :: 0 <= q < k ==> sizes[q] == Occurrences(a[..index], q)
      invariant forall q :: 0 <= q < k ==> sizes[q] == if q < p then BlockSize(n, k, q) else 0
    {
      var size := perPart + (if p < extra then 1 else 0);
      index := PlaceNextBlock(a, sizes, n, k, p, index, size);
      p := p + 1;
    }
    BlocksCoverAll(n, k);
    r := Wrap(a, sizes, k, 0, margin);
    r.cutEdges := CutEdges(g, a[..]);
  }

  /**
   * `inicjalizuj_podzial_losowy` as written: random parts, then
   * `zbalansuj_losowy_podzial`. The struct comes from `malloc` and its cut
   * field is written only by the rebalancer, which returns at once for a
   * single part; `staleCut` is whatever that field held. So with one part
   * the cached cut is right only when that leftover value happens to be 0.
   */
  method RandomStartC(g: Graph, k: int, margin: int, staleCut: int) returns (r: Partition?, ghost rounds: nat)
    requires Csr(g)
    ensures r == null <==> g.vertexCount <= 0 || k <= 0
    ensures r != null ==>
      && fresh(r) && fresh(r.assignments) && fresh(r.partSizes) && r.Valid()
      && r.partCount == k && r.marginPercent == margin
      && r.assignments.Length == g.vertexCount
      && FullyAssigned(r.assignments[..], k)
      && rounds <= g.vertexCount / 2
      && (k > 1 && rounds < g.vertexCount / 2 ==>
            Settled(r.partSizes[..], AveragePartSize(g.vertexCount, k), MaxImbalance(g.vertexCount, k, margin)))
      && (k > 1 ==> r.cutEdges == CutEdges(g, r.assignments[..]))
      && (k == 1 ==> r.cutEdges == staleCut && (r.cutEdges == CutEdges(g, r.assignments[..]) <==> staleCut == 0))
  {
    var n := g.vertexCount;
    rounds := 0;
    if n <= 0 || k <= 0 {
      return null, rounds;
    }
    var a := new int[n];
    var sizes := ZeroSizes(a, k);
    var i := 0;
    while i < n
      invariant 0 <= i <= n
      invariant forall v :: 0 <= v < i ==> 0 <= a[v] < k
      invariant forall q :: 0 <= q < k ==> sizes[q] == Occurrences(a[..i], q)
    {
      var part :| 0 <= part < k;
      Place(a, sizes, i, part);
      i := i + 1;
    }
    r := Wrap(a, sizes, k, staleCut, margin);
    assert FullyAssigned(r.assignments[..], k);
    rounds := Balance(g, r);
    if k == 1 {
      assert forall v :: 0 <= v < n ==> Part(r.assignments[..], v) == 0;
      SinglePartHasNoCut(g, r.assignments[..]);
    }
  }

  /**
   * The evidently intended `inicjalizuj_podzial_losowy`: the cut field
   * starts at 0 (as `calloc` or the Java constructor would leave it), and
   * the cached cut is then the true cut for every part count.
   */
  method RandomStartCFixed(g: Graph, k: int, margin: int) returns (r: Partition?, ghost rounds: nat)
    requires Csr(g)
    ensures r == null <==> g.vertexCount <= 0 || k <= 0
    ensures r != null ==>
      && fresh(r) && fresh(r.assignments) && fresh(r.partSizes) && r.Valid()
      && r.partCount == k && r.marginPercent == margin
      && r.assignments.Length == g.vertexCount
      && FullyAssigned(r.assignments[..], k)
      && rounds <= g.vertexCount / 2
      && (k > 1 && rounds < g.vertexCount / 2 ==>
            Settled(r.partSizes[..], AveragePartSize(g.vertexCount, k), MaxImbalance(g.vertexCount, k, margin)))
      && r.cutEdges == CutEdges(g, r.assignments[..])
  {
    r, rounds := RandomStartC(g, k, margin, 0);
  }
}
