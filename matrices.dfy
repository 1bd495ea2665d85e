/** The matrix layer of ml.h (and its duplicate in neun.h): a Mat is a rows × cols window,
    with row pitch `stride`, onto a flat buffer of reals that starts at `off`. Views made by
    MatRow share the owner's buffer, so writes through a view are writes to the owner. */
module Matrices {
  import opened Linear
  import opened Errors

  datatype Mat = Mat(rows: nat, cols: nat, stride: nat, es: array<real>, off: nat)

  /** Where element (i, j) lives in the buffer (the MAT_AT macro). */
  function Idx(m: Mat, i: nat, j: nat): nat
  {
    m.off + i * m.stride + j
  }

  /** n rows of pitch s take n*s cells; written as a sum so that shape facts stay linear. */
  function Span(n: nat, s: nat): nat
  {
    if n == 0 then 0 else Span(n - 1, s) + s
  }

  lemma {:induction false} SpanIsProduct(n: nat, s: nat)
    ensures Span(n, s) == n * s
  {
    if n > 0 {
      SpanIsProduct(n - 1, s);
      assert n * s == (n - 1) * s + s;
    }
  }

  /** The window fits in the buffer and rows do not overlap. */
  predicate Valid(m: Mat)
  {
    m.cols <= m.stride &&
    (m.rows == 0 || m.off + Span(m.rows - 1, m.stride) + m.cols <= m.es.Length)
  }

  /** A matrix as mat_alloc makes it: its window is the whole buffer, packed row after row. */
  predicate Packed(m: Mat)
  {
    m.off == 0 && m.stride == m.cols && m.es.Length == Span(m.rows, m.cols)
  }

  lemma MulMono(a: nat, b: nat, c: nat)
    requires a <= b
    ensures a * c <= b * c
  {
    assert b * c - a * c == (b - a) * c;
  }

  lemma PackedIsValid(m: Mat)
    requires Packed(m)
    ensures Valid(m)
  {
    if m.rows > 0 {
      assert Span(m.rows, m.cols) == Span(m.rows - 1, m.cols) + m.cols;
    }
  }

  /** Every element of the window addresses a cell of the buffer (MAT_AT stays in bounds). */
  lemma CellInBounds(m: Mat, i: nat, j: nat)
    requires Valid(m) && i < m.rows && j < m.cols
    ensures Idx(m, i, j) < m.es.Length
  {
    MulMono(i, m.rows - 1, m.stride);
    SpanIsProduct(m.rows - 1, m.stride);
  }

  lemma MulAtLeast(a: int, s: int)
    requires a >= 1 && s > 0
    ensures a * s >= s
  {
    var t := a - 1;
    assert a * s == t * s + s;
    assert t * s >= 0;
  }

  /** Euclidean division has exactly one quotient and remainder. */
  lemma DivModUnique(n: int, s: int, q: int, r: int)
    requires s > 0 && 0 <= r < s && n == q * s + r
    ensures n / s == q && n % s == r
  {
    var q', r' := n / s, n % s;
    assert (q' - q) * s == r - r';
    if q' > q {
      MulAtLeast(q' - q, s);
    } else if q' < q {
      MulAtLeast(q - q', s);
    }
  }

  /** The row and the column of the window that buffer cell k belongs to. */
  function RowOf(m: Mat, k: int): int
    requires m.stride > 0
  {
    (k - m.off) / m.stride
  }

  function ColOf(m: Mat, k: int): int
    requires m.stride > 0
  {
    (k - m.off) % m.stride
  }

  /** Buffer cell k is an element of the window (and not stride padding or another
      matrix's cell). */
  ghost predicate InWindow(m: Mat, k: int)
  {
    m.off <= k && m.stride > 0 && RowOf(m, k) < m.rows && ColOf(m, k) < m.cols
  }

  /** Element (i, j) lives in the buffer, inside the window, and no other element shares
      its cell: the cell determines the row and the column. */
  lemma Cell(m: Mat, i: nat, j: nat)
    requires Valid(m) && i < m.rows && j < m.cols
    ensures Idx(m, i, j) < m.es.Length && InWindow(m, Idx(m, i, j))
    ensures RowOf(m, Idx(m, i, j)) == i && ColOf(m, Idx(m, i, j)) == j
  {
    CellInBounds(m, i, j);
    DivModUnique(i * m.stride + j, m.stride, i, j);
  }

  /** Distinct elements of the window address distinct cells. */
  lemma CellInjective(m: Mat, i: nat, j: nat, i': nat, j': nat)
    requires Valid(m) && i < m.rows && j < m.cols && i' < m.rows && j' < m.cols
    requires Idx(m, i, j) == Idx(m, i', j')
    ensures i == i' && j == j'
  {
    Cell(m, i, j);
    Cell(m, i', j');
  }

  /** CellInBounds for the whole window at once. */
  lemma CellsInBounds(m: Mat)
    requires Valid(m)
    ensures forall i, j :: 0 <= i < m.rows && 0 <= j < m.cols ==> Idx(m, i, j) < m.es.Length
  {
    forall i, j | 0 <= i < m.rows && 0 <= j < m.cols ensures Idx(m, i, j) < m.es.Length {
      CellInBounds(m, i, j);
    }
  }

  /** Cell for the whole window at once. */
  lemma Cells(m: Mat)
    requires Valid(m)
    ensures forall i, j :: 0 <= i < m.rows && 0 <= j < m.cols ==>
      Idx(m, i, j) < m.es.Length && InWindow(m, Idx(m, i, j)) &&
      RowOf(m, Idx(m, i, j)) == i && ColOf(m, Idx(m, i, j)) == j
  {
    forall i, j | 0 <= i < m.rows && 0 <= j < m.cols
      ensures Idx(m, i, j) < m.es.Length && InWindow(m, Idx(m, i, j))
      ensures RowOf(m, Idx(m, i, j)) == i && ColOf(m, Idx(m, i, j)) == j
    {
      Cell(m, i, j);
    }
  }

  /** Element (i, j). */
  function At(m: Mat, i: nat, j: nat): real
    reads m.es
    requires Valid(m) && i < m.rows && j < m.cols
  {
    CellInBounds(m, i, j);
    m.es[Idx(m, i, j)]
  }

  /** The window's contents as a value. */
  function Value(m: Mat): (v: Matrix)
    reads m.es
    requires Valid(m)
    ensures IsShape(v, m.rows, m.cols)
    ensures forall i, j :: 0 <= i < m.rows && 0 <= j < m.cols ==> v[i][j] == At(m, i, j)
  {
    seq(m.rows, i requires 0 <= i < m.rows reads m.es =>
      seq(m.cols, j requires 0 <= j < m.cols reads m.es => At(m, i, j)))
  }

  /** Cell (i, j) grows by d, as MAT_AT(m, i, j) += d does. */
  method AddAt(m: Mat, i: nat, j: nat, d: real)
    requires Valid(m) && i < m.rows && j < m.cols
    modifies m.es
    ensures Value(m) == old(Value(m))[i := old(Value(m))[i][j := old(Value(m))[i][j] + d]]
    ensures forall k :: 0 <= k < m.es.Length && !InWindow(m, k) ==> m.es[k] == old(m.es[k])
  {
    var c := At(m, i, j);
    SetAt(m, i, j, c + d);
  }

  /** MAT_AT(m, i, j) = v: element (i, j) becomes v and every other element keeps its value. */
  method SetAt(m: Mat, i: nat, j: nat, v: real)
    requires Valid(m) && i < m.rows && j < m.cols
    modifies m.es
    ensures Value(m) == old(Value(m))[i := old(Value(m))[i][j := v]]
    ensures forall k :: 0 <= k < m.es.Length && !InWindow(m, k) ==> m.es[k] == old(m.es[k])
  {
    ghost var before := Value(m);
    Cells(m);
    m.es[Idx(m, i, j)] := v;
    ghost var after := before[i := before[i][j := v]];
    forall i', j' | 0 <= i' < m.rows && 0 <= j' < m.cols ensures Value(m)[i'][j'] == after[i'][j'] {
    }
    assert forall i' :: 0 <= i' < m.rows ==> Value(m)[i'] == after[i'];
  }

  /** A window of ml_randf draws: each draw is in [0, 1]. */
  type Unit = r: real | 0.0 <= r <= 1.0

  /** x lies between low and high, in whichever order they come. */
  predicate Between(x: real, low: real, high: real)
  {
    (low <= x <= high) || (high <= x <= low)
  }

  // ---------------------------------------------------------------------------------------
  // Operations

  /** mat_alloc: a packed rows × cols matrix over a fresh buffer of rows*cols cells. */
  method MatAlloc(rows: nat, cols: nat) returns (m: Mat)
    ensures Valid(m) && Packed(m) && fresh(m.es)
    ensures m.rows == rows && m.cols == cols && m.stride == cols && m.off == 0
    ensures m.es.Length == rows * cols
  {
    var es := new real[rows * cols];
    m := Mat(rows, cols, cols, es, 0);
    SpanIsProduct(rows, cols);
    PackedIsValid(m);
  }

  lemma RowFits(m: Mat, row: nat)
    ensures Valid(m) && row < m.rows ==> m.off + row * m.stride + m.cols <= m.es.Length
  {
    if Valid(m) && row < m.rows {
      MulMono(row, m.rows - 1, m.stride);
      SpanIsProduct(m.rows - 1, m.stride);
    }
  }

  /** mat_row: a one-row view of row `row`, sharing m's buffer (no copy). */
  function MatRow(m: Mat, row: nat): (v: Mat)
    ensures v.es == m.es && v.rows == 1 && v.cols == m.cols && v.stride == m.stride
    ensures Valid(m) && row < m.rows ==> Valid(v)
  {
    RowFits(m, row);
    Mat(1, m.cols, m.stride, m.es, m.off + row * m.stride)
  }

  /** mat_fill: every element of the window becomes x; the rest of the buffer is untouched. */
  method MatFill(m: Mat, x: real)
    requires Valid(m)
    modifies m.es
    ensures forall i, j :: 0 <= i < m.rows && 0 <= j < m.cols ==> At(m, i, j) == x
    ensures forall k :: 0 <= k < m.es.Length && !InWindow(m, k) ==> m.es[k] == old(m.es[k])
  {
    Cells(m);
    for i := 0 to m.rows
      invariant forall i', j' :: 0 <= i' < i && 0 <= j' < m.cols ==> m.es[Idx(m, i', j')] == x
      invariant forall k :: 0 <= k < m.es.Length && !InWindow(m, k) ==> m.es[k] == old(m.es[k])
    {
      for j := 0 to m.cols
        invariant forall i', j' :: 0 <= i' < i && 0 <= j' < m.cols ==> m.es[Idx(m, i', j')] == x
        invariant forall j' :: 0 <= j' < j ==> m.es[Idx(m, i, j')] == x
        invariant forall k :: 0 <= k < m.es.Length && !InWindow(m, k) ==> m.es[k] == old(m.es[k])
      {
        m.es[Idx(m, i, j)] := x;
      }
    }
  }

  /** mat_rand: element (i, j) becomes draw number start + i*cols + j of the ml_randf stream,
      scaled into [low, high]; the call consumes rows*cols draws. */
  method MatRand(m: Mat, low: real, high: real, randf: nat -> Unit, start: nat) returns (next: nat)
    requires Valid(m)
    modifies m.es
    ensures next == start + m.rows * m.cols
    ensures forall i, j :: 0 <= i < m.rows && 0 <= j < m.cols ==>
      At(m, i, j) == Scale(randf(start + i * m.cols + j), low, high)
    ensures forall i, j :: 0 <= i < m.rows && 0 <= j < m.cols ==> Between(At(m, i, j), low, high)
    ensures forall k :: 0 <= k < m.es.Length && !InWindow(m, k) ==> m.es[k] == old(m.es[k])
  {
    Cells(m);
    next := start;
    for i := 0 to m.rows
      invariant next == start + i * m.cols
      invariant forall i', j' :: 0 <= i' < i && 0 <= j' < m.cols ==>
        m.es[Idx(m, i', j')] == Scale(randf(start + i' * m.cols + j'), low, high)
      invariant forall k :: 0 <= k < m.es.Length && !InWindow(m, k) ==> m.es[k] == old(m.es[k])
    {
      RandRow(m, i, low, high, randf, next);
      forall j | 0 <= j < m.cols
        ensures m.es[Idx(m, i, j)] == Scale(randf(start + i * m.cols + j), low, high)
      {
        assert At(m, i, j) == Scale(randf(next + j), low, high);
      }
      next := next + m.cols;
      assert (i + 1) * m.cols == i * m.cols + m.cols;
    }
    forall i, j | 0 <= i < m.rows && 0 <= j < m.cols ensures Between(At(m, i, j), low, high) {
      ScaledDrawBetween(randf(start + i * m.cols + j), low, high);
    }
  }

  /** One row of mat_rand: element (i, j) becomes the scaled draw number base + j. */
  method RandRow(m: Mat, i: nat, low: real, high: real, randf: nat -> Unit, base: nat)
    requires Valid(m) && i < m.rows
    modifies m.es
    ensures forall j :: 0 <= j < m.cols ==> At(m, i, j) == Scale(randf(base + j), low, high)
    ensures forall k :: 0 <= k < m.es.Length && !(InWindow(m, k) && RowOf(m, k) == i) ==>
      m.es[k] == old(m.es[k])
  {
    Cells(m);
    for j := 0 to m.cols
      invariant forall j' :: 0 <= j' < j ==> m.es[Idx(m, i, j')] == Scale(randf(base + j'), low, high)
      invariant forall k :: 0 <= k < m.es.Length && !(InWindow(m, k) && RowOf(m, k) == i) ==>
        m.es[k] == old(m.es[k])
    {
      m.es[Idx(m, i, j)] := Scale(randf(base + j), low, high);
    }
  }

  /** A draw scaled by (high - low) and shifted by low, as mat_rand does. */
  function Scale(r: real, low: real, high: real): real
  {
    r * (high - low) + low
  }

  /** A draw in [0, 1] scaled by (high - low) and shifted by low lies between low and high. */
  lemma ScaledDrawBetween(r: Unit, low: real, high: real)
    ensures Between(Scale(r, low, high), low, high)
  {
    var d := high - low;
    assert r * d + (1.0 - r) * d == d;
    if low <= high {
      assert 0.0 <= r * d && 0.0 <= (1.0 - r) * d;
    } else {
      assert r * d <= 0.0 && (1.0 - r) * d <= 0.0;
    }
  }

  /** mat_copy: with equal shapes every element of dst becomes the element of src; with
      unequal shapes the assertion fails and nothing is written. */
  method MatCopy(dst: Mat, src: Mat) returns (r: Outcome)
    requires Valid(dst) && Valid(src) && dst.es != src.es
    modifies dst.es
    ensures r == if dst.rows == src.rows && dst.cols == src.cols then Pass else Fail(ShapeMismatch)
    ensures r.Pass? ==> forall i, j :: 0 <= i < dst.rows && 0 <= j < dst.cols ==>
      At(dst, i, j) == At(src, i, j)
    ensures r.Fail? ==> unchanged(dst.es)
    ensures forall k :: 0 <= k < dst.es.Length && !InWindow(dst, k) ==> dst.es[k] == old(dst.es[k])
  {
    if !(dst.rows == src.rows && dst.cols == src.cols) {
      return Fail(ShapeMismatch);
    }
    Cells(dst);
    CellsInBounds(src);
    for i := 0 to dst.rows
      invariant forall i', j' :: 0 <= i' < i && 0 <= j' < dst.cols ==> dst.es[Idx(dst, i', j')] == src.es[Idx(src, i', j')]
      invariant forall k :: 0 <= k < dst.es.Length && !InWindow(dst, k) ==> dst.es[k] == old(dst.es[k])
    {
      for j := 0 to dst.cols
        invariant forall i', j' :: 0 <= i' < i && 0 <= j' < dst.cols ==> dst.es[Idx(dst, i', j')] == src.es[Idx(src, i', j')]
        invariant forall j' :: 0 <= j' < j ==> dst.es[Idx(dst, i, j')] == src.es[Idx(src, i, j')]
        invariant forall k :: 0 <= k < dst.es.Length && !InWindow(dst, k) ==> dst.es[k] == old(dst.es[k])
      {
        dst.es[Idx(dst, i, j)] := src.es[Idx(src, i, j)];
      }
    }
    r := Pass;
  }

  /** mat_sum: with equal shapes dst(i, j) becomes old dst(i, j) + a(i, j); a is only read. */
  method MatSum(dst: Mat, a: Mat) returns (r: Outcome)
    requires Valid(dst) && Valid(a) && dst.es != a.es
    modifies dst.es
    ensures r == if dst.rows == a.rows && dst.cols == a.cols then Pass else Fail(ShapeMismatch)
    ensures r.Pass? ==> forall i, j :: 0 <= i < dst.rows && 0 <= j < dst.cols ==>
      At(dst, i, j) == old(At(dst, i, j)) + At(a, i, j)
    ensures r.Fail? ==> unchanged(dst.es)
    ensures forall k :: 0 <= k < dst.es.Length && !InWindow(dst, k) ==> dst.es[k] == old(dst.es[k])
  {
    if !(dst.rows == a.rows && dst.cols == a.cols) {
      return Fail(ShapeMismatch);
    }
    Cells(dst);
    CellsInBounds(a);
    for i := 0 to dst.rows
      invariant forall i', j' :: 0 <= i' < i && 0 <= j' < dst.cols ==>
        dst.es[Idx(dst, i', j')] == old(dst.es[Idx(dst, i', j')]) + a.es[Idx(a, i', j')]
      invariant forall i', j' :: i <= i' < dst.rows && 0 <= j' < dst.cols ==>
        dst.es[Idx(dst, i', j')] == old(dst.es[Idx(dst, i', j')])
      invariant forall k :: 0 <= k < dst.es.Length && !InWindow(dst, k) ==> dst.es[k] == old(dst.es[k])
    {
      for j := 0 to dst.cols
        invariant forall i', j' :: 0 <= i' < i && 0 <= j' < dst.cols ==>
          dst.es[Idx(dst, i', j')] == old(dst.es[Idx(dst, i', j')]) + a.es[Idx(a, i', j')]
        invariant forall j' :: 0 <= j' < j ==> dst.es[Idx(dst, i, j')] == old(dst.es[Idx(dst, i, j')]) + a.es[Idx(a, i, j')]
        invariant forall i', j' :: (i < i' < dst.rows && 0 <= j' < dst.cols) || (i' == i && j <= j' < dst.cols) ==>
          dst.es[Idx(dst, i', j')] == old(dst.es[Idx(dst, i', j')])
        invariant forall k :: 0 <= k < dst.es.Length && !InWindow(dst, k) ==> dst.es[k] == old(dst.es[k])
      {
        dst.es[Idx(dst, i, j)] := dst.es[Idx(dst, i, j)] + a.es[Idx(a, i, j)];
      }
    }
    r := Pass;
  }

  /** mat_dot: with a.cols == b.rows, dst.rows == a.rows and dst.cols == b.cols, every
      dst(i, j) becomes Σ_k a(i, k)*b(k, j) (reset to 0, then accumulated); otherwise the
      assertion fails and nothing is written. */
  method MatDot(dst: Mat, a: Mat, b: Mat) returns (r: Outcome)
    requires Valid(dst) && Valid(a) && Valid(b) && dst.es != a.es && dst.es != b.es
    modifies dst.es
    ensures r == if a.cols == b.rows && dst.rows == a.rows && dst.cols == b.cols then Pass
                 else Fail(ShapeMismatch)
    ensures r.Pass? ==> forall i, j :: 0 <= i < dst.rows && 0 <= j < dst.cols ==>
      At(dst, i, j) == Dot(Value(a)[i], Col(Value(b), j))
    ensures r.Fail? ==> unchanged(dst.es)
    ensures forall k :: 0 <= k < dst.es.Length && !InWindow(dst, k) ==> dst.es[k] == old(dst.es[k])
  {
    if !(a.cols == b.rows && dst.rows == a.rows && dst.cols == b.cols) {
      return Fail(ShapeMismatch);
    }
    var n := a.cols;
    Cells(dst);
    for i := 0 to dst.rows
      invariant forall i', j' :: 0 <= i' < i && 0 <= j' < dst.cols ==>
        dst.es[Idx(dst, i', j')] == Dot(Value(a)[i'], Col(Value(b), j'))
      invariant forall k :: 0 <= k < dst.es.Length && !InWindow(dst, k) ==> dst.es[k] == old(dst.es[k])
    {
      for j := 0 to dst.cols
        invariant forall i', j' :: 0 <= i' < i && 0 <= j' < dst.cols ==>
          dst.es[Idx(dst, i', j')] == Dot(Value(a)[i'], Col(Value(b), j'))
        invariant forall j' :: 0 <= j' < j ==> dst.es[Idx(dst, i, j')] == Dot(Value(a)[i], Col(Value(b), j'))
        invariant forall k :: 0 <= k < dst.es.Length && !InWindow(dst, k) ==> dst.es[k] == old(dst.es[k])
      {
        DotCell(dst, a, b, i, j);
      }
    }
    r := Pass;
  }

  /** The innermost loop of mat_dot: dst(i, j) := 0, then += a(i, k)*b(k, j) for k < n. */
  method DotCell(dst: Mat, a: Mat, b: Mat, i: nat, j: nat)
    requires Valid(dst) && Valid(a) && Valid(b) && dst.es != a.es && dst.es != b.es
    requires a.cols == b.rows && dst.rows == a.rows && dst.cols == b.cols
    requires i < dst.rows && j < dst.cols
    modifies dst.es
    ensures At(dst, i, j) == Dot(Value(a)[i], Col(Value(b), j))
    ensures forall k :: 0 <= k < dst.es.Length && k != Idx(dst, i, j) ==> dst.es[k] == old(dst.es[k])
  {
    CellInBounds(dst, i, j);
    var p := Idx(dst, i, j);
    dst.es[p] := 0.0;
    for k := 0 to a.cols
      invariant dst.es[p] == RowCol(a, b, i, j, k)
      invariant forall q :: 0 <= q < dst.es.Length && q != p ==> dst.es[q] == old(dst.es[q])
    {
      CellInBounds(a, i, k);
      CellInBounds(b, k, j);
      dst.es[p] := dst.es[p] + a.es[Idx(a, i, k)] * b.es[Idx(b, k, j)];
    }
    RowColIsDot(a, b, i, j, a.cols);
  }

  /** Σ_{k < n} a(i, k)*b(k, j), accumulated from the left as mat_dot does. */
  ghost function RowCol(a: Mat, b: Mat, i: nat, j: nat, n: nat): real
    reads a.es, b.es
    requires Valid(a) && Valid(b) && i < a.rows && j < b.cols && n <= a.cols && n <= b.rows
  {
    if n == 0 then 0.0 else RowCol(a, b, i, j, n - 1) + At(a, i, n - 1) * At(b, n - 1, j)
  }

  /** The running sum over the first n terms is the sum of the first n products of row i
      of a and column j of b. */
  lemma RowColIsDot(a: Mat, b: Mat, i: nat, j: nat, n: nat)
    requires Valid(a) && Valid(b) && i < a.rows && j < b.cols && n == a.cols == b.rows
    ensures RowCol(a, b, i, j, n) == Dot(Value(a)[i], Col(Value(b), j))
  {
    var prods := Products(Value(a)[i], Col(Value(b), j));
    assert |prods| == n;
    assert forall k :: 0 <= k < n ==> prods[k] == At(a, i, k) * At(b, k, j);
    RowColPrefix(a, b, i, j, n, prods);
    assert prods[..n] == prods;
  }

  lemma {:induction false} RowColPrefix(a: Mat, b: Mat, i: nat, j: nat, n: nat, prods: Vector)
    requires Valid(a) && Valid(b) && i < a.rows && j < b.cols && n <= a.cols && n <= b.rows
    requires n <= |prods| && forall k :: 0 <= k < n ==> prods[k] == At(a, i, k) * At(b, k, j)
    ensures RowCol(a, b, i, j, n) == Sum(prods[..n])
  {
    if n > 0 {
      RowColPrefix(a, b, i, j, n - 1, prods);
      SumPrefix(prods, n - 1);
    }
  }

  /** mat_sig: every element x of the window becomes sigmoid(x). */
  method MatSig(m: Mat, sigmoid: real -> real)
    requires Valid(m)
    modifies m.es
    ensures forall i, j :: 0 <= i < m.rows && 0 <= j < m.cols ==> At(m, i, j) == sigmoid(old(At(m, i, j)))
    ensures forall k :: 0 <= k < m.es.Length && !InWindow(m, k) ==> m.es[k] == old(m.es[k])
  {
    Cells(m);
    for i := 0 to m.rows
      invariant forall i', j' :: 0 <= i' < i && 0 <= j' < m.cols ==> m.es[Idx(m, i', j')] == sigmoid(old(m.es[Idx(m, i', j')]))
      invariant forall i', j' :: i <= i' < m.rows && 0 <= j' < m.cols ==> m.es[Idx(m, i', j')] == old(m.es[Idx(m, i', j')])
      invariant forall k :: 0 <= k < m.es.Length && !InWindow(m, k) ==> m.es[k] == old(m.es[k])
    {
      for j := 0 to m.cols
        invariant forall i', j' :: 0 <= i' < i && 0 <= j' < m.cols ==> m.es[Idx(m, i', j')] == sigmoid(old(m.es[Idx(m, i', j')]))
        invariant forall j' :: 0 <= j' < j ==> m.es[Idx(m, i, j')] == sigmoid(old(m.es[Idx(m, i, j')]))
        invariant forall i', j' :: (i < i' < m.rows && 0 <= j' < m.cols) || (i' == i && j <= j' < m.cols) ==>
          m.es[Idx(m, i', j')] == old(m.es[Idx(m, i', j')])
        invariant forall k :: 0 <= k < m.es.Length && !InWindow(m, k) ==> m.es[k] == old(m.es[k])
      {
        m.es[Idx(m, i, j)] := sigmoid(m.es[Idx(m, i, j)]);
      }
    }
  }

  // ---------------------------------------------------------------------------------------
  // Row views

  /** A row view addresses exactly the cells of row r of its owner, and no element of any
      other row of the owner: a write through the view changes row r only. */
  lemma RowViewAliasesRow(m: Mat, r: nat)
    requires Valid(m) && r < m.rows
    ensures Valid(MatRow(m, r))
    ensures forall j :: 0 <= j < m.cols ==> Idx(MatRow(m, r), 0, j) == Idx(m, r, j)
    ensures forall i, j, j' :: 0 <= i < m.rows && i != r && 0 <= j < m.cols && 0 <= j' < m.cols ==>
      Idx(m, i, j) != Idx(MatRow(m, r), 0, j')
  {
    var v := MatRow(m, r);
    forall i, j, j' | 0 <= i < m.rows && i != r && 0 <= j < m.cols && 0 <= j' < m.cols
      ensures Idx(m, i, j) != Idx(v, 0, j')
    {
      if Idx(m, i, j) == Idx(v, 0, j') {
        CellInjective(m, i, j, r, j');
      }
    }
  }

  /** In every state the view holds exactly row r of its owner, so in-place changes to the
      owner's row show through the view. */
  lemma RowViewValue(m: Mat, r: nat)
    requires Valid(m) && r < m.rows
    ensures Valid(MatRow(m, r)) && Value(MatRow(m, r)) == [Value(m)[r]]
  {
    var v := MatRow(m, r);
    RowViewAliasesRow(m, r);
    assert Value(v)[0] == Value(m)[r];
  }
}
