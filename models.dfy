/** The Model layer of ml.h: a network held in matrix buffers. ws[l] is the weight matrix
    and bs[l] the bias row of layer l; acts[l] is the activation row feeding layer l, with
    acts[0] the input and acts[len] the output. Every operation is specified by the value
    functions of the Network module applied to what the buffers hold. */
module Models {
  import opened Linear
  import opened Errors
  import opened Matrices
  import opened Network

  datatype Model = Model(len: nat, ws: seq<Mat>, bs: seq<Mat>, acts: seq<Mat>)

  /** The shapes model_alloc gives: every matrix packed, biases and activations single
      rows, and neighbouring layers agreeing on their widths. */
  predicate WellFormed(m: Model)
  {
    |m.ws| == m.len && |m.bs| == m.len && |m.acts| == m.len + 1 &&
    (forall l :: 0 <= l <= m.len ==> Valid(m.acts[l]) && Packed(m.acts[l]) && m.acts[l].rows == 1) &&
    (forall l :: 0 <= l < m.len ==>
      Valid(m.ws[l]) && Packed(m.ws[l]) && Valid(m.bs[l]) && Packed(m.bs[l]) && m.bs[l].rows == 1 &&
      m.ws[l].rows == m.acts[l].cols && m.ws[l].cols == m.acts[l + 1].cols &&
      m.bs[l].cols == m.acts[l + 1].cols)
  }

  /** No two matrices of the model share a buffer. */
  predicate Separate(m: Model)
    requires WellFormed(m)
  {
    (forall l, l' :: 0 <= l < m.len && 0 <= l' < m.len && l != l' ==> m.ws[l].es != m.ws[l'].es) &&
    (forall l, l' :: 0 <= l < m.len && 0 <= l' < m.len && l != l' ==> m.bs[l].es != m.bs[l'].es) &&
    (forall l, l' :: 0 <= l <= m.len && 0 <= l' <= m.len && l != l' ==> m.acts[l].es != m.acts[l'].es) &&
    (forall l, l' :: 0 <= l < m.len && 0 <= l' < m.len ==> m.ws[l].es != m.bs[l'].es) &&
    (forall l, l' :: 0 <= l < m.len && 0 <= l' <= m.len ==> m.ws[l].es != m.acts[l'].es) &&
    (forall l, l' :: 0 <= l < m.len && 0 <= l' <= m.len ==> m.bs[l].es != m.acts[l'].es)
  }

  /** The layer widths: the column count of every activation row. */
  function Arch(m: Model): (arch: seq<nat>)
    ensures |arch| == |m.acts|
  {
    seq(|m.acts|, l requires 0 <= l < |m.acts| => m.acts[l].cols)
  }

  /** The buffers of a sequence of matrices. */
  function MatBufs(ms: seq<Mat>): set<array<real>>
  {
    set k | 0 <= k < |ms| :: ms[k].es
  }

  lemma MatBufsSnoc(ms: seq<Mat>, x: Mat)
    ensures MatBufs(ms + [x]) == MatBufs(ms) + {x.es}
  {
    forall o | o in MatBufs(ms + [x]) ensures o in MatBufs(ms) + {x.es} {
      var k :| 0 <= k < |ms| + 1 && (ms + [x])[k].es == o;
      if k < |ms| {
        assert ms[k].es == o;
      }
    }
    forall o | o in MatBufs(ms) + {x.es} ensures o in MatBufs(ms + [x]) {
      if o == x.es {
        assert (ms + [x])[|ms|].es == o;
      } else {
        var k :| 0 <= k < |ms| && ms[k].es == o;
        assert (ms + [x])[k].es == o;
      }
    }
  }

  function ParamBufs(m: Model): set<array<real>>
  {
    MatBufs(m.ws) + MatBufs(m.bs)
  }

  function ActBufs(m: Model): set<array<real>>
  {
    MatBufs(m.acts)
  }

  function Bufs(m: Model): set<array<real>>
  {
    ParamBufs(m) + ActBufs(m)
  }

  /** An activation buffer holds no parameter. */
  lemma ActNotParam(m: Model, l: nat)
    requires WellFormed(m) && Separate(m) && l <= m.len
    ensures m.acts[l].es !in ParamBufs(m)
  {
  }

  /** Layer l as a value. */
  function LayerOf(m: Model, l: nat): Layer
    requires WellFormed(m) && l < m.len
    reads m.ws[l].es, m.bs[l].es
  {
    Layer(Value(m.ws[l]), Value(m.bs[l])[0])
  }

  /** The network the parameter buffers hold. */
  function NetOf(m: Model): (net: Net)
    requires WellFormed(m)
    reads ParamBufs(m)
    ensures |net| == m.len && forall l :: 0 <= l < m.len ==> net[l] == LayerOf(m, l)
  {
    seq(m.len, l requires 0 <= l < m.len reads ParamBufs(m) => LayerOf(m, l))
  }

  /** The rows the activation buffers hold. */
  function ActRows(m: Model): (rows: seq<Vector>)
    requires WellFormed(m)
    reads ActBufs(m)
    ensures |rows| == m.len + 1 && forall l :: 0 <= l <= m.len ==> rows[l] == Value(m.acts[l])[0]
  {
    seq(m.len + 1, l requires 0 <= l <= m.len reads ActBufs(m) => Value(m.acts[l])[0])
  }

  /** p names a cell of one of the model's parameter matrices. */
  predicate Has(m: Model, p: Param)
    requires WellFormed(m)
  {
    match p
    case W(l, row, col) => l < m.len && row < m.ws[l].rows && col < m.ws[l].cols
    case B(l, col) => l < m.len && col < m.bs[l].cols
  }

  /** The buffer that holds parameter p. */
  function BufOf(m: Model, p: Param): array<real>
    requires WellFormed(m) && Has(m, p)
  {
    match p
    case W(l, _, _) => m.ws[l].es
    case B(l, _) => m.bs[l].es
  }

  lemma BufOfIn(m: Model, p: Param)
    requires WellFormed(m) && Has(m, p)
    ensures BufOf(m, p) in ParamBufs(m)
  {
    match p
    case W(l, _, _) => assert m.ws[l].es in MatBufs(m.ws);
    case B(l, _) => assert m.bs[l].es in MatBufs(m.bs);
  }

  /** The value of parameter p, read from its buffer. */
  function GetParam(m: Model, p: Param): real
    requires WellFormed(m) && Has(m, p)
    reads BufOf(m, p)
  {
    match p
    case W(l, row, col) => At(m.ws[l], row, col)
    case B(l, col) => At(m.bs[l], 0, col)
  }

  /** The parameters of the held network are the cells of the parameter matrices, and its
      shape is the one the widths prescribe. */
  lemma NetParams(m: Model)
    requires WellFormed(m)
    ensures Fits(NetOf(m), Arch(m))
    ensures forall p :: IsParam(NetOf(m), p) <==> Has(m, p)
    ensures forall p :: Has(m, p) ==> IsParam(NetOf(m), p) && Get(NetOf(m), p) == GetParam(m, p)
  {
  }

  /** One parameter of the model is a parameter of the held net, with the cell's value. */
  lemma ParamOf(m: Model, p: Param)
    requires WellFormed(m) && Has(m, p)
    ensures IsParam(NetOf(m), p) && Get(NetOf(m), p) == GetParam(m, p)
  {
    NetParams(m);
  }

  /** Any net of the model's widths has exactly the model's parameters. */
  lemma FitsParams(m: Model, n: Net)
    requires WellFormed(m) && Fits(n, Arch(m))
    ensures forall p :: IsParam(n, p) <==> Has(m, p)
  {
    forall p ensures IsParam(n, p) <==> Has(m, p) {
      match p
      case W(l, row, col) =>
        if l < m.len {
          assert Arch(m)[l] == m.ws[l].rows && Arch(m)[l + 1] == m.ws[l].cols;
          if row < |n[l].w| { assert |n[l].w[row]| == m.ws[l].cols; }
        }
      case B(l, col) =>
        if l < m.len { assert Arch(m)[l + 1] == m.bs[l].cols; }
    }
  }

  /** A net of the model's widths that agrees with every parameter cell is the held net. */
  lemma NetIs(m: Model, n: Net)
    requires WellFormed(m) && Fits(n, Arch(m))
    requires forall p :: Has(m, p) ==> IsParam(n, p) && Get(n, p) == GetParam(m, p)
    ensures NetOf(m) == n
  {
    NetParams(m);
    FitsParams(m, n);
    FitsSameShape(NetOf(m), n, Arch(m));
    ParamsEqual(NetOf(m), n);
  }

  // ---------------------------------------------------------------------------------------
  // Allocation and initialisation

  /** model_alloc: for widths desc, activation row 0 is 1 × desc[0] and, for every later
      width, a weight matrix (previous width) × desc[i], a bias row and an activation row
      1 × desc[i], all over fresh buffers. An empty description is refused. */
  method ModelAlloc(desc: seq<nat>) returns (r: Result<Model>)
    ensures r.Err? <==> |desc| == 0
    ensures r.Err? ==> r.error == InvalidArchitecture
    ensures r.Ok? ==> WellFormed(r.value) && Separate(r.value) && fresh(Bufs(r.value))
    ensures r.Ok? ==> r.value.len == |desc| - 1 && Arch(r.value) == desc
  {
    if |desc| == 0 {
      return Err(InvalidArchitecture);
    }
    var a0 := MatAlloc(1, desc[0]);
    var cur := Model(0, [], [], [a0]);
    MatBufsSnoc([], a0);
    assert [] + [a0] == [a0];
    assert Bufs(cur) == {a0.es};
    for i := 1 to |desc|
      invariant cur.len == i - 1 && WellFormed(cur) && Separate(cur)
      invariant Arch(cur) == desc[..i]
      invariant fresh(Bufs(cur))
    {
      cur := AllocStep(cur, desc, i);
    }
    assert desc[..|desc|] == desc;
    r := Ok(cur);
  }

  /** Pass i of model_alloc's loop: the model of widths desc[..i] gains its next layer. */
  method AllocStep(m: Model, desc: seq<nat>, i: nat) returns (m': Model)
    requires 0 < i < |desc| && m.len == i - 1 && WellFormed(m) && Separate(m) && Arch(m) == desc[..i]
    ensures m'.len == i && WellFormed(m') && Separate(m') && Arch(m') == desc[..i + 1]
    ensures Bufs(m') == Bufs(m) + {m'.ws[m.len].es, m'.bs[m.len].es, m'.acts[m.len + 1].es}
    ensures fresh(m'.ws[m.len].es) && fresh(m'.bs[m.len].es) && fresh(m'.acts[m.len + 1].es)
  {
    m' := AllocLayer(m, desc[i]);
    assert desc[..i + 1] == desc[..i] + [desc[i]];
  }

  /** One step of model_alloc's loop: a layer into a new output width, over fresh buffers. */
  method AllocLayer(m: Model, width: nat) returns (m': Model)
    requires WellFormed(m) && Separate(m)
    ensures WellFormed(m') && Separate(m') && m'.len == m.len + 1
    ensures Arch(m') == Arch(m) + [width]
    ensures m'.ws[..m.len] == m.ws && m'.bs[..m.len] == m.bs && m'.acts[..m.len + 1] == m.acts
    ensures Bufs(m') == Bufs(m) + {m'.ws[m.len].es, m'.bs[m.len].es, m'.acts[m.len + 1].es}
    ensures fresh(m'.ws[m.len].es) && fresh(m'.bs[m.len].es) && fresh(m'.acts[m.len + 1].es)
  {
    var w := MatAlloc(m.acts[m.len].cols, width);
    var b := MatAlloc(1, width);
    var a := MatAlloc(1, width);
    assert w.es !in Bufs(m) && b.es !in Bufs(m) && a.es !in Bufs(m);
    Extend(m, w, b, a);
    m' := Extended(m, w, b, a);
  }

  /** The model with one more layer (w, b) and output row a. */
  function Extended(m: Model, w: Mat, b: Mat, a: Mat): Model
  {
    Model(m.len + 1, m.ws + [w], m.bs + [b], m.acts + [a])
  }

  lemma Extend(m: Model, w: Mat, b: Mat, a: Mat)
    requires WellFormed(m) && Separate(m)
    requires Valid(w) && Packed(w) && Valid(b) && Packed(b) && Valid(a) && Packed(a)
    requires w.rows == m.acts[m.len].cols && b.rows == 1 && a.rows == 1 && w.cols == a.cols && b.cols == a.cols
    requires w.es !in Bufs(m) && b.es !in Bufs(m) && a.es !in Bufs(m)
    requires w.es != b.es && w.es != a.es && b.es != a.es
    ensures WellFormed(Extended(m, w, b, a)) && Separate(Extended(m, w, b, a))
    ensures Bufs(Extended(m, w, b, a)) == Bufs(m) + {w.es, b.es, a.es}
    ensures Arch(Extended(m, w, b, a)) == Arch(m) + [a.cols]
    ensures Extended(m, w, b, a).ws[..m.len] == m.ws && Extended(m, w, b, a).bs[..m.len] == m.bs
    ensures Extended(m, w, b, a).acts[..m.len + 1] == m.acts
  {
    ExtendArch(m, w, b, a);
    ExtendWellFormed(m, w, b, a);
    ExtendSeparate(m, w, b, a);
    MatBufsSnoc(m.ws, w);
    MatBufsSnoc(m.bs, b);
    MatBufsSnoc(m.acts, a);
  }

  lemma ExtendWellFormed(m: Model, w: Mat, b: Mat, a: Mat)
    requires WellFormed(m)
    requires Valid(w) && Packed(w) && Valid(b) && Packed(b) && Valid(a) && Packed(a)
    requires w.rows == m.acts[m.len].cols && b.rows == 1 && a.rows == 1 && w.cols == a.cols && b.cols == a.cols
    ensures WellFormed(Extended(m, w, b, a))
  {
    var m' := Extended(m, w, b, a);
    assert forall l :: 0 <= l < m.len ==> m'.ws[l] == m.ws[l] && m'.bs[l] == m.bs[l];
    assert forall l :: 0 <= l <= m.len ==> m'.acts[l] == m.acts[l];
  }

  lemma ExtendArch(m: Model, w: Mat, b: Mat, a: Mat)
    requires WellFormed(m)
    ensures Arch(Extended(m, w, b, a)) == Arch(m) + [a.cols]
    ensures Extended(m, w, b, a).ws[..m.len] == m.ws && Extended(m, w, b, a).bs[..m.len] == m.bs
    ensures Extended(m, w, b, a).acts[..m.len + 1] == m.acts
  {
    var m' := Extended(m, w, b, a);
    assert forall l :: 0 <= l < |m'.acts| ==> Arch(m')[l] == (Arch(m) + [a.cols])[l];
  }

  lemma ExtendSeparate(m: Model, w: Mat, b: Mat, a: Mat)
    requires WellFormed(m) && Separate(m) && WellFormed(Extended(m, w, b, a))
    requires w.es !in Bufs(m) && b.es !in Bufs(m) && a.es !in Bufs(m)
    requires w.es != b.es && w.es != a.es && b.es != a.es
    ensures Separate(Extended(m, w, b, a))
  {
    var m' := Extended(m, w, b, a);
    forall l | 0 <= l < m.len ensures m.ws[l].es in Bufs(m) && m.bs[l].es in Bufs(m) {
      assert m.ws[l].es in MatBufs(m.ws) && m.bs[l].es in MatBufs(m.bs);
    }
    forall l | 0 <= l <= m.len ensures m.acts[l].es in Bufs(m) {
      assert m.acts[l].es in MatBufs(m.acts);
    }
    ExtendDistinct(m.ws, w, Bufs(m));
    ExtendDistinct(m.bs, b, Bufs(m));
    ExtendDistinct(m.acts, a, Bufs(m));
    ExtendApart(m.ws, w, m.bs, b, Bufs(m));
    ExtendApart(m.ws, w, m.acts, a, Bufs(m));
    ExtendApart(m.bs, b, m.acts, a, Bufs(m));
  }

  /** Appending a matrix over a buffer outside the old ones keeps buffers pairwise distinct. */
  lemma ExtendDistinct(ms: seq<Mat>, x: Mat, old_bufs: set<array<real>>)
    requires forall k, k' :: 0 <= k < |ms| && 0 <= k' < |ms| && k != k' ==> ms[k].es != ms[k'].es
    requires forall k :: 0 <= k < |ms| ==> ms[k].es in old_bufs
    requires x.es !in old_bufs
    ensures forall k, k' :: 0 <= k < |ms + [x]| && 0 <= k' < |ms + [x]| && k != k' ==>
      (ms + [x])[k].es != (ms + [x])[k'].es
  {
  }

  /** Two sequences with disjoint buffers stay disjoint when each gains a new buffer. */
  lemma ExtendApart(ms: seq<Mat>, x: Mat, ns: seq<Mat>, y: Mat, old_bufs: set<array<real>>)
    requires forall k, k' :: 0 <= k < |ms| && 0 <= k' < |ns| ==> ms[k].es != ns[k'].es
    requires forall k :: 0 <= k < |ms| ==> ms[k].es in old_bufs
    requires forall k :: 0 <= k < |ns| ==> ns[k].es in old_bufs
    requires x.es !in old_bufs && y.es !in old_bufs && x.es != y.es
    ensures forall k, k' :: 0 <= k < |ms + [x]| && 0 <= k' < |ns + [y]| ==>
      (ms + [x])[k].es != (ns + [y])[k'].es
  {
  }

  /** Every element of the window is zero. */
  ghost predicate IsZero(a: Mat)
    reads a.es
    requires Valid(a)
  {
    forall i, j :: 0 <= i < a.rows && 0 <= j < a.cols ==> At(a, i, j) == 0.0
  }

  /** Every matrix of the model is zero. */
  ghost predicate Zeroed(m: Model)
    reads Bufs(m)
    requires WellFormed(m)
  {
    (forall l :: 0 <= l < m.len ==> IsZero(m.ws[l]) && IsZero(m.bs[l])) &&
    (forall l :: 0 <= l <= m.len ==> IsZero(m.acts[l]))
  }

  /** model_zero: every weight, bias and activation becomes 0. */
  method ModelZero(m: Model)
    requires WellFormed(m) && Separate(m)
    modifies Bufs(m)
    ensures Zeroed(m)
  {
    for i := 0 to m.len
      invariant forall l :: 0 <= l < i ==> IsZero(m.ws[l]) && IsZero(m.bs[l]) && IsZero(m.acts[l])
    {
      MatFill(m.ws[i], 0.0);
      MatFill(m.bs[i], 0.0);
      MatFill(m.acts[i], 0.0);
    }
    MatFill(m.acts[m.len], 0.0);
  }

  /** A zeroed model holds the all-zero net and all-zero activation rows. */
  lemma ZeroedNet(m: Model)
    requires WellFormed(m) && Zeroed(m)
    ensures forall p :: IsParam(NetOf(m), p) ==> Get(NetOf(m), p) == 0.0
    ensures forall l, j :: 0 <= l <= m.len && 0 <= j < m.acts[l].cols ==> ActRows(m)[l][j] == 0.0
  {
    NetParams(m);
  }

  // ---------------------------------------------------------------------------------------
  // Random initialisation

  /** The number of ml_randf draws model_rand spends on the layers below l: every weight
      cell and every bias cell takes one. */
  function Drawn(m: Model, l: nat): nat
    requires WellFormed(m) && l <= m.len
  {
    if l == 0 then 0 else
      MulMono(0, m.ws[l - 1].rows, m.ws[l - 1].cols);
      Drawn(m, l - 1) + m.ws[l - 1].rows * m.ws[l - 1].cols + m.bs[l - 1].cols
  }

  /** The place of parameter p among the draws of its own layer: the weights row by row,
      then the biases. */
  function InLayer(m: Model, p: Param): nat
    requires WellFormed(m) && Has(m, p)
  {
    match p
    case W(l, row, col) => row * m.ws[l].cols + col
    case B(l, col) => m.ws[l].rows * m.ws[l].cols + col
  }

  /** The draw, counted from start, that model_rand stores in parameter p. */
  function Pos(m: Model, start: nat, p: Param): nat
    requires WellFormed(m) && Has(m, p)
  {
    start + Drawn(m, p.l) + InLayer(m, p)
  }

  /** Every parameter of layer l takes a draw of that layer's block. */
  lemma InLayerBound(m: Model, p: Param)
    requires WellFormed(m) && Has(m, p)
    ensures InLayer(m, p) < m.ws[p.l].rows * m.ws[p.l].cols + m.bs[p.l].cols
  {
    match p
    case W(l, row, col) =>
      MulMono(row + 1, m.ws[l].rows, m.ws[l].cols);
    case B(l, col) =>
  }

  lemma {:induction false} DrawnMono(m: Model, l: nat, l': nat)
    requires WellFormed(m) && l <= l' <= m.len
    ensures Drawn(m, l) <= Drawn(m, l')
    decreases l' - l
  {
    if l < l' {
      DrawnMono(m, l, l' - 1);
      MulMono(0, m.ws[l' - 1].rows, m.ws[l' - 1].cols);
    }
  }

  /** Different parameters take different draws. */
  lemma PosInjective(m: Model, start: nat, p: Param, q: Param)
    requires WellFormed(m) && Has(m, p) && Has(m, q) && p != q
    ensures Pos(m, start, p) != Pos(m, start, q)
  {
    if p.l < q.l {
      PosOrdered(m, start, p, q);
    } else if q.l < p.l {
      PosOrdered(m, start, q, p);
    } else {
      InLayerInjective(m, p, q);
    }
  }

  /** Every draw of a lower layer comes before every draw of a higher one. */
  lemma PosOrdered(m: Model, start: nat, p: Param, q: Param)
    requires WellFormed(m) && Has(m, p) && Has(m, q) && p.l < q.l
    ensures Pos(m, start, p) < Pos(m, start, q)
  {
    PosBelow(m, start, p);
    PosBelow(m, start, q);
    DrawnMono(m, p.l + 1, q.l);
  }

  /** All draws lie below start + Drawn(m, m.len), where model_rand leaves the stream. */
  lemma PosBound(m: Model, start: nat, p: Param)
    requires WellFormed(m) && Has(m, p)
    ensures start <= Pos(m, start, p) < start + Drawn(m, m.len)
  {
    PosBelow(m, start, p);
    DrawnMono(m, p.l + 1, m.len);
  }

  /** The draws of layer l lie between Drawn(m, l) and Drawn(m, l + 1). */
  lemma PosBelow(m: Model, start: nat, p: Param)
    requires WellFormed(m) && Has(m, p)
    ensures start + Drawn(m, p.l) <= Pos(m, start, p) < start + Drawn(m, p.l + 1)
  {
    InLayerBound(m, p);
  }

  /** Within one layer, different parameters take different draws. */
  lemma InLayerInjective(m: Model, p: Param, q: Param)
    requires WellFormed(m) && Has(m, p) && Has(m, q) && p != q && p.l == q.l
    ensures InLayer(m, p) != InLayer(m, q)
  {
    var cols := m.ws[p.l].cols;
    match p {
      case W(l, row, col) =>
        match q {
          case W(_, row', col') =>
            if row < row' {
              RowBlockBelow(row, col, row', col', cols);
            } else if row' < row {
              RowBlockBelow(row', col', row, col, cols);
            }
          case B(_, _) =>
            RowBlockBelow(row, col, m.ws[l].rows, 0, cols);
        }
      case B(l, col) =>
        match q {
          case W(_, row', col') =>
            RowBlockBelow(row', col', m.ws[l].rows, 0, cols);
          case B(_, _) =>
        }
    }
  }

  /** In a row-major layout, a cell of an earlier row comes before every cell of a later row. */
  lemma RowBlockBelow(row: nat, col: nat, row': nat, col': nat, cols: nat)
    requires row < row' && col < cols
    ensures row * cols + col < row' * cols + col'
  {
    MulMono(row + 1, row', cols);
    assert (row + 1) * cols == row * cols + cols;
  }

  /** A weight or bias buffer holds no activation row. */
  lemma ParamNotAct(m: Model, l: nat)
    requires WellFormed(m) && Separate(m) && l < m.len
    ensures m.ws[l].es !in ActBufs(m) && m.bs[l].es !in ActBufs(m)
  {
  }

  /** One layer of model_rand: the weights, then the biases, from draw base =
      start + Drawn(m, l) on. */
  method RandLayer(m: Model, l: nat, low: real, high: real, randf: nat -> Unit, start: nat, base: nat)
    returns (next: nat)
    requires WellFormed(m) && Separate(m) && l < m.len && base == start + Drawn(m, l)
    modifies m.ws[l].es, m.bs[l].es
    ensures next == base + m.ws[l].rows * m.ws[l].cols + m.bs[l].cols
    ensures forall p :: Has(m, p) && p.l == l ==>
      GetParam(m, p) == Scale(randf(Pos(m, start, p)), low, high)
    ensures forall p :: Has(m, p) && p.l != l ==> GetParam(m, p) == old(GetParam(m, p))
  {
    var mid := MatRand(m.ws[l], low, high, randf, base);
    next := MatRand(m.bs[l], low, high, randf, mid);
    forall p | Has(m, p) && p.l == l
      ensures GetParam(m, p) == Scale(randf(Pos(m, start, p)), low, high)
    {
      assert Pos(m, start, p) == base + InLayer(m, p);
      match p
      case W(_, row, col) =>
      case B(_, col) =>
        assert base + InLayer(m, p) == mid + 0 * m.bs[l].cols + col;
    }
  }

  /** One round of model_rand's loop: layer i takes the draws after those of the layers
      below it, whose parameters keep theirs; the activation rows stay as they were. */
  method RandStep(m: Model, i: nat, low: real, high: real, randf: nat -> Unit, start: nat, next0: nat,
                  ghost rows: seq<Vector>)
    returns (next: nat)
    requires WellFormed(m) && Separate(m) && i < m.len
    requires next0 == start + Drawn(m, i) && ActRows(m) == rows
    requires forall p :: Has(m, p) && p.l < i ==> GetParam(m, p) == Scale(randf(Pos(m, start, p)), low, high)
    modifies m.ws[i].es, m.bs[i].es
    ensures next == start + Drawn(m, i + 1) && ActRows(m) == rows
    ensures forall p :: Has(m, p) && p.l < i + 1 ==>
      GetParam(m, p) == Scale(randf(Pos(m, start, p)), low, high)
  {
    ParamNotAct(m, i);
    assert Drawn(m, i + 1) == Drawn(m, i) + m.ws[i].rows * m.ws[i].cols + m.bs[i].cols;
    next := RandLayer(m, i, low, high, randf, start, next0);
  }

  /** model_rand: every weight and bias becomes its own draw of the ml_randf stream, scaled
      into [low, high], in the order layer by layer, weights row by row before biases. The
      activation rows are not written. */
  method ModelRand(m: Model, low: real, high: real, randf: nat -> Unit, start: nat)
    returns (next: nat)
    requires WellFormed(m) && Separate(m)
    modifies ParamBufs(m)
    ensures next == start + Drawn(m, m.len)
    ensures forall p :: Has(m, p) ==> GetParam(m, p) == Scale(randf(Pos(m, start, p)), low, high)
    ensures forall p :: IsParam(NetOf(m), p) ==> Between(Get(NetOf(m), p), low, high)
    ensures ActRows(m) == old(ActRows(m))
  {
    ghost var rows := ActRows(m);
    next := start;
    for i := 0 to m.len
      invariant next == start + Drawn(m, i) && ActRows(m) == rows
      invariant forall p :: Has(m, p) && p.l < i ==>
        GetParam(m, p) == Scale(randf(Pos(m, start, p)), low, high)
    {
      next := RandStep(m, i, low, high, randf, start, next, rows);
    }
    RandBetween(m, low, high, randf, start);
  }

  /** Parameters holding scaled draws lie in [low, high]. */
  lemma RandBetween(m: Model, low: real, high: real, randf: nat -> Unit, start: nat)
    requires WellFormed(m)
    requires forall p :: Has(m, p) ==> GetParam(m, p) == Scale(randf(Pos(m, start, p)), low, high)
    ensures forall p :: IsParam(NetOf(m), p) ==> Between(Get(NetOf(m), p), low, high)
  {
    NetParams(m);
    forall p | IsParam(NetOf(m), p) ensures Between(Get(NetOf(m), p), low, high) {
      ScaledDrawBetween(randf(Pos(m, start, p)), low, high);
    }
  }

  // ---------------------------------------------------------------------------------------
  // Forward pass

  /** One layer of model_forward on its four matrices: dst := a·w, += b, then sigmoid, so
      that the dst row is the layer (w, b) applied to the a row. */
  method LayerStep(dst: Mat, a: Mat, w: Mat, b: Mat, sigmoid: real -> real)
    requires Valid(dst) && Valid(a) && Valid(w) && Valid(b)
    requires dst.rows == 1 && a.rows == 1 && b.rows == 1
    requires w.rows == a.cols && w.cols == dst.cols && b.cols == dst.cols
    requires dst.es != a.es && dst.es != w.es && dst.es != b.es
    modifies dst.es
    ensures Value(dst)[0] == Apply(Layer(Value(w), Value(b)[0]), Value(a)[0], sigmoid)
  {
    ghost var x, wv, bv := Value(a)[0], Value(w), Value(b)[0];
    ghost var y := Apply(Layer(wv, bv), x, sigmoid);
    var r := MatDot(dst, a, w);
    assert forall j :: 0 <= j < dst.cols ==> At(dst, 0, j) == Dot(x, Col(wv, j));
    r := MatSum(dst, b);
    assert forall j :: 0 <= j < dst.cols ==> At(dst, 0, j) == Dot(x, Col(wv, j)) + bv[j];
    MatSig(dst, sigmoid);
    assert forall j :: 0 <= j < dst.cols ==> At(dst, 0, j) == y[j];
    assert Value(a)[0] == x && Value(w) == wv && Value(b)[0] == bv;
  }

  /** Layer l of model_forward: row l+1 becomes layer l applied to row l; no other row and
      no parameter changes. */
  method LayerForward(m: Model, l: nat, sigmoid: real -> real)
    requires WellFormed(m) && Separate(m) && l < m.len
    modifies m.acts[l + 1].es
    ensures RowIs(m.acts[l + 1], Apply(LayerOf(m, l), Value(m.acts[l])[0], sigmoid))
    ensures forall k :: 0 <= k <= m.len && k != l + 1 ==> Value(m.acts[k]) == old(Value(m.acts[k]))
    ensures forall k :: 0 <= k < m.len ==> LayerOf(m, k) == old(LayerOf(m, k))
  {
    assert m.acts[l + 1].es != m.acts[l].es;
    LayerStep(m.acts[l + 1], m.acts[l], m.ws[l], m.bs[l], sigmoid);
    forall k | 0 <= k < m.len ensures LayerOf(m, k) == old(LayerOf(m, k)) {
      assert m.ws[k].es != m.acts[l + 1].es && m.bs[k].es != m.acts[l + 1].es;
    }
  }

  /** model_forward: every activation row above the input becomes the previous row pushed
      through its layer, so the rows are the forward pass of the held net on row 0. The
      parameters and the input row are not written. */
  method ModelForward(m: Model, sigmoid: real -> real)
    requires WellFormed(m) && Separate(m)
    modifies ActBufs(m) - {m.acts[0].es}
    ensures ActRows(m) == Forward(NetOf(m), ActRows(m)[0], sigmoid)
    ensures ActRows(m)[0] == old(ActRows(m)[0]) && NetOf(m) == old(NetOf(m))
  {
    ghost var net, x := NetOf(m), ActRows(m)[0];
    for i := 0 to m.len
      invariant ForwardTo(m, i, net, x, sigmoid)
    {
      assert m.acts[i + 1].es in MatBufs(m.acts) && m.acts[i + 1].es != m.acts[0].es;
      ForwardStep(m, i, sigmoid, net, x);
    }
    NetFromLayers(m, net);
    RowsFromLayers(m, Forward(net, x, sigmoid));
  }

  /** The state of model_forward's loop after i layers: m holds net, and its rows up to i are
      the activations of x through the first layers. */
  ghost predicate ForwardTo(m: Model, i: nat, net: Net, x: Vector, sigmoid: real -> real)
    reads Bufs(m)
    requires WellFormed(m)
  {
    i <= m.len && |net| == m.len &&
    (forall k {:trigger LayerOf(m, k)} :: 0 <= k < m.len ==> LayerOf(m, k) == net[k]) &&
    (forall l {:trigger Value(m.acts[l])} :: 0 <= l <= i ==> Value(m.acts[l])[0] == Activation(net, x, sigmoid, l))
  }

  /** One pass of model_forward's loop. */
  method ForwardStep(m: Model, i: nat, sigmoid: real -> real, ghost net: Net, ghost x: Vector)
    requires WellFormed(m) && Separate(m) && i < m.len && ForwardTo(m, i, net, x, sigmoid)
    modifies m.acts[i + 1].es
    ensures ForwardTo(m, i + 1, net, x, sigmoid)
  {
    assert LayerOf(m, i) == net[i] && Value(m.acts[i])[0] == Activation(net, x, sigmoid, i);
    LayerForward(m, i, sigmoid);
    assert Value(m.acts[i + 1])[0] == Activation(net, x, sigmoid, i + 1);
  }
  /** The single row of a is v. */
  ghost predicate RowIs(a: Mat, v: Vector)
    reads a.es
    requires Valid(a) && a.rows == 1
  {
    Value(a)[0] == v
  }

  // ---------------------------------------------------------------------------------------
  // Cost

  /** The shapes model_cost asserts: as many target rows as input rows, targets as wide as
      the output row, and inputs as wide as the input row (checked by the first mat_copy). */
  predicate DataFits(m: Model, ti: Mat, to: Mat)
    requires WellFormed(m)
  {
    ti.rows == to.rows && to.cols == m.acts[m.len].cols && ti.cols == m.acts[0].cols
  }

  /** Feed input row i of ti: copy it into the input row, then run model_forward. */
  method FeedRow(m: Model, ti: Mat, i: nat, sigmoid: real -> real)
    requires WellFormed(m) && Separate(m) && Valid(ti) && i < ti.rows && ti.cols == m.acts[0].cols
    requires ti.es !in Bufs(m)
    modifies ActBufs(m)
    ensures ActRows(m) == Forward(NetOf(m), Value(ti)[i], sigmoid)
    ensures NetOf(m) == old(NetOf(m)) && Value(ti) == old(Value(ti))
  {
    ghost var net, xs := NetOf(m), Value(ti);
    assert m.acts[0].es in MatBufs(m.acts);
    RowViewValue(ti, i);
    var ok := MatCopy(m.acts[0], MatRow(ti, i));
    ActNotParam(m, 0);
    assert NetOf(m) == net && Value(ti) == xs;
    assert Value(m.acts[0])[0] == xs[i];
    ModelForward(m, sigmoid);
    assert Value(ti) == xs;
  }

  /** The inner loop of model_cost: c0 plus the squared differences between the output row
      and target row i. Nothing is written, so the held net, the activation rows and the data
      keep the values they had. */
  method AddLoss(m: Model, ti: Mat, to: Mat, i: nat, c0: real,
                 ghost net: Net, ghost rows: Matrix, ghost xs: Matrix, ghost ys: Matrix)
    returns (c: real)
    requires WellFormed(m) && Valid(ti) && Valid(to) && i < to.rows && to.cols == m.acts[m.len].cols
    requires NetOf(m) == net && ActRows(m) == rows && Value(ti) == xs && Value(to) == ys
    ensures c == c0 + Sum(SqDiffs(rows[m.len], ys[i]))
    ensures NetOf(m) == net && ActRows(m) == rows && Value(ti) == xs && Value(to) == ys
  {
    ghost var d := SqDiffs(rows[m.len], ys[i]);
    assert |d| == to.cols;
    var out := m.acts[m.len];
    c := c0;
    for j := 0 to to.cols
      invariant c == c0 + SumTo(d, j)
    {
      var e := At(out, 0, j) - At(to, i, j);
      c := c + e * e;
    }
    SumToIsSum(d);
  }

  /** One example of model_cost: feed input row i and add its summed squared error to the
      running total of the losses before it. */
  method CostStep(m: Model, ti: Mat, to: Mat, i: nat, c0: real, sigmoid: real -> real,
                  ghost net: Net, ghost xs: Matrix, ghost ys: Matrix, ghost losses: Vector)
    returns (c: real)
    requires WellFormed(m) && Separate(m) && Valid(ti) && Valid(to) && DataFits(m, ti, to) && i < ti.rows
    requires ti.es !in Bufs(m) && to.es !in Bufs(m)
    requires NetOf(m) == net && Value(ti) == xs && Value(to) == ys
    requires losses == Losses(net, xs, ys, sigmoid) && c0 == SumTo(losses, i)
    modifies ActBufs(m)
    ensures c == SumTo(losses, i + 1)
    ensures ActRows(m) == Forward(net, xs[i], sigmoid)
    ensures NetOf(m) == net && Value(ti) == xs && Value(to) == ys
  {
    assert to.es !in ActBufs(m);
    FeedRow(m, ti, i, sigmoid);
    ghost var rows := ActRows(m);
    c := AddLoss(m, ti, to, i, c0, net, rows, xs, ys);
    assert rows[m.len] == Output(net, xs[i], sigmoid);
  }

  /** model_cost: with fitting shapes, the mean over the rows of ti of the summed squared
      error between the output row and the row of to; the activation rows are left holding
      the forward pass of the last input row. With unfitting shapes the assertions fail before
      anything is written. The parameters are not written. */
  method ModelCost(m: Model, ti: Mat, to: Mat, sigmoid: real -> real) returns (r: Result<real>)
    requires WellFormed(m) && Separate(m) && Valid(ti) && Valid(to) && ti.rows > 0
    requires ti.es !in Bufs(m) && to.es !in Bufs(m)
    modifies ActBufs(m)
    ensures r.Ok? <==> DataFits(m, ti, to)
    ensures r.Err? ==> r.error == ShapeMismatch && unchanged(ActBufs(m))
    ensures r.Ok? ==> r.value == Cost(NetOf(m), Value(ti), Value(to), sigmoid)
    ensures r.Ok? ==> ActRows(m) == Forward(NetOf(m), Value(ti)[ti.rows - 1], sigmoid)
    ensures NetOf(m) == old(NetOf(m)) && Value(ti) == old(Value(ti)) && Value(to) == old(Value(to))
  {
    if !(ti.rows == to.rows && to.cols == m.acts[m.len].cols) {
      return Err(ShapeMismatch);
    }
    if ti.cols != m.acts[0].cols {
      return Err(ShapeMismatch);
    }
    var c := CostSum(m, ti, to, sigmoid);
    r := Ok(c / (ti.rows as real));
  }

  /** The outer loop of model_cost: the summed losses over every row of ti, leaving the
      activation rows at the forward pass of the last row. */
  method CostSum(m: Model, ti: Mat, to: Mat, sigmoid: real -> real) returns (c: real)
    requires WellFormed(m) && Separate(m) && Valid(ti) && Valid(to) && ti.rows > 0
    requires DataFits(m, ti, to) && ti.es !in Bufs(m) && to.es !in Bufs(m)
    modifies ActBufs(m)
    ensures c == Sum(Losses(NetOf(m), Value(ti), Value(to), sigmoid))
    ensures ActRows(m) == Forward(NetOf(m), Value(ti)[ti.rows - 1], sigmoid)
    ensures NetOf(m) == old(NetOf(m)) && Value(ti) == old(Value(ti)) && Value(to) == old(Value(to))
  {
    ghost var net, xs, ys := NetOf(m), Value(ti), Value(to);
    ghost var losses := Losses(net, xs, ys, sigmoid);
    c := 0.0;
    for i := 0 to ti.rows
      invariant NetOf(m) == net && Value(ti) == xs && Value(to) == ys
      invariant c == SumTo(losses, i)
      invariant i > 0 ==> ActRows(m) == Forward(net, xs[i - 1], sigmoid)
    {
      c := CostStep(m, ti, to, i, c, sigmoid, net, xs, ys, losses);
    }
    SumToIsSum(losses);
  }

  // ---------------------------------------------------------------------------------------
  // Writing parameters

  /** The matrix of layer l's weights (bias = false) or biases (bias = true). */
  function ParamMats(m: Model, bias: bool): seq<Mat>
  {
    if bias then m.bs else m.ws
  }

  /** The parameter at (row, col) of that matrix; a bias row has the single row 0. */
  function ParamAt(l: nat, bias: bool, row: nat, col: nat): Param
  {
    if bias then B(l, col) else W(l, row, col)
  }

  /** The matrix holding parameter p and p's row in it. */
  function ParamMat(m: Model, p: Param): Mat
    requires WellFormed(m) && p.l < m.len
  {
    match p
    case W(l, _, _) => m.ws[l]
    case B(l, _) => m.bs[l]
  }

  function ParamRow(p: Param): nat
  {
    match p
    case W(_, row, _) => row
    case B(_, _) => 0
  }

  /** Two models of the same widths have matrices of the same shapes and so the same
      parameters. */
  lemma SameArch(m: Model, g: Model)
    requires WellFormed(m) && WellFormed(g) && Arch(g) == Arch(m)
    ensures g.len == m.len
    ensures forall l :: 0 <= l < m.len ==>
      g.ws[l].rows == m.ws[l].rows && g.ws[l].cols == m.ws[l].cols && g.bs[l].cols == m.bs[l].cols
    ensures forall p :: Has(m, p) <==> Has(g, p)
  {
    assert |g.acts| == |Arch(g)| == |Arch(m)| == |m.acts|;
    forall l | 0 <= l < m.len
      ensures g.ws[l].rows == m.ws[l].rows && g.ws[l].cols == m.ws[l].cols && g.bs[l].cols == m.bs[l].cols
    {
      assert Arch(g)[l] == Arch(m)[l] && Arch(g)[l + 1] == Arch(m)[l + 1];
    }
  }

  /** Storing v into parameter p of the model replaces p by v in the held net; no other
      buffer is written. */
  method SetParam(m: Model, p: Param, v: real, ghost net: Net)
    requires WellFormed(m) && Separate(m) && Has(m, p) && NetOf(m) == net
    modifies BufOf(m, p)
    ensures IsParam(net, p) && NetOf(m) == Set(net, p, v)
  {
    NetParams(m);
    var a := ParamMat(m, p);
    ghost var before := Value(a);
    SetAt(a, ParamRow(p), p.col, v);
    forall l | 0 <= l < m.len ensures NetOf(m)[l] == Set(net, p, v)[l] {
      if l != p.l {
        assert m.ws[l].es != a.es && m.bs[l].es != a.es;
      }
    }
  }

  // ---------------------------------------------------------------------------------------
  // Finite differences

  /** The shapes and buffers model_fdiff and model_backprop rely on: the gradient model g has
      m's widths, and no buffer is shared between m, g and the data. */
  predicate GradientFits(m: Model, g: Model, ti: Mat, to: Mat)
  {
    WellFormed(m) && Separate(m) && WellFormed(g) && Separate(g) && Arch(g) == Arch(m) &&
    Valid(ti) && Valid(to) && ti.rows > 0 &&
    Bufs(m) !! Bufs(g) && ti.es !in Bufs(m) + Bufs(g) && to.es !in Bufs(m) + Bufs(g)
  }

  /** What every step of model_fdiff's loops knows about m and the data: the shapes fit and fd
      holds, at every parameter, the quotient of the moved cost against the base cost c. */
  ghost predicate FdiffSetup(m: Model, eps: real, c: real, ti: Mat, to: Mat, sigmoid: real -> real,
                             net: Net, xs: Matrix, ys: Matrix, fd: Net)
  {
    WellFormed(m) && Separate(m) && Valid(ti) && Valid(to) && ti.rows > 0 && DataFits(m, ti, to) &&
    ti.es !in Bufs(m) && to.es !in Bufs(m) && eps != 0.0 && |xs| == |ys| > 0 &&
    IsQuotients(fd, net, xs, ys, sigmoid, eps, c)
  }

  /** A matrix of g that model_fdiff writes: its buffer is none of m's and none of the data's. */
  predicate Apart(a: Mat, m: Model, ti: Mat, to: Mat)
  {
    Valid(a) && a.es !in Bufs(m) && a.es != ti.es && a.es != to.es
  }

  /** The first half of one cell of model_fdiff: parameter p of m is saved and moved by eps,
      and the cost is measured with the moved net. */
  method NudgedCost(m: Model, p: Param, eps: real, ti: Mat, to: Mat, sigmoid: real -> real,
                    ghost net: Net, ghost xs: Matrix, ghost ys: Matrix)
    returns (saved: real, cp: real)
    requires WellFormed(m) && Separate(m) && Has(m, p)
    requires Valid(ti) && Valid(to) && ti.rows > 0 && DataFits(m, ti, to)
    requires ti.es !in Bufs(m) && to.es !in Bufs(m)
    requires NetOf(m) == net && Value(ti) == xs && Value(to) == ys
    modifies Bufs(m)
    ensures IsParam(net, p) && saved == Get(net, p)
    ensures cp == Cost(Nudge(net, p, eps), xs, ys, sigmoid)
    ensures NetOf(m) == Nudge(net, p, eps) && Value(ti) == xs && Value(to) == ys
  {
    saved := NudgeParam(m, p, eps, ti, to, net, xs, ys);
    var r := ModelCost(m, ti, to, sigmoid);
    cp := r.value;
  }

  /** Parameter p of m is saved and moved by eps; nothing else of m or the data changes. */
  method NudgeParam(m: Model, p: Param, eps: real, ti: Mat, to: Mat,
                    ghost net: Net, ghost xs: Matrix, ghost ys: Matrix)
    returns (saved: real)
    requires WellFormed(m) && Separate(m) && Has(m, p) && Valid(ti) && Valid(to)
    requires ti.es !in Bufs(m) && to.es !in Bufs(m)
    requires NetOf(m) == net && Value(ti) == xs && Value(to) == ys
    modifies BufOf(m, p)
    ensures IsParam(net, p) && saved == Get(net, p)
    ensures NetOf(m) == Nudge(net, p, eps) && Value(ti) == xs && Value(to) == ys
  {
    ParamOf(m, p);
    BufOfIn(m, p);
    assert BufOf(m, p) != ti.es && BufOf(m, p) != to.es;
    saved := GetParam(m, p);
    assert Nudge(net, p, eps) == Set(net, p, saved + eps);
    SetParam(m, p, saved + eps, net);
  }

  /** The perturbation of one cell of model_fdiff: the cost with parameter p moved by eps,
      after which p gets its saved value back, so the held net is the one before. */
  method Perturbed(m: Model, p: Param, eps: real, ti: Mat, to: Mat, sigmoid: real -> real,
                   ghost net: Net, ghost xs: Matrix, ghost ys: Matrix)
    returns (cp: real)
    requires WellFormed(m) && Separate(m) && Has(m, p)
    requires Valid(ti) && Valid(to) && ti.rows > 0 && DataFits(m, ti, to)
    requires ti.es !in Bufs(m) && to.es !in Bufs(m)
    requires NetOf(m) == net && Value(ti) == xs && Value(to) == ys
    modifies Bufs(m)
    ensures IsParam(net, p) && cp == Cost(Nudge(net, p, eps), xs, ys, sigmoid)
    ensures NetOf(m) == net && Value(ti) == xs && Value(to) == ys
  {
    var saved;
    saved, cp := NudgedCost(m, p, eps, ti, to, sigmoid, net, xs, ys);
    BufOfIn(m, p);
    assert BufOf(m, p) != ti.es && BufOf(m, p) != to.es;
    NudgeRestore(net, p, eps);
    SetParam(m, p, saved, Nudge(net, p, eps));
  }

  /** One cell of model_fdiff: the difference quotient of the cost with parameter p moved by
      eps against c is stored in cell (row, col) of g's matrix gp; m's net comes back
      unchanged. As fd holds all the quotients, the stored value is fd's entry at p. */
  method FdiffCell(m: Model, p: Param, gp: Mat, eps: real, c: real, ti: Mat, to: Mat, sigmoid: real -> real,
                   ghost net: Net, ghost xs: Matrix, ghost ys: Matrix, ghost fd: Net)
    requires FdiffSetup(m, eps, c, ti, to, sigmoid, net, xs, ys, fd) && Has(m, p) && IsParam(fd, p)
    requires Apart(gp, m, ti, to) && ParamRow(p) < gp.rows && p.col < gp.cols
    requires NetOf(m) == net && Value(ti) == xs && Value(to) == ys
    modifies Bufs(m), gp.es
    ensures NetOf(m) == net && Value(ti) == xs && Value(to) == ys
    ensures Value(gp) == old(Value(gp))[ParamRow(p) := old(Value(gp))[ParamRow(p)][p.col := Get(fd, p)]]
  {
    ghost var before := Value(gp);
    var cp := Perturbed(m, p, eps, ti, to, sigmoid, net, xs, ys);
    assert Value(gp) == before;
    var d := (cp - c) / eps;
    NetParams(m);
    QuotientAt(fd, net, xs, ys, sigmoid, eps, c, p, cp);
    StoreGrad(m, gp, ParamRow(p), p.col, d, ti, to, net, xs, ys);
  }

  /** Store d into cell (row, col) of gp; m and the data are not written. */
  method StoreGrad(m: Model, gp: Mat, row: nat, col: nat, d: real, ti: Mat, to: Mat,
                   ghost net: Net, ghost xs: Matrix, ghost ys: Matrix)
    requires WellFormed(m) && Valid(ti) && Valid(to) && Apart(gp, m, ti, to) && row < gp.rows && col < gp.cols
    requires NetOf(m) == net && Value(ti) == xs && Value(to) == ys
    modifies gp.es
    ensures NetOf(m) == net && Value(ti) == xs && Value(to) == ys
    ensures Value(gp) == old(Value(gp))[row := old(Value(gp))[row][col := d]]
  {
    assert gp.es !in ParamBufs(m);
    SetAt(gp, row, col, d);
  }

  /** The rows of layer i's weights (bias = false) or its bias row (bias = true) in a net. */
  ghost function Want(fd: Net, i: nat, bias: bool): Matrix
    requires i < |fd|
  {
    if bias then [fd[i].b] else fd[i].w
  }

  /** g's matrix a is to receive layer i's weights (or biases) of fd: the shapes agree. */
  ghost predicate Target(m: Model, a: Mat, i: nat, bias: bool, fd: Net)
    requires WellFormed(m)
  {
    i < m.len && i < |fd| && Valid(a) &&
    a.rows == ParamMats(m, bias)[i].rows && a.cols == ParamMats(m, bias)[i].cols &&
    IsShape(Want(fd, i, bias), a.rows, a.cols)
  }

  /** One round of model_fdiff's innermost loop: cell (j, k) of a gets its quotient; the cells
      before it in row j and the other rows keep theirs. */
  method FdiffRowStep(m: Model, a: Mat, i: nat, bias: bool, j: nat, k: nat, eps: real, c: real,
                      ti: Mat, to: Mat, sigmoid: real -> real,
                      ghost net: Net, ghost xs: Matrix, ghost ys: Matrix, ghost fd: Net, ghost start: Matrix)
    requires FdiffSetup(m, eps, c, ti, to, sigmoid, net, xs, ys, fd) && Apart(a, m, ti, to)
    requires Target(m, a, i, bias, fd) && j < a.rows && k < a.cols && |start| == a.rows
    requires NetOf(m) == net && Value(ti) == xs && Value(to) == ys
    requires forall r :: 0 <= r < a.rows && r != j ==> Value(a)[r] == start[r]
    requires forall k' :: 0 <= k' < k ==> Value(a)[j][k'] == Want(fd, i, bias)[j][k']
    modifies Bufs(m), a.es
    ensures NetOf(m) == net && Value(ti) == xs && Value(to) == ys
    ensures forall r :: 0 <= r < a.rows && r != j ==> Value(a)[r] == start[r]
    ensures forall k' :: 0 <= k' < k + 1 ==> Value(a)[j][k'] == Want(fd, i, bias)[j][k']
  {
    var p := ParamAt(i, bias, j, k);
    assert ParamRow(p) == j && p.col == k && Has(m, p);
    NetParams(m);
    SameShapeParams(net, fd, p);
    assert Get(fd, p) == Want(fd, i, bias)[j][k];
    ghost var before := Value(a);
    FdiffCell(m, p, a, eps, c, ti, to, sigmoid, net, xs, ys, fd);
    ghost var after := Value(a);
    assert after == before[j := before[j][k := Want(fd, i, bias)[j][k]]];
    forall r | 0 <= r < a.rows && r != j ensures after[r] == start[r] {
      assert after[r] == before[r];
    }
    forall k' | 0 <= k' < k + 1 ensures after[j][k'] == Want(fd, i, bias)[j][k'] {
      if k' < k {
        assert after[j][k'] == before[j][k'];
      }
    }
  }

  /** model_fdiff's loop over the cells of row j of a: the row becomes fd's row, the other rows
      keep theirs. */
  method FdiffRow(m: Model, a: Mat, i: nat, bias: bool, j: nat, eps: real, c: real, ti: Mat, to: Mat,
                  sigmoid: real -> real, ghost net: Net, ghost xs: Matrix, ghost ys: Matrix, ghost fd: Net)
    requires FdiffSetup(m, eps, c, ti, to, sigmoid, net, xs, ys, fd) && Apart(a, m, ti, to)
    requires Target(m, a, i, bias, fd) && j < a.rows
    requires NetOf(m) == net && Value(ti) == xs && Value(to) == ys
    modifies Bufs(m), a.es
    ensures NetOf(m) == net && Value(ti) == xs && Value(to) == ys
    ensures forall r :: 0 <= r < a.rows && r != j ==> Value(a)[r] == old(Value(a))[r]
    ensures Value(a)[j] == Want(fd, i, bias)[j]
  {
    ghost var start := Value(a);
    for k := 0 to a.cols
      invariant NetOf(m) == net && Value(ti) == xs && Value(to) == ys
      invariant forall r :: 0 <= r < a.rows && r != j ==> Value(a)[r] == start[r]
      invariant forall k' :: 0 <= k' < k ==> Value(a)[j][k'] == Want(fd, i, bias)[j][k']
    {
      FdiffRowStep(m, a, i, bias, j, k, eps, c, ti, to, sigmoid, net, xs, ys, fd, start);
    }
  }

  /** model_fdiff's loop over the rows of a: a comes to hold layer i's weights (or biases)
      of fd. */
  method FdiffMat(m: Model, a: Mat, i: nat, bias: bool, eps: real, c: real, ti: Mat, to: Mat,
                  sigmoid: real -> real, ghost net: Net, ghost xs: Matrix, ghost ys: Matrix, ghost fd: Net)
    requires FdiffSetup(m, eps, c, ti, to, sigmoid, net, xs, ys, fd) && Apart(a, m, ti, to)
    requires Target(m, a, i, bias, fd)
    requires NetOf(m) == net && Value(ti) == xs && Value(to) == ys
    modifies Bufs(m), a.es
    ensures NetOf(m) == net && Value(ti) == xs && Value(to) == ys
    ensures Value(a) == Want(fd, i, bias)
  {
    for j := 0 to a.rows
      invariant NetOf(m) == net && Value(ti) == xs && Value(to) == ys
      invariant forall r :: 0 <= r < j ==> Value(a)[r] == Want(fd, i, bias)[r]
    {
      FdiffMatStep(m, a, i, bias, j, eps, c, ti, to, sigmoid, net, xs, ys, fd);
    }
  }

  /** One round of model_fdiff's loop over the rows of a: rows 0 to j hold fd's rows. */
  method FdiffMatStep(m: Model, a: Mat, i: nat, bias: bool, j: nat, eps: real, c: real, ti: Mat, to: Mat,
                      sigmoid: real -> real, ghost net: Net, ghost xs: Matrix, ghost ys: Matrix, ghost fd: Net)
    requires FdiffSetup(m, eps, c, ti, to, sigmoid, net, xs, ys, fd) && Apart(a, m, ti, to)
    requires Target(m, a, i, bias, fd) && j < a.rows
    requires NetOf(m) == net && Value(ti) == xs && Value(to) == ys
    requires forall r :: 0 <= r < j ==> Value(a)[r] == Want(fd, i, bias)[r]
    modifies Bufs(m), a.es
    ensures NetOf(m) == net && Value(ti) == xs && Value(to) == ys
    ensures forall r :: 0 <= r < j + 1 ==> Value(a)[r] == Want(fd, i, bias)[r]
  {
    ghost var before := Value(a);
    FdiffRow(m, a, i, bias, j, eps, c, ti, to, sigmoid, net, xs, ys, fd);
    ghost var after := Value(a);
    forall r | 0 <= r < j + 1 ensures after[r] == Want(fd, i, bias)[r] {
      if r < j {
        assert after[r] == before[r];
      }
    }
  }

  /** Layer i's weights and biases of g are apart from m and the data and from each other,
      and have the shapes of fd's layer i. */
  lemma FdiffTargets(m: Model, g: Model, i: nat, ti: Mat, to: Mat, net: Net, fd: Net)
    requires GradientFits(m, g, ti, to) && i < m.len && net == NetOf(m) && SameShape(net, fd)
    ensures i < g.len && g.ws[i].es != g.bs[i].es
    ensures Apart(g.ws[i], m, ti, to) && Target(m, g.ws[i], i, false, fd)
    ensures Apart(g.bs[i], m, ti, to) && Target(m, g.bs[i], i, true, fd)
  {
    SameArch(m, g);
    assert g.ws[i].es in MatBufs(g.ws) && g.bs[i].es in MatBufs(g.bs);
    assert net[i] == LayerOf(m, i);
    assert IsShape(fd[i].w, m.ws[i].rows, m.ws[i].cols) by {
      forall row | 0 <= row < |fd[i].w| ensures |fd[i].w[row]| == m.ws[i].cols {
        assert |fd[i].w[row]| == |net[i].w[row]|;
      }
    }
  }

  /** No matrix of g shares a buffer with m. */
  lemma ModelsApart(m: Model, g: Model, ti: Mat, to: Mat)
    requires GradientFits(m, g, ti, to)
    ensures forall l :: 0 <= l < g.len ==> g.ws[l].es !in Bufs(m) && g.bs[l].es !in Bufs(m)
    ensures forall l :: 0 <= l <= g.len ==> g.acts[l].es !in Bufs(m)
  {
    forall l | 0 <= l < g.len ensures g.ws[l].es !in Bufs(m) && g.bs[l].es !in Bufs(m) {
      assert g.ws[l].es in MatBufs(g.ws) && g.bs[l].es in MatBufs(g.bs);
    }
    forall l | 0 <= l <= g.len ensures g.acts[l].es !in Bufs(m) {
      assert g.acts[l].es in MatBufs(g.acts);
    }
  }

  /** Layer i of model_fdiff: layer i of g comes to hold fd's layer i and g's other layers
      keep theirs; m's net and the data keep their values. */
  method FdiffLayer(m: Model, g: Model, i: nat, eps: real, c: real, ti: Mat, to: Mat, sigmoid: real -> real,
                    ghost net: Net, ghost xs: Matrix, ghost ys: Matrix, ghost fd: Net, ghost gnet: Net)
    requires FdiffSetup(m, eps, c, ti, to, sigmoid, net, xs, ys, fd) && WellFormed(g) && i < g.len
    requires g.ws[i].es != g.bs[i].es
    requires Apart(g.ws[i], m, ti, to) && Target(m, g.ws[i], i, false, fd)
    requires Apart(g.bs[i], m, ti, to) && Target(m, g.bs[i], i, true, fd)
    requires forall l :: 0 <= l < g.len ==> g.ws[l].es !in Bufs(m) && g.bs[l].es !in Bufs(m)
    requires forall l :: 0 <= l < g.len && l != i ==>
      g.ws[l].es != g.ws[i].es && g.ws[l].es != g.bs[i].es && g.bs[l].es != g.ws[i].es && g.bs[l].es != g.bs[i].es
    requires NetOf(m) == net && Value(ti) == xs && Value(to) == ys && NetOf(g) == gnet
    modifies Bufs(m), g.ws[i].es, g.bs[i].es
    ensures NetOf(m) == net && Value(ti) == xs && Value(to) == ys
    ensures i < |fd| && NetOf(g) == gnet[i := fd[i]]
  {
    FdiffPair(m, g.ws[i], g.bs[i], i, eps, c, ti, to, sigmoid, net, xs, ys, fd);
    assert LayerOf(g, i) == fd[i];
    assert forall l :: 0 <= l < g.len && l != i ==> LayerOf(g, l) == old(LayerOf(g, l));
    NetFromLayers(g, gnet[i := fd[i]]);
  }

  /** The weights w and the biases b of g's layer i come to hold fd's layer i. */
  method FdiffPair(m: Model, w: Mat, b: Mat, i: nat, eps: real, c: real, ti: Mat, to: Mat, sigmoid: real -> real,
                   ghost net: Net, ghost xs: Matrix, ghost ys: Matrix, ghost fd: Net)
    requires FdiffSetup(m, eps, c, ti, to, sigmoid, net, xs, ys, fd) && w.es != b.es
    requires Apart(w, m, ti, to) && Target(m, w, i, false, fd) && Apart(b, m, ti, to) && Target(m, b, i, true, fd)
    requires NetOf(m) == net && Value(ti) == xs && Value(to) == ys
    modifies Bufs(m), w.es, b.es
    ensures NetOf(m) == net && Value(ti) == xs && Value(to) == ys
    ensures i < |fd| && Value(w) == fd[i].w && Value(b) == [fd[i].b]
  {
    FdiffMat(m, w, i, false, eps, c, ti, to, sigmoid, net, xs, ys, fd);
    ghost var wv := Value(w);
    FdiffMat(m, b, i, true, eps, c, ti, to, sigmoid, net, xs, ys, fd);
    assert Value(w) == wv == fd[i].w;
  }

  /** What layer i of model_fdiff needs of g's buffers: the two it writes fit fd's layer i
      and are apart from m's, the data's and g's other layers'. */
  lemma FdiffPrepare(m: Model, g: Model, i: nat, ti: Mat, to: Mat, net: Net, fd: Net)
    requires GradientFits(m, g, ti, to) && i < m.len && net == NetOf(m) && SameShape(net, fd)
    ensures WellFormed(g) && i < g.len && g.ws[i].es != g.bs[i].es
    ensures g.ws[i].es in ParamBufs(g) && g.bs[i].es in ParamBufs(g)
    ensures Apart(g.ws[i], m, ti, to) && Target(m, g.ws[i], i, false, fd)
    ensures Apart(g.bs[i], m, ti, to) && Target(m, g.bs[i], i, true, fd)
    ensures forall l :: 0 <= l < g.len ==> g.ws[l].es !in Bufs(m) && g.bs[l].es !in Bufs(m)
    ensures forall l :: 0 <= l < g.len && l != i ==>
      g.ws[l].es != g.ws[i].es && g.ws[l].es != g.bs[i].es && g.bs[l].es != g.ws[i].es && g.bs[l].es != g.bs[i].es
  {
    FdiffTargets(m, g, i, ti, to, net, fd);
    assert g.ws[i].es in MatBufs(g.ws) && g.bs[i].es in MatBufs(g.bs);
    ModelsApart(m, g, ti, to);
    LayersApart(g, i);
  }

  /** The parameter buffers of layer i are none of the other layers'. */
  lemma LayersApart(m: Model, i: nat)
    requires WellFormed(m) && Separate(m) && i < m.len
    ensures forall l :: 0 <= l < m.len && l != i ==>
      m.ws[l].es != m.ws[i].es && m.ws[l].es != m.bs[i].es && m.bs[l].es != m.ws[i].es && m.bs[l].es != m.bs[i].es
  {
  }

  /** One round of model_fdiff's loop over the layers: layers 0 to i of g hold fd's. */
  method FdiffStep(m: Model, g: Model, i: nat, eps: real, c: real, ti: Mat, to: Mat, sigmoid: real -> real,
                   ghost net: Net, ghost xs: Matrix, ghost ys: Matrix, ghost fd: Net)
    requires FdiffSetup(m, eps, c, ti, to, sigmoid, net, xs, ys, fd) && GradientFits(m, g, ti, to) && i < m.len
    requires NetOf(m) == net && Value(ti) == xs && Value(to) == ys
    requires i <= g.len && forall l :: 0 <= l < i ==> NetOf(g)[l] == fd[l]
    modifies Bufs(m), ParamBufs(g)
    ensures NetOf(m) == net && Value(ti) == xs && Value(to) == ys
    ensures i < g.len && i < |fd| && forall l :: 0 <= l < i + 1 ==> NetOf(g)[l] == fd[l]
  {
    ghost var before := NetOf(g);
    FdiffPrepare(m, g, i, ti, to, net, fd);
    FdiffLayer(m, g, i, eps, c, ti, to, sigmoid, net, xs, ys, fd, before);
  }

  /** model_fdiff: the cost c of m on the data is measured once; then every weight and bias
      of m in turn is moved by eps, the cost measured again, (cost - c)/eps stored in the same
      cell of g and the parameter restored. So g comes to hold the finite differences of the
      cost and m's net is as before. With unfitting data the first model_cost fails before
      anything is written. Only the parameters of g are written. */
  method ModelFdiff(m: Model, g: Model, eps: real, ti: Mat, to: Mat, sigmoid: real -> real) returns (r: Outcome)
    requires GradientFits(m, g, ti, to) && eps != 0.0
    modifies Bufs(m), ParamBufs(g)
    ensures r.Pass? <==> DataFits(m, ti, to)
    ensures r.Fail? ==> r.error == ShapeMismatch && unchanged(Bufs(m)) && unchanged(ParamBufs(g))
    ensures NetOf(m) == old(NetOf(m)) && Value(ti) == old(Value(ti)) && Value(to) == old(Value(to))
    ensures r.Pass? ==> NetOf(g) == FDiffs(NetOf(m), Value(ti), Value(to), sigmoid, eps)
  {
    ghost var net, xs, ys := NetOf(m), Value(ti), Value(to);
    var cr := ModelCost(m, ti, to, sigmoid);
    if cr.Err? {
      return Fail(ShapeMismatch);
    }
    var c := cr.value;
    FdiffFrom(m, g, eps, c, ti, to, sigmoid, net, xs, ys);
    r := Pass;
  }

  /** model_fdiff after its first model_cost: from the base cost c of net, g comes to hold
      the finite differences. */
  method FdiffFrom(m: Model, g: Model, eps: real, c: real, ti: Mat, to: Mat, sigmoid: real -> real,
                   ghost net: Net, ghost xs: Matrix, ghost ys: Matrix)
    requires GradientFits(m, g, ti, to) && DataFits(m, ti, to) && eps != 0.0
    requires NetOf(m) == net && Value(ti) == xs && Value(to) == ys && c == Cost(net, xs, ys, sigmoid)
    modifies Bufs(m), ParamBufs(g)
    ensures NetOf(m) == net && Value(ti) == xs && Value(to) == ys
    ensures NetOf(g) == FDiffs(net, xs, ys, sigmoid, eps)
  {
    ghost var fd := FDiffs(net, xs, ys, sigmoid, eps);
    FDiffsUnique(fd, net, xs, ys, sigmoid, eps);
    QuotientsAreFDiffs(fd, net, xs, ys, sigmoid, eps, c);
    FdiffLayers(m, g, eps, c, ti, to, sigmoid, net, xs, ys, fd);
  }

  /** model_fdiff's loop over the layers: g comes to hold fd. */
  method FdiffLayers(m: Model, g: Model, eps: real, c: real, ti: Mat, to: Mat, sigmoid: real -> real,
                     ghost net: Net, ghost xs: Matrix, ghost ys: Matrix, ghost fd: Net)
    requires FdiffSetup(m, eps, c, ti, to, sigmoid, net, xs, ys, fd) && GradientFits(m, g, ti, to)
    requires NetOf(m) == net && Value(ti) == xs && Value(to) == ys
    modifies Bufs(m), ParamBufs(g)
    ensures NetOf(m) == net && Value(ti) == xs && Value(to) == ys
    ensures NetOf(g) == fd
  {
    SameArch(m, g);
    for i := 0 to m.len
      invariant NetOf(m) == net && Value(ti) == xs && Value(to) == ys
      invariant forall l :: 0 <= l < i ==> NetOf(g)[l] == fd[l]
    {
      FdiffStep(m, g, i, eps, c, ti, to, sigmoid, net, xs, ys, fd);
    }
    assert |fd| == |net| == m.len;
  }

  // ---------------------------------------------------------------------------------------
  // Backpropagation

  /** The matrices one layer l of model_backprop touches: it reads the activation row a above
      (m.as[l]), its errors da (g.as[l]), the activation row pa below (m.as[l-1]) and the
      weights w (m.ws[l-1]); it adds to the bias row gb, the weights gw and the errors gd
      below (g.bs[l-1], g.ws[l-1], g.as[l-1]). */
  predicate BackpropShapes(a: Mat, da: Mat, pa: Mat, w: Mat, gb: Mat, gw: Mat, gd: Mat)
  {
    Valid(a) && Valid(da) && Valid(pa) && Valid(w) && Valid(gb) && Valid(gw) && Valid(gd) &&
    a.rows == 1 && da.rows == 1 && pa.rows == 1 && gb.rows == 1 && gd.rows == 1 &&
    da.cols == a.cols && gb.cols == a.cols && w.cols == a.cols && gw.cols == a.cols &&
    w.rows == pa.cols && gw.rows == pa.cols && gd.cols == pa.cols &&
    gb.es != gw.es && gb.es != gd.es && gw.es != gd.es &&
    gb.es !in {a.es, da.es, pa.es, w.es} && gw.es !in {a.es, da.es, pa.es, w.es} &&
    gd.es !in {a.es, da.es, pa.es, w.es}
  }

  /** One layer of model_backprop: with S the signal of the errors da over the activations a,
      bias c grows by S[c], weight (k, c) by S[c]*pa[k] and error k below by Σ_c S[c]*w(k, c). */
  method BackpropLayerMats(a: Mat, da: Mat, pa: Mat, w: Mat, gb: Mat, gw: Mat, gd: Mat)
    requires BackpropShapes(a, da, pa, w, gb, gw, gd)
    modifies gb.es, gw.es, gd.es
    ensures var s := Signal(Value(da)[0], Value(a)[0]);
      Value(gb)[0] == BiasAfter(old(Value(gb)[0]), s, |s|) &&
      Value(gw) == WeightsAfter(old(Value(gw)), s, Value(pa)[0], |s|, 0) &&
      Value(gd)[0] == ErrAfter(old(Value(gd)[0]), s, Value(w), |s|, 0)
  {
    ghost var s := Signal(Value(da)[0], Value(a)[0]);
    ghost var b0, w0, d0 := Value(gb)[0], Value(gw), Value(gd)[0];
    AfterStart(b0, w0, d0, s, Value(pa)[0], Value(w));
    for j := 0 to a.cols
      invariant Value(gb)[0] == BiasAfter(b0, s, j)
      invariant Value(gw) == WeightsAfter(w0, s, Value(pa)[0], j, 0)
      invariant Value(gd)[0] == ErrAfter(d0, s, Value(w), j, 0)
    {
      BackpropUnit(a, da, pa, w, gb, gw, gd, j, s, b0, w0, d0);
    }
  }

  /** Unit j of a layer of model_backprop: its signal x = 2*da*a*(1 - a) is added to bias j,
      then the innermost loop runs. */
  method BackpropUnit(a: Mat, da: Mat, pa: Mat, w: Mat, gb: Mat, gw: Mat, gd: Mat, j: nat,
                      ghost s: Vector, ghost b0: Vector, ghost w0: Matrix, ghost d0: Vector)
    requires BackpropShapes(a, da, pa, w, gb, gw, gd) && j < a.cols
    requires s == Signal(Value(da)[0], Value(a)[0]) && |b0| == |s| && IsShape(w0, pa.cols, |s|) && |d0| == pa.cols
    requires Value(gb)[0] == BiasAfter(b0, s, j)
    requires Value(gw) == WeightsAfter(w0, s, Value(pa)[0], j, 0)
    requires Value(gd)[0] == ErrAfter(d0, s, Value(w), j, 0)
    modifies gb.es, gw.es, gd.es
    ensures Value(gb)[0] == BiasAfter(b0, s, j + 1)
    ensures Value(gw) == WeightsAfter(w0, s, Value(pa)[0], j + 1, 0)
    ensures Value(gd)[0] == ErrAfter(d0, s, Value(w), j + 1, 0)
  {
    var act := At(a, 0, j);
    var err := At(da, 0, j);
    var x := 2.0 * err * act * (1.0 - act);
    assert x == s[j];
    var cb := At(gb, 0, j);
    SetAt(gb, 0, j, cb + x);
    BiasAfterStep(b0, s, j);
    BackpropInner(pa, w, gw, gd, j, x, s, w0, d0);
  }

  /** The innermost loop of model_backprop for unit j with signal x: weight (k, j) grows by
      x*pa[k] and error k below by x*w(k, j), for every k. */
  method BackpropInner(pa: Mat, w: Mat, gw: Mat, gd: Mat, j: nat, x: real,
                       ghost s: Vector, ghost w0: Matrix, ghost d0: Vector)
    requires Valid(pa) && Valid(w) && Valid(gw) && Valid(gd) && pa.rows == 1 && gd.rows == 1
    requires w.rows == pa.cols && gw.rows == pa.cols && gd.cols == pa.cols && w.cols == |s| && gw.cols == |s|
    requires j < |s| && x == s[j] && IsShape(w0, pa.cols, |s|) && |d0| == pa.cols
    requires gw.es != gd.es && gw.es != pa.es && gw.es != w.es && gd.es != pa.es && gd.es != w.es
    requires Value(gw) == WeightsAfter(w0, s, Value(pa)[0], j, 0)
    requires Value(gd)[0] == ErrAfter(d0, s, Value(w), j, 0)
    modifies gw.es, gd.es
    ensures Value(gw) == WeightsAfter(w0, s, Value(pa)[0], j + 1, 0)
    ensures Value(gd)[0] == ErrAfter(d0, s, Value(w), j + 1, 0)
  {
    ghost var v, wv := Value(pa)[0], Value(w);
    for k := 0 to pa.cols
      invariant Value(pa)[0] == v && Value(w) == wv
      invariant Value(gw) == WeightsAfter(w0, s, v, j, k)
      invariant Value(gd)[0] == ErrAfter(d0, s, wv, j, k)
    {
      BackpropCell(pa, w, gw, gd, j, k, x, s, w0, d0, v, wv);
    }
    WeightsAfterNext(w0, s, v, j);
    ErrAfterNext(d0, s, wv, j);
  }

  /** Row k of the innermost loop: weight (k, j) += x*pa[k], error k += x*w(k, j). */
  method BackpropCell(pa: Mat, w: Mat, gw: Mat, gd: Mat, j: nat, k: nat, x: real,
                      ghost s: Vector, ghost w0: Matrix, ghost d0: Vector, ghost v: Vector, ghost wv: Matrix)
    requires Valid(pa) && Valid(w) && Valid(gw) && Valid(gd) && pa.rows == 1 && gd.rows == 1
    requires w.rows == pa.cols && gw.rows == pa.cols && gd.cols == pa.cols && w.cols == |s| && gw.cols == |s|
    requires j < |s| && k < pa.cols && x == s[j] && IsShape(w0, pa.cols, |s|) && |d0| == pa.cols
    requires gw.es != gd.es && gw.es != pa.es && gw.es != w.es && gd.es != pa.es && gd.es != w.es
    requires Value(pa)[0] == v && Value(w) == wv
    requires Value(gw) == WeightsAfter(w0, s, v, j, k)
    requires Value(gd)[0] == ErrAfter(d0, s, wv, j, k)
    modifies gw.es, gd.es
    ensures Value(pa)[0] == v && Value(w) == wv
    ensures Value(gw) == WeightsAfter(w0, s, v, j, k + 1)
    ensures Value(gd)[0] == ErrAfter(d0, s, wv, j, k + 1)
  {
    var below := At(pa, 0, k);
    var weight := At(w, k, j);
    ghost var gw0, gd0 := Value(gw), Value(gd)[0];
    AddAt(gw, k, j, x * below);
    WeightsAfterStep(w0, s, v, j, k, gw0, x, below);
    ghost var gw1 := Value(gw);
    assert gw1 == WeightsAfter(w0, s, v, j, k + 1);
    assert Value(gd)[0] == gd0;
    AddAt(gd, 0, k, x * weight);
    ErrAfterStep(d0, s, wv, j, k, gd0, x, weight);
    assert Value(gw) == gw1;
  }

  /** Layer l of model_backprop reads m's rows l and l - 1 and weights l - 1 and g's error
      row l, and writes g's bias row, weights and error row of layer l - 1: all apart. */
  /** No matrix of m has buffer a. */
  predicate Avoids(m: Model, a: array<real>)
    requires WellFormed(m)
  {
    (forall k :: 0 <= k < m.len ==> m.ws[k].es != a && m.bs[k].es != a) &&
    (forall k :: 0 <= k <= m.len ==> m.acts[k].es != a)
  }

  lemma LayerApart(m: Model, g: Model, ti: Mat, to: Mat, l: nat)
    requires GradientFits(m, g, ti, to) && 0 < l <= m.len
    ensures g.len == m.len
    ensures BackpropShapes(m.acts[l], g.acts[l], m.acts[l - 1], m.ws[l - 1], g.bs[l - 1], g.ws[l - 1], g.acts[l - 1])
    ensures Avoids(m, g.bs[l - 1].es) && Avoids(m, g.ws[l - 1].es) && Avoids(m, g.acts[l - 1].es)
    ensures g.bs[l - 1].es in Bufs(g) && g.ws[l - 1].es in Bufs(g) && g.acts[l - 1].es in Bufs(g)
  {
    SameArch(m, g);
    ModelsApart(m, g, ti, to);
    assert m.acts[l].es in MatBufs(m.acts) && m.acts[l - 1].es in MatBufs(m.acts) && m.ws[l - 1].es in MatBufs(m.ws);
    assert g.bs[l - 1].es in MatBufs(g.bs) && g.ws[l - 1].es in MatBufs(g.ws) && g.acts[l - 1].es in MatBufs(g.acts);
    assert Arch(g)[l] == Arch(m)[l] && Arch(g)[l - 1] == Arch(m)[l - 1];
    assert g.bs[l - 1].es !in Bufs(m) && g.ws[l - 1].es !in Bufs(m) && g.acts[l - 1].es !in Bufs(m);
    OutsideAvoids(m, g.bs[l - 1].es);
    OutsideAvoids(m, g.ws[l - 1].es);
    OutsideAvoids(m, g.acts[l - 1].es);
  }

  lemma OutsideAvoids(m: Model, a: array<real>)
    requires WellFormed(m) && a !in Bufs(m)
    ensures Avoids(m, a)
  {
    forall k | 0 <= k < m.len ensures m.ws[k].es != a && m.bs[k].es != a {
      assert m.ws[k].es in MatBufs(m.ws) && m.bs[k].es in MatBufs(m.bs);
    }
    forall k | 0 <= k <= m.len ensures m.acts[k].es != a {
      assert m.acts[k].es in MatBufs(m.acts);
    }
  }

  /** Layer l of model_backprop's downward loop, for one example with activation rows acts
      and target y: with S the signal of g's error row l (the error row of layer l) over m's
      activation row l, g's layer l - 1 grows from lo's to hi's (hi being lo grown by S's
      shares over m's row l - 1) and g's error row l - 1 grows from zeros to the error row of
      layer l - 1. g's other rows and layers are not written. */
  method DownStep(m: Model, g: Model, l: nat, ghost net: Net, ghost acts: seq<Vector>, ghost y: Vector,
                  ghost lo: Net, ghost hi: Net)
    requires WellFormed(m) && WellFormed(g) && Separate(g) && 0 < l <= m.len && g.len == m.len
    requires BackpropShapes(m.acts[l], g.acts[l], m.acts[l - 1], m.ws[l - 1], g.bs[l - 1], g.ws[l - 1], g.acts[l - 1])
    requires |net| == m.len && |acts| == m.len + 1 && |lo| == |hi| == m.len
    requires Value(m.acts[l])[0] == acts[l] && Value(m.acts[l - 1])[0] == acts[l - 1] && Value(m.ws[l - 1]) == net[l - 1].w
    requires Grown(lo, hi, l - 1, Signal(Delta(net, acts, y, l), acts[l]), acts[l - 1])
    requires forall k :: 0 <= k < l ==> LayerOf(g, k) == lo[k]
    requires forall k :: l <= k < g.len ==> LayerOf(g, k) == hi[k]
    requires Value(g.acts[l])[0] == Delta(net, acts, y, l)
    requires forall k :: 0 <= k < l ==> Value(g.acts[k])[0] == Zeros(|acts[k]|)
    modifies g.bs[l - 1].es, g.ws[l - 1].es, g.acts[l - 1].es
    ensures forall k :: 0 <= k < l - 1 ==> LayerOf(g, k) == lo[k]
    ensures forall k :: l - 1 <= k < g.len ==> LayerOf(g, k) == hi[k]
    ensures Value(g.acts[l - 1])[0] == Delta(net, acts, y, l - 1)
    ensures forall k :: 0 <= k < l - 1 ==> Value(g.acts[k])[0] == Zeros(|acts[k]|)
  {
    ghost var s := Signal(Delta(net, acts, y, l), acts[l]);
    BackpropLayerMats(m.acts[l], g.acts[l], m.acts[l - 1], m.ws[l - 1], g.bs[l - 1], g.ws[l - 1], g.acts[l - 1]);
    ErrBelow(net, acts, y, l, s);
    forall k | 0 <= k < g.len && k != l - 1 ensures LayerOf(g, k) == old(LayerOf(g, k)) {
      assert g.ws[k].es != g.ws[l - 1].es && g.bs[k].es != g.bs[l - 1].es;
    }
    forall k | 0 <= k < l - 1 ensures Value(g.acts[k]) == old(Value(g.acts[k])) {
      assert g.acts[k].es != g.acts[l - 1].es;
    }
  }

  /** The state of model_backprop's downward loop for one example with activation rows acts
      and target y when layers len down to l + 1 are done: m holds the layers net and the rows
      acts, g's layers below l hold lo's and the others hi's, g's row l holds the error row of
      layer l and its rows below l are zero. */
  ghost predicate Descending(m: Model, g: Model, l: nat, net: Net, acts: seq<Vector>, y: Vector, lo: Net, hi: Net)
    reads Bufs(m), Bufs(g)
  {
    WellFormed(m) && WellFormed(g) && g.len == m.len && l <= m.len &&
    |net| == m.len && |acts| == m.len + 1 && |lo| == m.len && |hi| == m.len &&
    Holds(m, net, acts) && Carrying(g, l, net, acts, y, lo, hi)
  }

  /** m holds the layers net and the activation rows acts. */
  ghost predicate Holds(m: Model, net: Net, acts: seq<Vector>)
    reads Bufs(m)
    requires WellFormed(m) && |net| == m.len && |acts| == m.len + 1
  {
    (forall k {:trigger LayerOf(m, k)} :: 0 <= k < m.len ==> LayerOf(m, k) == net[k]) &&
    (forall k {:trigger Value(m.acts[k])} :: 0 <= k <= m.len ==> Value(m.acts[k])[0] == acts[k])
  }

  /** g's layers below l hold lo's and the others hi's, its row l holds the error row of
      layer l and its rows below l are zero. */
  ghost predicate Carrying(g: Model, l: nat, net: Net, acts: seq<Vector>, y: Vector, lo: Net, hi: Net)
    reads Bufs(g)
    requires WellFormed(g) && l <= g.len && |net| == g.len && |acts| == g.len + 1 && |lo| == |hi| == g.len
  {
    (forall k {:trigger LayerOf(g, k)} :: 0 <= k < l ==> LayerOf(g, k) == lo[k]) &&
    (forall k {:trigger LayerOf(g, k)} :: l <= k < g.len ==> LayerOf(g, k) == hi[k]) &&
    Value(g.acts[l])[0] == Delta(net, acts, y, l) &&
    (forall k {:trigger Value(g.acts[k])} :: 0 <= k < l ==> Value(g.acts[k])[0] == Zeros(|acts[k]|))
  }

  /** One pass of the downward loop: layer l's shares go into g, m is left as it was. */
  method DownLayer(m: Model, g: Model, ti: Mat, to: Mat, l: nat, ghost net: Net, ghost acts: seq<Vector>,
                   ghost y: Vector, ghost lo: Net, ghost hi: Net)
    requires GradientFits(m, g, ti, to) && 0 < l <= m.len && Descending(m, g, l, net, acts, y, lo, hi)
    requires GrownAt(lo, hi, net, acts, y, l)
    modifies Bufs(g)
    ensures Descending(m, g, l - 1, net, acts, y, lo, hi)
  {
    LayerApart(m, g, ti, to, l);
    assert net[l - 1] == LayerOf(m, l - 1);
    DownStep(m, g, l, net, acts, y, lo, hi);
    KeptLayers(m);
  }

  /** A model whose every buffer is unchanged holds the layers and rows it held. */
  twostate lemma KeptLayers(m: Model)
    requires WellFormed(m)
    requires forall k :: 0 <= k < m.len ==> unchanged(m.ws[k].es) && unchanged(m.bs[k].es)
    requires forall k :: 0 <= k <= m.len ==> unchanged(m.acts[k].es)
    ensures forall k :: 0 <= k < m.len ==> LayerOf(m, k) == old(LayerOf(m, k))
    ensures forall k :: 0 <= k <= m.len ==> Value(m.acts[k]) == old(Value(m.acts[k]))
  {
    forall k | 0 <= k < m.len ensures LayerOf(m, k) == old(LayerOf(m, k)) {
    }
    forall k | 0 <= k <= m.len ensures Value(m.acts[k]) == old(Value(m.acts[k])) {
    }
  }

  /** The held net is n when every layer holds n's. */
  lemma NetFromLayers(m: Model, n: Net)
    requires WellFormed(m) && |n| == m.len
    requires forall k :: 0 <= k < m.len ==> LayerOf(m, k) == n[k]
    ensures NetOf(m) == n
  {
  }

  /** The held rows are rs when every activation buffer holds rs's row. */
  lemma RowsFromLayers(m: Model, rs: seq<Vector>)
    requires WellFormed(m) && |rs| == m.len + 1
    requires forall k :: 0 <= k <= m.len ==> Value(m.acts[k])[0] == rs[k]
    ensures ActRows(m) == rs
  {
  }

  /** model_backprop's downward loop for one example with activation rows acts and target y:
      starting from the error row of the output layer in g's last row and zeros below it,
      layers len down to 1 in turn take g's net from lo to hi, where hi is lo with every layer
      grown by its shares of the signal one row up. m is not written. */
  method BackpropDown(m: Model, g: Model, ti: Mat, to: Mat, ghost net: Net, ghost acts: seq<Vector>,
                      ghost y: Vector, ghost lo: Net, ghost hi: Net)
    requires GradientFits(m, g, ti, to) && Descending(m, g, m.len, net, acts, y, lo, hi)
    requires forall l :: 0 < l <= m.len ==> GrownAt(lo, hi, net, acts, y, l)
    modifies Bufs(g)
    ensures Descending(m, g, 0, net, acts, y, lo, hi)
  {
    var l: nat := m.len;
    while l > 0
      invariant Descending(m, g, l, net, acts, y, lo, hi)
    {
      DownLayer(m, g, ti, to, l, net, acts, y, lo, hi);
      l := l - 1;
    }
  }

  /** A single row whose every cell is zero is the zero vector. */
  lemma ZeroRow(a: Mat)
    requires Valid(a) && a.rows == 1
    requires forall j :: 0 <= j < a.cols ==> At(a, 0, j) == 0.0
    ensures Value(a)[0] == Zeros(a.cols)
  {
    assert forall j :: 0 <= j < a.cols ==> Value(a)[0][j] == Zeros(a.cols)[j];
  }

  /** The first inner loop of model_backprop's example loop: every activation row of g is
      filled with zeros; g's parameters keep their values. */
  method ClearRows(g: Model)
    requires WellFormed(g) && Separate(g)
    modifies ActBufs(g)
    ensures forall k :: 0 <= k <= g.len ==> Value(g.acts[k])[0] == Zeros(g.acts[k].cols)
    ensures unchanged(ParamBufs(g))
  {
    for j := 0 to g.len + 1
      invariant forall k :: 0 <= k < j ==> Value(g.acts[k])[0] == Zeros(g.acts[k].cols)
      invariant unchanged(ParamBufs(g))
    {
      assert g.acts[j].es in ActBufs(g);
      ActNotParam(g, j);
      label Before:
      MatFill(g.acts[j], 0.0);
      ZeroRow(g.acts[j]);
      forall k | 0 <= k < j ensures Value(g.acts[k]) == old@Before(Value(g.acts[k])) {
      }
    }
  }

  /** ClearRows inside model_backprop: m, g's net and the data keep their values. */
  method ClearErrors(m: Model, g: Model, ti: Mat, to: Mat, ghost net: Net, ghost acts: seq<Vector>,
                     ghost lo: Net, ghost xs: Matrix, ghost ys: Matrix)
    requires GradientFits(m, g, ti, to)
    requires NetOf(m) == net && ActRows(m) == acts && NetOf(g) == lo && Value(ti) == xs && Value(to) == ys
    modifies ActBufs(g)
    ensures NetOf(m) == net && ActRows(m) == acts && NetOf(g) == lo && Value(ti) == xs && Value(to) == ys
    ensures forall k :: 0 <= k <= g.len ==> Value(g.acts[k])[0] == Zeros(g.acts[k].cols)
  {
    ClearRows(g);
    Untouched(m);
    ParamsUntouched(g);
  }

  /** The second inner loop of model_backprop's example loop: cell j of the row out becomes
      the difference between cell j of the output row a and cell (i, j) of to. */
  method SeedRow(out: Mat, a: Mat, to: Mat, i: nat)
    requires Valid(out) && Valid(a) && Valid(to) && out.rows == 1 && a.rows == 1 && i < to.rows
    requires out.cols == to.cols && a.cols == to.cols && out.es != a.es && out.es != to.es
    modifies out.es
    ensures forall j :: 0 <= j < to.cols ==> Value(out)[0][j] == Value(a)[0][j] - Value(to)[i][j]
  {
    for j := 0 to to.cols
      invariant forall c :: 0 <= c < j ==> Value(out)[0][c] == Value(a)[0][c] - Value(to)[i][c]
      invariant Value(a) == old(Value(a)) && Value(to) == old(Value(to))
    {
      SetAt(out, 0, j, At(a, 0, j) - At(to, i, j));
    }
  }

  /** SeedRow on g's output row: the rows below keep their zeros and the parameters their
      values. */
  method SeedOut(g: Model, a: Mat, to: Mat, i: nat)
    requires WellFormed(g) && Separate(g) && Valid(a) && Valid(to) && a.rows == 1 && i < to.rows
    requires g.acts[g.len].cols == to.cols && a.cols == to.cols && a.es !in Bufs(g) && to.es !in Bufs(g)
    requires forall k :: 0 <= k < g.len ==> Value(g.acts[k])[0] == Zeros(g.acts[k].cols)
    modifies ActBufs(g)
    ensures unchanged(ParamBufs(g)) && unchanged(a.es) && unchanged(to.es)
    ensures forall k :: 0 <= k < g.len ==> Value(g.acts[k])[0] == Zeros(g.acts[k].cols)
    ensures forall j :: 0 <= j < to.cols ==> Value(g.acts[g.len])[0][j] == Value(a)[0][j] - Value(to)[i][j]
  {
    assert g.acts[g.len].es in ActBufs(g) && g.acts[g.len].es in Bufs(g);
    ActNotParam(g, g.len);
    SeedRow(g.acts[g.len], a, to, i);
    forall k | 0 <= k < g.len ensures Value(g.acts[k]) == old(Value(g.acts[k])) {
    }
  }

  /** The error row of the output layer, cell by cell. */
  lemma OutputDelta(row: Vector, net: Net, acts: seq<Vector>, y: Vector)
    requires |acts| == |net| + 1 && |row| == |y| == |acts[|net|]|
    requires forall j :: 0 <= j < |y| ==> row[j] == acts[|net|][j] - y[j]
    ensures row == Delta(net, acts, y, |net|)
  {
  }

  /** SeedOut inside model_backprop: g's output row becomes the error row of the output layer
      for target row i; g's other rows, its net, m and the data keep their values. */
  method SeedOutput(m: Model, g: Model, ti: Mat, to: Mat, i: nat, ghost net: Net, ghost acts: seq<Vector>,
                    ghost lo: Net, ghost xs: Matrix, ghost ys: Matrix)
    requires GradientFits(m, g, ti, to) && DataFits(m, ti, to) && i < to.rows
    requires NetOf(m) == net && ActRows(m) == acts && NetOf(g) == lo && Value(ti) == xs && Value(to) == ys
    requires forall k :: 0 <= k < g.len ==> Value(g.acts[k])[0] == Zeros(g.acts[k].cols)
    modifies ActBufs(g)
    ensures NetOf(m) == net && ActRows(m) == acts && NetOf(g) == lo && Value(ti) == xs && Value(to) == ys
    ensures Value(g.acts[g.len])[0] == Delta(net, acts, ys[i], m.len)
    ensures forall k :: 0 <= k < g.len ==> Value(g.acts[k])[0] == Zeros(g.acts[k].cols)
  {
    SameArch(m, g);
    assert Arch(g)[g.len] == Arch(m)[m.len];
    SeedBeside(m, g, ti, to, i);
    Untouched(m);
    ParamsUntouched(g);
    OutputDelta(Value(g.acts[g.len])[0], net, acts, ys[i]);
  }

  /** SeedOut from m's output row, seen from m and the data: none of them is written. */
  method SeedBeside(m: Model, g: Model, ti: Mat, to: Mat, i: nat)
    requires GradientFits(m, g, ti, to) && DataFits(m, ti, to) && i < to.rows
    requires g.len == m.len && g.acts[g.len].cols == m.acts[m.len].cols
    requires forall k :: 0 <= k < g.len ==> Value(g.acts[k])[0] == Zeros(g.acts[k].cols)
    modifies ActBufs(g)
    ensures unchanged(Bufs(m)) && unchanged(ParamBufs(g)) && unchanged(ti.es) && unchanged(to.es)
    ensures forall k :: 0 <= k < g.len ==> Value(g.acts[k])[0] == Zeros(g.acts[k].cols)
    ensures forall j :: 0 <= j < to.cols ==>
      Value(g.acts[g.len])[0][j] == Value(m.acts[m.len])[0][j] - Value(to)[i][j]
  {
    assert m.acts[m.len].es in Bufs(m);
    SeedOut(g, m.acts[m.len], to, i);
  }

  /** Feeding input row i inside model_backprop: m's rows become the forward pass of that row;
      m's net, g's net and the data keep their values. */
  method FeedExample(m: Model, g: Model, ti: Mat, to: Mat, i: nat, sigmoid: real -> real,
                     ghost net: Net, ghost lo: Net, ghost xs: Matrix, ghost ys: Matrix)
    requires GradientFits(m, g, ti, to) && DataFits(m, ti, to) && i < ti.rows
    requires NetOf(m) == net && NetOf(g) == lo && Value(ti) == xs && Value(to) == ys
    modifies ActBufs(m)
    ensures NetOf(m) == net && NetOf(g) == lo && Value(ti) == xs && Value(to) == ys
    ensures ActRows(m) == Forward(net, xs[i], sigmoid)
  {
    ActsApart(m, g, ti, to);
    FeedBeside(m, g, ti, to, i, sigmoid);
    ParamsUntouched(g);
  }

  /** FeedRow seen from g and the targets: neither is written. */
  method FeedBeside(m: Model, g: Model, ti: Mat, to: Mat, i: nat, sigmoid: real -> real)
    requires WellFormed(m) && Separate(m) && Valid(ti) && i < ti.rows && ti.cols == m.acts[0].cols
    requires ti.es !in Bufs(m) && ActBufs(m) !! ParamBufs(g) && to.es !in ActBufs(m)
    modifies ActBufs(m)
    ensures ActRows(m) == Forward(NetOf(m), Value(ti)[i], sigmoid)
    ensures NetOf(m) == old(NetOf(m)) && Value(ti) == old(Value(ti))
    ensures unchanged(ParamBufs(g)) && unchanged(to.es)
  {
    FeedRow(m, ti, i, sigmoid);
  }

  /** m's activation buffers are none of g's parameter buffers and not the target data's. */
  lemma ActsApart(m: Model, g: Model, ti: Mat, to: Mat)
    requires GradientFits(m, g, ti, to)
    ensures ActBufs(m) !! ParamBufs(g) && to.es !in ActBufs(m)
  {
  }

  /** The start of the downward loop, from the values model_backprop has set up. */
  lemma StartDescending(m: Model, g: Model, ti: Mat, to: Mat, net: Net, acts: seq<Vector>, y: Vector,
                        lo: Net, hi: Net)
    requires GradientFits(m, g, ti, to) && |hi| == m.len
    requires NetOf(m) == net && ActRows(m) == acts && NetOf(g) == lo
    requires Value(g.acts[g.len])[0] == Delta(net, acts, y, m.len)
    requires forall k :: 0 <= k < g.len ==> Value(g.acts[k])[0] == Zeros(g.acts[k].cols)
    ensures Descending(m, g, m.len, net, acts, y, lo, hi)
  {
    SameArch(m, g);
    forall k | 0 <= k < m.len ensures Value(g.acts[k])[0] == Zeros(|acts[k]|) {
      assert Arch(g)[k] == Arch(m)[k];
    }
  }

  /** The end of the downward loop: m holds net and acts, g holds hi. */
  lemma EndDescending(m: Model, g: Model, net: Net, acts: seq<Vector>, y: Vector, lo: Net, hi: Net)
    requires Descending(m, g, 0, net, acts, y, lo, hi)
    ensures NetOf(m) == net && ActRows(m) == acts && NetOf(g) == hi
  {
    NetFromLayers(m, net);
    RowsFromLayers(m, acts);
    NetFromLayers(g, hi);
  }

  /** One example of model_backprop: after feeding input row i, clearing g's rows, seeding
      g's output row and running the downward loop, g holds the running sums of the terms of
      the examples up to and including i. m's net and the data are not written. */
  method BackpropExample(m: Model, g: Model, ti: Mat, to: Mat, i: nat, sigmoid: real -> real,
                         ghost net: Net, ghost xs: Matrix, ghost ys: Matrix)
    requires GradientFits(m, g, ti, to) && DataFits(m, ti, to) && i < ti.rows
    requires NetOf(m) == net && Value(ti) == xs && Value(to) == ys
    requires NetOf(g) == Acc(net, xs, ys, sigmoid, i)
    modifies ActBufs(m), Bufs(g)
    ensures NetOf(m) == net && Value(ti) == xs && Value(to) == ys
    ensures NetOf(g) == Acc(net, xs, ys, sigmoid, i + 1)
  {
    ghost var lo, hi := Acc(net, xs, ys, sigmoid, i), Acc(net, xs, ys, sigmoid, i + 1);
    FeedExample(m, g, ti, to, i, sigmoid, net, lo, xs, ys);
    ghost var acts := ActRows(m);
    ClearErrors(m, g, ti, to, net, acts, lo, xs, ys);
    SeedOutput(m, g, ti, to, i, net, acts, lo, xs, ys);
    NetParams(m);
    ExampleGrows(net, Arch(m), xs, ys, sigmoid, i, acts);
    StartDescending(m, g, ti, to, net, acts, ys[i], lo, hi);
    BackpropDown(m, g, ti, to, net, acts, ys[i], lo, hi);
    EndDescending(m, g, net, acts, ys[i], lo, hi);
  }

  // ---------------------------------------------------------------------------------------
  // The division by n at the end of model_backprop

  /** Every element of a's window divided by d, in place. */
  method DivideMat(a: Mat, d: real)
    requires Valid(a) && d != 0.0
    modifies a.es
    ensures Value(a) == Divided(old(Value(a)), d)
  {
    ghost var v := Value(a);
    Cells(a);
    for i := 0 to a.rows
      invariant forall i', j' :: 0 <= i' < i && 0 <= j' < a.cols ==> a.es[Idx(a, i', j')] == v[i'][j'] / d
      invariant forall i', j' :: i <= i' < a.rows && 0 <= j' < a.cols ==> a.es[Idx(a, i', j')] == v[i'][j']
    {
      for j := 0 to a.cols
        invariant forall i', j' :: 0 <= i' < i && 0 <= j' < a.cols ==> a.es[Idx(a, i', j')] == v[i'][j'] / d
        invariant forall j' :: 0 <= j' < j ==> a.es[Idx(a, i, j')] == v[i][j'] / d
        invariant forall i', j' :: (i < i' < a.rows && 0 <= j' < a.cols) || (i' == i && j <= j' < a.cols) ==>
          a.es[Idx(a, i', j')] == v[i'][j']
      {
        a.es[Idx(a, i, j)] := a.es[Idx(a, i, j)] / d;
      }
    }
    forall i | 0 <= i < a.rows ensures Value(a)[i] == Divided(v, d)[i] {
    }
  }

  /** Layer l of m with every weight and bias divided by d; the other buffers are not written. */
  method DivideLayer(m: Model, l: nat, d: real)
    requires WellFormed(m) && Separate(m) && l < m.len && d != 0.0
    modifies m.ws[l].es, m.bs[l].es
    ensures LayerOf(m, l) == LayerDivided(old(LayerOf(m, l)), d)
  {
    ghost var b := Value(m.bs[l]);
    assert b == [b[0]];
    DivideMat(m.ws[l], d);
    DivideMat(m.bs[l], d);
  }

  /** The final loops of model_backprop: every parameter of g divided by d. */
  method DivideAll(g: Model, d: real, ghost acc: Net)
    requires WellFormed(g) && Separate(g) && d != 0.0 && NetOf(g) == acc
    modifies ParamBufs(g)
    ensures NetOf(g) == DivideBy(acc, d)
  {
    for i := 0 to g.len
      invariant forall k {:trigger LayerOf(g, k)} :: 0 <= k < i ==> LayerOf(g, k) == LayerDivided(acc[k], d)
      invariant forall k {:trigger LayerOf(g, k)} :: i <= k < g.len ==> LayerOf(g, k) == acc[k]
    {
      assert g.ws[i].es in MatBufs(g.ws) && g.bs[i].es in MatBufs(g.bs);
      label Before:
      DivideLayer(g, i, d);
      forall k | 0 <= k < g.len && k != i ensures LayerOf(g, k) == old@Before(LayerOf(g, k)) {
        assert g.ws[k].es != g.ws[i].es && g.bs[k].es != g.bs[i].es;
        assert g.ws[k].es != g.bs[i].es && g.bs[k].es != g.ws[i].es;
      }
    }
    NetFromLayers(g, DivideBy(acc, d));
  }

  /** DivideAll seen from m and the data: g's activations, m and the data keep their values. */
  method DivideBeside(m: Model, g: Model, ti: Mat, to: Mat, d: real, ghost acc: Net,
                      ghost net: Net, ghost xs: Matrix, ghost ys: Matrix)
    requires GradientFits(m, g, ti, to) && d != 0.0 && NetOf(g) == acc
    requires NetOf(m) == net && Value(ti) == xs && Value(to) == ys
    modifies ParamBufs(g)
    ensures NetOf(g) == DivideBy(acc, d)
    ensures NetOf(m) == net && Value(ti) == xs && Value(to) == ys
  {
    DivideAll(g, d, acc);
    Untouched(m);
  }

  // ---------------------------------------------------------------------------------------
  // model_backprop

  /** model_zero(g) inside model_backprop: m and the data keep their values. */
  method ZeroBeside(m: Model, g: Model, ti: Mat, to: Mat, ghost net: Net, ghost xs: Matrix, ghost ys: Matrix)
    requires GradientFits(m, g, ti, to) && NetOf(m) == net && Value(ti) == xs && Value(to) == ys
    modifies Bufs(g)
    ensures Zeroed(g)
    ensures NetOf(m) == net && Value(ti) == xs && Value(to) == ys
  {
    ModelZero(g);
    Untouched(m);
  }

  /** The state after the first i examples of model_backprop's loop: m and the data hold
      net, xs and ys, and g the running sums of the first i examples' terms. */
  ghost predicate Summed(m: Model, g: Model, ti: Mat, to: Mat, sigmoid: real -> real, i: nat,
                         net: Net, xs: Matrix, ys: Matrix)
    reads ParamBufs(m), ParamBufs(g), ti.es, to.es
    requires WellFormed(m) && WellFormed(g) && Valid(ti) && Valid(to)
  {
    i <= |xs| == |ys| && NetOf(m) == net && Value(ti) == xs && Value(to) == ys &&
    NetOf(g) == Acc(net, xs, ys, sigmoid, i)
  }

  /** The loop over the examples of model_backprop: starting from all-zero sums, g ends
      holding the sums over every example of each parameter's terms. */
  method BackpropSum(m: Model, g: Model, ti: Mat, to: Mat, sigmoid: real -> real,
                     ghost net: Net, ghost xs: Matrix, ghost ys: Matrix)
    requires GradientFits(m, g, ti, to) && DataFits(m, ti, to)
    requires Summed(m, g, ti, to, sigmoid, 0, net, xs, ys)
    modifies ActBufs(m), Bufs(g)
    ensures Summed(m, g, ti, to, sigmoid, ti.rows, net, xs, ys)
  {
    for i := 0 to ti.rows
      invariant Summed(m, g, ti, to, sigmoid, i, net, xs, ys)
    {
      BackpropExample(m, g, ti, to, i, sigmoid, net, xs, ys);
    }
  }

  /** model_backprop: when ti and to have as many rows as each other and to is as wide as the
      output row, g is zeroed and then, if ti is as wide as the input row, g ends holding the
      gradient of the cost at m's net: for every parameter, the mean over the examples of
      twice the output error carried back to it through the sigmoid layers. With rows or
      output widths that do not fit, the assertions fail before anything is written; with an
      unfitting input width the row copy fails after g was zeroed. m's parameters and the data
      are not written. */
  method ModelBackprop(m: Model, g: Model, ti: Mat, to: Mat, sigmoid: real -> real) returns (r: Outcome)
    requires GradientFits(m, g, ti, to)
    modifies ActBufs(m), Bufs(g)
    ensures r.Pass? <==> DataFits(m, ti, to)
    ensures r.Fail? ==> r.error == ShapeMismatch && unchanged(ActBufs(m))
    ensures !(ti.rows == to.rows && to.cols == m.acts[m.len].cols) ==> unchanged(Bufs(g))
    ensures r.Fail? && ti.rows == to.rows && to.cols == m.acts[m.len].cols ==> Zeroed(g)
    ensures r.Pass? ==> NetOf(g) == Gradient(NetOf(m), Value(ti), Value(to), sigmoid)
    ensures NetOf(m) == old(NetOf(m)) && Value(ti) == old(Value(ti)) && Value(to) == old(Value(to))
  {
    if !(ti.rows == to.rows && to.cols == m.acts[m.len].cols) {
      return Fail(ShapeMismatch);
    }
    ghost var net, xs, ys := NetOf(m), Value(ti), Value(to);
    ZeroBeside(m, g, ti, to, net, xs, ys);
    if ti.cols != m.acts[0].cols {
      return Fail(ShapeMismatch);
    }
    ZeroedNet(g);
    NetParams(m);
    NetParams(g);
    FitsSameShape(net, NetOf(g), Arch(m));
    AccZero(net, xs, ys, sigmoid, NetOf(g));
    BackpropSum(m, g, ti, to, sigmoid, net, xs, ys);
    assert |xs| == ti.rows;
    DivideBeside(m, g, ti, to, ti.rows as real, Acc(net, xs, ys, sigmoid, |xs|), net, xs, ys);
    MeanIsGradient(net, xs, ys, sigmoid);
    r := Pass;
  }

  // ---------------------------------------------------------------------------------------
  // model_learn

  /** Every element a(i, j) of the window becomes a(i, j) - rate*g(i, j); g is only read. */
  method LearnMat(a: Mat, g: Mat, rate: real)
    requires Valid(a) && Valid(g) && g.rows == a.rows && g.cols == a.cols && a.es != g.es
    modifies a.es
    ensures Value(a) == Moved(old(Value(a)), Value(g), rate)
  {
    ghost var v, w := Value(a), Value(g);
    ghost var mv := Moved(v, w, rate);
    for i := 0 to a.rows
      invariant Value(g) == w
      invariant forall i', j' :: 0 <= i' < i && 0 <= j' < a.cols ==> At(a, i', j') == mv[i'][j']
      invariant forall i', j' :: i <= i' < a.rows && 0 <= j' < a.cols ==> At(a, i', j') == v[i'][j']
    {
      LearnRow(a, g, i, rate, mv);
    }
    forall i | 0 <= i < a.rows ensures Value(a)[i] == mv[i] {
    }
  }

  /** Row i of LearnMat: each element of the row becomes its value in mv, the other rows keep
      theirs. */
  method LearnRow(a: Mat, g: Mat, i: nat, rate: real, ghost mv: Matrix)
    requires Valid(a) && Valid(g) && g.rows == a.rows && g.cols == a.cols && a.es != g.es && i < a.rows
    requires |mv| == a.rows && |mv[i]| == a.cols
    requires forall j :: 0 <= j < a.cols ==> mv[i][j] == StepCell(At(a, i, j), At(g, i, j), rate)
    modifies a.es
    ensures forall j :: 0 <= j < a.cols ==> At(a, i, j) == mv[i][j]
    ensures forall i', j :: 0 <= i' < a.rows && i' != i && 0 <= j < a.cols ==> At(a, i', j) == old(At(a, i', j))
  {
    ghost var v := Value(a);
    Cells(a);
    for j := 0 to a.cols
      invariant forall j' :: 0 <= j' < j ==> a.es[Idx(a, i, j')] == mv[i][j']
      invariant forall i', j' :: 0 <= i' < a.rows && 0 <= j' < a.cols && (i' != i || j <= j') ==>
        a.es[Idx(a, i', j')] == v[i'][j']
    {
      var x, y := At(g, i, j), a.es[Idx(a, i, j)];
      assert y == v[i][j] && x == old(At(g, i, j));
      a.es[Idx(a, i, j)] := StepCell(y, x, rate);
    }
  }

  /** Layer l of m moved against layer l of g; g's buffers and m's other buffers are not written. */
  method LearnLayer(m: Model, g: Model, l: nat, rate: real)
    requires WellFormed(m) && Separate(m) && WellFormed(g) && l < m.len && l < g.len
    requires g.ws[l].rows == m.ws[l].rows && g.ws[l].cols == m.ws[l].cols && g.bs[l].cols == m.bs[l].cols
    requires Bufs(m) !! Bufs(g)
    modifies m.ws[l].es, m.bs[l].es
    ensures unchanged(ParamBufs(g))
    ensures LayerOf(m, l) == LayerMoved(old(LayerOf(m, l)), LayerOf(g, l), rate)
  {
    ghost var b, gb := Value(m.bs[l]), Value(g.bs[l]);
    assert b == [b[0]] && gb == [gb[0]];
    assert m.ws[l].es in MatBufs(m.ws) && m.bs[l].es in MatBufs(m.bs);
    assert g.ws[l].es in MatBufs(g.ws) && g.bs[l].es in MatBufs(g.bs);
    LearnMat(m.ws[l], g.ws[l], rate);
    LearnMat(m.bs[l], g.bs[l], rate);
  }

  /** The state of model_learn's loop when layers below i are done: those hold target's
      layers, the others net's, and g holds gn. */
  ghost predicate Learning(m: Model, g: Model, i: nat, net: Net, gn: Net, target: Net)
    reads ParamBufs(m), ParamBufs(g)
    requires WellFormed(m) && WellFormed(g)
  {
    i <= m.len && |net| == m.len && |target| == m.len && NetOf(g) == gn &&
    (forall k {:trigger LayerOf(m, k)} :: 0 <= k < i ==> LayerOf(m, k) == target[k]) &&
    (forall k {:trigger LayerOf(m, k)} :: i <= k < m.len ==> LayerOf(m, k) == net[k])
  }

  /** One pass of model_learn's loop: layer i of m moves against g's. */
  method LearnStep(m: Model, g: Model, i: nat, rate: real, ghost net: Net, ghost gn: Net, ghost target: Net)
    requires WellFormed(m) && Separate(m) && WellFormed(g) && Arch(g) == Arch(m) && Bufs(m) !! Bufs(g)
    requires i < m.len && SameShape(net, gn) && target == MovedNet(net, gn, rate)
    requires Learning(m, g, i, net, gn, target)
    modifies m.ws[i].es, m.bs[i].es
    ensures Learning(m, g, i + 1, net, gn, target)
  {
    SameArch(m, g);
    LearnLayer(m, g, i, rate);
    ParamsUntouched(g);
    forall k | 0 <= k < m.len && k != i ensures LayerOf(m, k) == old(LayerOf(m, k)) {
      assert m.ws[k].es != m.ws[i].es && m.bs[k].es != m.bs[i].es;
      assert m.ws[k].es != m.bs[i].es && m.bs[k].es != m.ws[i].es;
    }
  }

  /** The loops of model_learn over m's layers, with g's net gn: every layer of m moves
      against g's. */
  method LearnAll(m: Model, g: Model, rate: real, ghost net: Net, ghost gn: Net)
    requires WellFormed(m) && Separate(m) && WellFormed(g) && Arch(g) == Arch(m) && Bufs(m) !! Bufs(g)
    requires NetOf(m) == net && NetOf(g) == gn && SameShape(net, gn)
    modifies ParamBufs(m)
    ensures NetOf(g) == gn && NetOf(m) == MovedNet(net, gn, rate)
  {
    ghost var target := MovedNet(net, gn, rate);
    for i := 0 to m.len
      invariant Learning(m, g, i, net, gn, target)
    {
      assert m.ws[i].es in MatBufs(m.ws) && m.bs[i].es in MatBufs(m.bs);
      LearnStep(m, g, i, rate, net, gn, target);
    }
    NetFromLayers(m, target);
  }

  /** model_learn: every weight and bias of m moves by -rate times g's; g and m's activation
      rows are not written. */
  method ModelLearn(m: Model, g: Model, rate: real)
    requires WellFormed(m) && Separate(m) && WellFormed(g) && Arch(g) == Arch(m) && Bufs(m) !! Bufs(g)
    modifies ParamBufs(m)
    ensures NetOf(m) == Step(old(NetOf(m)), NetOf(g), rate)
    ensures NetOf(g) == old(NetOf(g)) && ActRows(m) == old(ActRows(m))
  {
    ghost var net, gn := NetOf(m), NetOf(g);
    NetParams(m);
    NetParams(g);
    FitsSameShape(net, gn, Arch(m));
    LearnAll(m, g, rate, net, gn);
    StepLayers(net, gn, rate);
  }

  /** A model none of whose parameter buffers changed holds the net it held. */
  twostate lemma ParamsUntouched(m: Model)
    requires WellFormed(m) && unchanged(ParamBufs(m))
    ensures NetOf(m) == old(NetOf(m))
  {
  }

  /** A model none of whose buffers changed holds the net and rows it held. */
  twostate lemma Untouched(m: Model)
    requires WellFormed(m) && unchanged(Bufs(m))
    ensures NetOf(m) == old(NetOf(m)) && ActRows(m) == old(ActRows(m))
  {
  }
}
