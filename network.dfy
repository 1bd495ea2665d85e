/** The network as a value: what the buffers of a model mean. Every imperative model
    operation is specified by one of these functions. */
module Network {
  import opened Linear

  /** One layer: weights (inputs × outputs) and a bias row (outputs). */
  datatype Layer = Layer(w: Matrix, b: Vector)

  type Net = seq<Layer>

  /** net has the layer widths arch: layer l maps arch[l] inputs to arch[l+1] outputs. */
  predicate Fits(net: Net, arch: seq<nat>)
  {
    |arch| == |net| + 1 &&
    forall l :: 0 <= l < |net| ==> IsShape(net[l].w, arch[l], arch[l + 1]) && |net[l].b| == arch[l + 1]
  }

  // ---------------------------------------------------------------------------------------
  // Forward pass

  /** One layer applied to a row x: y[j] = sigmoid(Σ_k x[k]*w[k][j] + b[j]). */
  function Apply(layer: Layer, x: Vector, sigmoid: real -> real): (y: Vector)
    ensures |y| == |layer.b|
  {
    seq(|layer.b|, j requires 0 <= j < |layer.b| => sigmoid(Dot(x, Col(layer.w, j)) + layer.b[j]))
  }

  /** The activation row of layer l when x is fed to the input. */
  function Activation(net: Net, x: Vector, sigmoid: real -> real, l: nat): Vector
    requires l <= |net|
    decreases l
  {
    if l == 0 then x else Apply(net[l - 1], Activation(net, x, sigmoid, l - 1), sigmoid)
  }

  /** All activation rows, input first and output last. */
  function Forward(net: Net, x: Vector, sigmoid: real -> real): (acts: seq<Vector>)
    ensures |acts| == |net| + 1
  {
    seq(|net| + 1, l requires 0 <= l <= |net| => Activation(net, x, sigmoid, l))
  }

  function Output(net: Net, x: Vector, sigmoid: real -> real): Vector
  {
    Activation(net, x, sigmoid, |net|)
  }

  /** Every activation row of a fitting net has the width its layer declares. */
  lemma {:induction false} ActivationWidth(net: Net, arch: seq<nat>, x: Vector, sigmoid: real -> real, l: nat)
    requires Fits(net, arch) && |x| == arch[0] && l <= |net|
    ensures |Activation(net, x, sigmoid, l)| == arch[l]
  {
    if l > 0 {
      ActivationWidth(net, arch, x, sigmoid, l - 1);
    }
  }

  /** Forward is the only stack of rows that starts at x and in which each row is the
      previous one pushed through its layer. */
  lemma ForwardUnique(net: Net, x: Vector, sigmoid: real -> real, acts: seq<Vector>)
    requires |acts| == |net| + 1 && acts[0] == x
    requires forall l :: 0 <= l < |net| ==> acts[l + 1] == Apply(net[l], acts[l], sigmoid)
    ensures acts == Forward(net, x, sigmoid)
  {
    forall l | 0 <= l <= |net| ensures acts[l] == Activation(net, x, sigmoid, l) {
      ForwardUniqueAt(net, x, sigmoid, acts, l);
    }
  }

  lemma {:induction false} ForwardUniqueAt(net: Net, x: Vector, sigmoid: real -> real, acts: seq<Vector>, l: nat)
    requires |acts| == |net| + 1 && acts[0] == x
    requires forall l :: 0 <= l < |net| ==> acts[l + 1] == Apply(net[l], acts[l], sigmoid)
    requires l <= |net|
    ensures acts[l] == Activation(net, x, sigmoid, l)
  {
    if l > 0 {
      ForwardUniqueAt(net, x, sigmoid, acts, l - 1);
    }
  }

  // ---------------------------------------------------------------------------------------
  // Cost

  /** Squared differences (out[j] - y[j])^2, column by column. */
  function SqDiffs(out: Vector, y: Vector): (d: Vector)
    ensures |d| == Min(|out|, |y|)
  {
    seq(Min(|out|, |y|), j requires 0 <= j < Min(|out|, |y|) => (out[j] - y[j]) * (out[j] - y[j]))
  }

  /** Summed squared error of each example. */
  function Losses(net: Net, xs: Matrix, ys: Matrix, sigmoid: real -> real): (c: Vector)
    requires |xs| == |ys|
    ensures |c| == |ys|
  {
    seq(|ys|, i requires 0 <= i < |ys| => Sum(SqDiffs(Output(net, xs[i], sigmoid), ys[i])))
  }

  /** Mean over the examples of the summed squared error of the output row. */
  function Cost(net: Net, xs: Matrix, ys: Matrix, sigmoid: real -> real): real
    requires |xs| == |ys| > 0
  {
    Sum(Losses(net, xs, ys, sigmoid)) / (|xs| as real)
  }

  lemma SquareNonNegative(e: real)
    ensures e * e >= 0.0
  {
  }

  lemma SqDiffsNonNegative(out: Vector, y: Vector)
    ensures forall j :: 0 <= j < |SqDiffs(out, y)| ==> SqDiffs(out, y)[j] >= 0.0
  {
    forall j | 0 <= j < |SqDiffs(out, y)| ensures SqDiffs(out, y)[j] >= 0.0 {
      SquareNonNegative(out[j] - y[j]);
    }
  }

  /** A row equal to its target has only zero squared differences. */
  lemma SqDiffsOfFit(out: Vector, y: Vector)
    requires out == y
    ensures forall j :: 0 <= j < |SqDiffs(out, y)| ==> SqDiffs(out, y)[j] == 0.0
  {
  }

  lemma CostNonNegative(net: Net, xs: Matrix, ys: Matrix, sigmoid: real -> real)
    requires |xs| == |ys| > 0
    ensures Cost(net, xs, ys, sigmoid) >= 0.0
  {
    var c := Losses(net, xs, ys, sigmoid);
    forall i | 0 <= i < |c| ensures c[i] >= 0.0 {
      SqDiffsNonNegative(Output(net, xs[i], sigmoid), ys[i]);
      SumNonNegative(SqDiffs(Output(net, xs[i], sigmoid), ys[i]));
    }
    SumNonNegative(c);
  }

  /** The cost is zero exactly when every squared difference of every example is zero. */
  lemma CostZeroIff(net: Net, xs: Matrix, ys: Matrix, sigmoid: real -> real)
    requires |xs| == |ys| > 0
    ensures Cost(net, xs, ys, sigmoid) == 0.0 <==>
      forall i, j :: 0 <= i < |xs| && 0 <= j < |SqDiffs(Output(net, xs[i], sigmoid), ys[i])| ==>
        SqDiffs(Output(net, xs[i], sigmoid), ys[i])[j] == 0.0
  {
    var c := Losses(net, xs, ys, sigmoid);
    forall i | 0 <= i < |c|
      ensures c[i] >= 0.0
      ensures c[i] == 0.0 <==> forall j :: 0 <= j < |SqDiffs(Output(net, xs[i], sigmoid), ys[i])| ==>
        SqDiffs(Output(net, xs[i], sigmoid), ys[i])[j] == 0.0
    {
      var d := SqDiffs(Output(net, xs[i], sigmoid), ys[i]);
      SqDiffsNonNegative(Output(net, xs[i], sigmoid), ys[i]);
      SumNonNegative(d);
      SumZeroIff(d);
    }
    SumZeroIff(c);
    MeanZeroIff(Sum(c), |xs|);
  }

  /** A net that maps every example exactly to its target costs nothing. */
  lemma FitCostsZero(net: Net, xs: Matrix, ys: Matrix, sigmoid: real -> real)
    requires |xs| == |ys| > 0
    requires forall i :: 0 <= i < |xs| ==> Output(net, xs[i], sigmoid) == ys[i]
    ensures Cost(net, xs, ys, sigmoid) == 0.0
  {
    forall i | 0 <= i < |xs| {
      SqDiffsOfFit(Output(net, xs[i], sigmoid), ys[i]);
    }
    CostZeroIff(net, xs, ys, sigmoid);
  }

  lemma MeanZeroIff(total: real, n: nat)
    requires n > 0
    ensures total / (n as real) == 0.0 <==> total == 0.0
  {
    var q := total / (n as real);
    assert q * (n as real) == total;
    if q != 0.0 && total == 0.0 {
      assert false;
    }
  }

  // ---------------------------------------------------------------------------------------
  // Parameters

  /** A parameter: weight (row, col) of layer l, or bias col of layer l. */
  datatype Param = W(l: nat, row: nat, col: nat) | B(l: nat, col: nat)

  predicate IsParam(net: Net, p: Param)
  {
    match p
    case W(l, row, col) => l < |net| && row < |net[l].w| && col < |net[l].w[row]|
    case B(l, col) => l < |net| && col < |net[l].b|
  }

  function Get(net: Net, p: Param): real
    requires IsParam(net, p)
  {
    match p
    case W(l, row, col) => net[l].w[row][col]
    case B(l, col) => net[l].b[col]
  }

  /** net with parameter p replaced by v. */
  function Set(net: Net, p: Param, v: real): Net
    requires IsParam(net, p)
  {
    match p
    case W(l, row, col) =>
      var w := net[l].w;
      net[l := Layer(w[row := w[row][col := v]], net[l].b)]
    case B(l, col) =>
      net[l := Layer(net[l].w, net[l].b[col := v])]
  }

  /** Same shape: the same parameters exist in both. */
  predicate SameShape(net: Net, net': Net)
  {
    |net| == |net'| &&
    forall l :: 0 <= l < |net| ==>
      |net[l].w| == |net'[l].w| && |net[l].b| == |net'[l].b| &&
      forall row :: 0 <= row < |net[l].w| ==> |net[l].w[row]| == |net'[l].w[row]|
  }

  /** Two nets with the same widths have the same shape. */
  lemma FitsSameShape(net: Net, net': Net, arch: seq<nat>)
    requires Fits(net, arch) && Fits(net', arch)
    ensures SameShape(net, net')
  {
    forall l | 0 <= l < |net|
      ensures |net[l].w| == |net'[l].w| && |net[l].b| == |net'[l].b|
      ensures forall row :: 0 <= row < |net[l].w| ==> |net[l].w[row]| == |net'[l].w[row]|
    {
      assert IsShape(net[l].w, arch[l], arch[l + 1]) && IsShape(net'[l].w, arch[l], arch[l + 1]);
    }
  }

  /** A net of the same shape as one with some widths has those widths too. */
  lemma SameShapeFits(net: Net, net': Net, arch: seq<nat>)
    requires Fits(net, arch) && SameShape(net, net')
    ensures Fits(net', arch)
  {
  }

  lemma SameShapeParams(net: Net, net': Net, p: Param)
    requires SameShape(net, net')
    ensures IsParam(net, p) <==> IsParam(net', p)
  {
  }

  /** Two nets of the same shape that agree on every parameter are equal. */
  lemma ParamsEqual(net: Net, net': Net)
    requires SameShape(net, net')
    requires forall p :: IsParam(net, p) ==> IsParam(net', p) && Get(net, p) == Get(net', p)
    ensures net == net'
  {
    forall l | 0 <= l < |net| ensures net[l] == net'[l] {
      forall row | 0 <= row < |net[l].w| ensures net[l].w[row] == net'[l].w[row] {
        forall col | 0 <= col < |net[l].w[row]| ensures net[l].w[row][col] == net'[l].w[row][col] {
          assert IsParam(net, W(l, row, col));
        }
      }
      forall col | 0 <= col < |net[l].b| ensures net[l].b[col] == net'[l].b[col] {
        assert IsParam(net, B(l, col));
      }
    }
  }

  /** Set changes parameter p to v, keeps the shape and leaves every other parameter. */
  lemma GetSet(net: Net, p: Param, v: real, q: Param)
    requires IsParam(net, p)
    ensures SameShape(net, Set(net, p, v))
    ensures IsParam(net, q) ==> Get(Set(net, p, v), q) == if q == p then v else Get(net, q)
  {
  }

  /** Writing back a parameter's own value changes nothing. */
  lemma SetGet(net: Net, p: Param)
    requires IsParam(net, p)
    ensures Set(net, p, Get(net, p)) == net
  {
    forall q | IsParam(net, q) ensures IsParam(Set(net, p, Get(net, p)), q) {
      GetSet(net, p, Get(net, p), q);
      SameShapeParams(net, Set(net, p, Get(net, p)), q);
    }
    forall q | IsParam(net, q) ensures Get(net, q) == Get(Set(net, p, Get(net, p)), q) {
      GetSet(net, p, Get(net, p), q);
    }
    GetSet(net, p, Get(net, p), p);
    ParamsEqual(net, Set(net, p, Get(net, p)));
  }

  /** net with parameter p moved by eps, as model_fdiff perturbs it. */
  function Nudge(net: Net, p: Param, eps: real): Net
    requires IsParam(net, p)
  {
    Set(net, p, Get(net, p) + eps)
  }

  /** A second write to the same parameter overrides the first. */
  lemma SetSet(net: Net, p: Param, v: real, u: real)
    requires IsParam(net, p)
    ensures IsParam(Set(net, p, v), p) && Set(Set(net, p, v), p, u) == Set(net, p, u)
  {
    var once := Set(net, p, v);
    GetSet(net, p, v, p);
    SameShapeParams(net, once, p);
    var twice := Set(once, p, u);
    var direct := Set(net, p, u);
    forall q | IsParam(twice, q) ensures IsParam(direct, q) && Get(twice, q) == Get(direct, q) {
      GetSet(once, p, u, q);
      SameShapeParams(once, twice, q);
      GetSet(net, p, v, q);
      SameShapeParams(net, once, q);
      GetSet(net, p, u, q);
      SameShapeParams(net, direct, q);
    }
    GetSet(once, p, u, p);
    GetSet(net, p, u, p);
    ParamsEqual(twice, direct);
  }

  /** Restoring the saved value undoes the perturbation: the net comes back exactly. */
  lemma NudgeRestore(net: Net, p: Param, eps: real)
    requires IsParam(net, p)
    ensures IsParam(Nudge(net, p, eps), p)
    ensures Set(Nudge(net, p, eps), p, Get(net, p)) == net
  {
    SetSet(net, p, Get(net, p) + eps, Get(net, p));
    SetGet(net, p);
  }

  /** A net of net's shape whose parameter p is f(p). */
  function Tabulate(net: Net, f: Param -> real): (t: Net)
    ensures SameShape(net, t)
  {
    seq(|net|, l requires 0 <= l < |net| =>
      Layer(seq(|net[l].w|, row requires 0 <= row < |net[l].w| =>
              seq(|net[l].w[row]|, col requires 0 <= col < |net[l].w[row]| => f(W(l, row, col)))),
            seq(|net[l].b|, col requires 0 <= col < |net[l].b| => f(B(l, col)))))
  }

  lemma TabulateGet(net: Net, f: Param -> real, p: Param)
    requires IsParam(net, p)
    ensures IsParam(Tabulate(net, f), p) && Get(Tabulate(net, f), p) == f(p)
  {
  }

  /** The net of finite differences (cost(net with p moved by eps) - cost(net)) / eps. */
  function FDiff(net: Net, xs: Matrix, ys: Matrix, sigmoid: real -> real, eps: real, p: Param): real
    requires |xs| == |ys| > 0 && eps != 0.0
  {
    if IsParam(net, p) then
      (Cost(Nudge(net, p, eps), xs, ys, sigmoid) - Cost(net, xs, ys, sigmoid)) / eps
    else 0.0
  }

  function FDiffs(net: Net, xs: Matrix, ys: Matrix, sigmoid: real -> real, eps: real): Net
    requires |xs| == |ys| > 0 && eps != 0.0
  {
    Tabulate(net, p => FDiff(net, xs, ys, sigmoid, eps, p))
  }

  /** fd holds, at every parameter of net, its finite difference. */
  ghost predicate IsFDiffs(fd: Net, net: Net, xs: Matrix, ys: Matrix, sigmoid: real -> real, eps: real)
    requires |xs| == |ys| > 0 && eps != 0.0
  {
    SameShape(net, fd) &&
    forall q {:trigger FDiff(net, xs, ys, sigmoid, eps, q)} :: IsParam(fd, q) ==> Get(fd, q) == FDiff(net, xs, ys, sigmoid, eps, q)
  }

  /** FDiffs is the one net that does. */
  lemma FDiffsUnique(fd: Net, net: Net, xs: Matrix, ys: Matrix, sigmoid: real -> real, eps: real)
    requires |xs| == |ys| > 0 && eps != 0.0
    ensures IsFDiffs(FDiffs(net, xs, ys, sigmoid, eps), net, xs, ys, sigmoid, eps)
    ensures IsFDiffs(fd, net, xs, ys, sigmoid, eps) ==> fd == FDiffs(net, xs, ys, sigmoid, eps)
  {
    var f := FDiffs(net, xs, ys, sigmoid, eps);
    forall q | IsParam(f, q) ensures Get(f, q) == FDiff(net, xs, ys, sigmoid, eps, q) {
      SameShapeParams(net, f, q);
      TabulateGet(net, p => FDiff(net, xs, ys, sigmoid, eps, p), q);
    }
    if IsFDiffs(fd, net, xs, ys, sigmoid, eps) {
      forall q | IsParam(fd, q) ensures IsParam(f, q) && Get(fd, q) == Get(f, q) {
        SameShapeParams(net, fd, q);
        SameShapeParams(net, f, q);
      }
      SameShapeTrans(fd, net, f);
      ParamsEqual(fd, f);
    }
  }

  /** Same shape is an equivalence. */
  lemma SameShapeTrans(a: Net, b: Net, c: Net)
    requires SameShape(b, a) && SameShape(b, c)
    ensures SameShape(a, c)
  {
  }

  /** fd holds, at every parameter q, the quotient of the cost with q moved by eps against a
      base cost c, as model_fdiff computes it cell by cell. */
  ghost predicate IsQuotients(fd: Net, net: Net, xs: Matrix, ys: Matrix, sigmoid: real -> real, eps: real, c: real)
    requires |xs| == |ys| > 0 && eps != 0.0
  {
    SameShape(net, fd) &&
    forall q {:trigger Nudge(net, q, eps)} ::
      IsParam(fd, q) ==> Get(fd, q) == (Cost(Nudge(net, q, eps), xs, ys, sigmoid) - c) / eps
  }

  /** The entry of such an fd at one parameter, from the cost measured with it moved. */
  lemma QuotientAt(fd: Net, net: Net, xs: Matrix, ys: Matrix, sigmoid: real -> real, eps: real, c: real,
                   p: Param, moved: real)
    requires |xs| == |ys| > 0 && eps != 0.0 && IsQuotients(fd, net, xs, ys, sigmoid, eps, c)
    requires IsParam(net, p) && moved == Cost(Nudge(net, p, eps), xs, ys, sigmoid)
    ensures IsParam(fd, p) && Get(fd, p) == (moved - c) / eps
  {
    SameShapeParams(net, fd, p);
  }

  /** With the base cost taken at net itself, those quotients are the finite differences. */
  lemma QuotientsAreFDiffs(fd: Net, net: Net, xs: Matrix, ys: Matrix, sigmoid: real -> real, eps: real, c: real)
    requires |xs| == |ys| > 0 && eps != 0.0 && c == Cost(net, xs, ys, sigmoid)
    ensures IsQuotients(fd, net, xs, ys, sigmoid, eps, c) <==> IsFDiffs(fd, net, xs, ys, sigmoid, eps)
  {
    if SameShape(net, fd) {
      forall q | IsParam(fd, q) ensures FDiff(net, xs, ys, sigmoid, eps, q) ==
                                        (Cost(Nudge(net, q, eps), xs, ys, sigmoid) - c) / eps {
        SameShapeParams(net, fd, q);
      }
    }
  }

  /** Moving a parameter that the cost does not depend on gives a zero difference. */
  lemma FDiffOfIrrelevant(net: Net, xs: Matrix, ys: Matrix, sigmoid: real -> real, eps: real, p: Param)
    requires |xs| == |ys| > 0 && eps != 0.0 && IsParam(net, p)
    requires Cost(Nudge(net, p, eps), xs, ys, sigmoid) == Cost(net, xs, ys, sigmoid)
    ensures FDiff(net, xs, ys, sigmoid, eps, p) == 0.0
  {
  }

  // ---------------------------------------------------------------------------------------
  // Backpropagation, as model_backprop computes it

  /** The local signal 2*e[j]*a[j]*(1 - a[j]) of a layer with error row e and activation a. */
  function Signal(e: Vector, a: Vector): (s: Vector)
    ensures |s| == |e|
  {
    seq(|e|, j requires 0 <= j < |e| => 2.0 * e[j] * (if j < |a| then a[j] else 0.0) *
                                       (1.0 - (if j < |a| then a[j] else 0.0)))
  }

  /** The error row of activation layer l for one example with activations acts and target y:
      out - y at the output, and Σ_j s[j]*w[k][j] below it, where s is the signal one layer up. */
  function Delta(net: Net, acts: seq<Vector>, y: Vector, l: nat): (e: Vector)
    requires |acts| == |net| + 1 && l <= |net|
    decreases |net| - l
  {
    if l == |net| then
      seq(|y|, j requires 0 <= j < |y| => (if j < |acts[l]| then acts[l][j] else 0.0) - y[j])
    else
      var s := Signal(Delta(net, acts, y, l + 1), acts[l + 1]);
      seq(|acts[l]|, k requires 0 <= k < |acts[l]| =>
        Dot(s, if k < |net[l].w| then net[l].w[k] else []))
  }

  /** The share of a parameter of a layer with signal s over the activation row v below it:
      s[col]*v[row] for weight (row, col) and s[col] for bias col. */
  function Share(s: Vector, v: Vector, p: Param): real
  {
    match p
    case W(_, row, col) => if col < |s| && row < |v| then s[col] * v[row] else 0.0
    case B(_, col) => if col < |s| then s[col] else 0.0
  }

  /** The contribution of one example (x, y) to parameter p's gradient. */
  function Term(net: Net, x: Vector, y: Vector, sigmoid: real -> real, p: Param): real
  {
    if p.l < |net| then
      var acts := Forward(net, x, sigmoid);
      Share(Signal(Delta(net, acts, y, p.l + 1), acts[p.l + 1]), acts[p.l], p)
    else 0.0
  }

  function Terms(net: Net, xs: Matrix, ys: Matrix, sigmoid: real -> real, p: Param): (t: Vector)
    requires |xs| == |ys|
    ensures |t| == |xs|
  {
    seq(|xs|, i requires 0 <= i < |xs| => Term(net, xs[i], ys[i], sigmoid, p))
  }

  /** The mean over the examples of each parameter's terms. */
  function Gradient(net: Net, xs: Matrix, ys: Matrix, sigmoid: real -> real): Net
    requires |xs| == |ys| > 0
  {
    Tabulate(net, p => Sum(Terms(net, xs, ys, sigmoid, p)) / (|xs| as real))
  }

  /** The running sums of the first i examples' terms, as g holds them in model_backprop
      before the division by n. */
  function Acc(net: Net, xs: Matrix, ys: Matrix, sigmoid: real -> real, i: nat): Net
    requires i <= |xs| == |ys|
  {
    Tabulate(net, p => SumTo(Terms(net, xs, ys, sigmoid, p), i))
  }

  /** Before any example, every running sum is 0. */
  lemma AccZero(net: Net, xs: Matrix, ys: Matrix, sigmoid: real -> real, z: Net)
    requires |xs| == |ys| && SameShape(net, z) && forall p :: IsParam(z, p) ==> Get(z, p) == 0.0
    ensures Acc(net, xs, ys, sigmoid, 0) == z
  {
    var a := Acc(net, xs, ys, sigmoid, 0);
    forall p | IsParam(a, p) ensures IsParam(z, p) && Get(a, p) == Get(z, p) {
      SameShapeParams(net, a, p);
      SameShapeParams(net, z, p);
      TabulateGet(net, q => SumTo(Terms(net, xs, ys, sigmoid, q), 0), p);
    }
    ParamsEqual(a, z);
  }

  /** Example i adds its terms to layer l of the running sums: when its term at weight (k, c)
      is s[c]*v[k] and at bias c is s[c], those are what the sums grow by. */
  lemma AccStep(net: Net, xs: Matrix, ys: Matrix, sigmoid: real -> real, i: nat, l: nat, v: Vector, s: Vector)
    requires i < |xs| == |ys| && l < |net| && IsShape(net[l].w, |v|, |s|) && |net[l].b| == |s|
    requires forall p :: IsParam(net, p) && p.l == l ==> Term(net, xs[i], ys[i], sigmoid, p) == Share(s, v, p)
    ensures var a := Acc(net, xs, ys, sigmoid, i);
      IsShape(a[l].w, |v|, |s|) && |a[l].b| == |s| &&
      Acc(net, xs, ys, sigmoid, i + 1)[l] == Layer(WeightsAfter(a[l].w, s, v, |s|, 0), BiasAfter(a[l].b, s, |s|))
  {
    var a, a' := Acc(net, xs, ys, sigmoid, i), Acc(net, xs, ys, sigmoid, i + 1);
    forall p | IsParam(a, p) && p.l == l
      ensures IsParam(a', p) && Get(a', p) == Get(a, p) + Share(s, v, p)
    {
      SameShapeParams(net, a, p);
      AccNext(net, xs, ys, sigmoid, i, p);
    }
    LayerGrows(a, a', l, s, v);
  }

  /** With acts the forward pass of x and s the signal of layer l + 1, the example's term at
      every parameter of layer l is its share of s over acts[l]. */
  lemma ExampleTerms(net: Net, x: Vector, y: Vector, sigmoid: real -> real, l: nat, acts: seq<Vector>, s: Vector)
    requires l < |net| && acts == Forward(net, x, sigmoid) && s == Signal(Delta(net, acts, y, l + 1), acts[l + 1])
    ensures forall p: Param :: p.l == l ==> Term(net, x, y, sigmoid, p) == Share(s, acts[l], p)
  {
    forall p: Param | p.l == l
      ensures Term(net, x, y, sigmoid, p) == Share(s, acts[l], p)
    {
      TermIs(net, x, y, sigmoid, p);
    }
  }

  /** Layer l of hi is layer l of lo after one whole layer of model_backprop's downward loop
      with signal s over the activation row v below. */
  predicate Grown(lo: Net, hi: Net, l: nat, s: Vector, v: Vector)
  {
    l < |lo| && l < |hi| && IsShape(lo[l].w, |v|, |s|) && |lo[l].b| == |s| &&
    hi[l] == Layer(WeightsAfter(lo[l].w, s, v, |s|, 0), BiasAfter(lo[l].b, s, |s|))
  }

  /** The pass over layer l of the downward loop takes lo's layer l - 1 to hi's: it grows by the
      shares of the signal of error row l over the activations of row l - 1. */
  predicate GrownAt(lo: Net, hi: Net, net: Net, acts: seq<Vector>, y: Vector, l: nat)
    requires |acts| == |net| + 1 && 0 < l <= |net|
  {
    Grown(lo, hi, l - 1, Signal(Delta(net, acts, y, l), acts[l]), acts[l - 1])
  }

  /** For example i, every layer l - 1 of the running sums grows as model_backprop's loop
      over layer l grows it: by the shares of the signal of error row l over the activations
      of row l - 1. */
  lemma ExampleGrows(net: Net, arch: seq<nat>, xs: Matrix, ys: Matrix, sigmoid: real -> real, i: nat,
                     acts: seq<Vector>)
    requires Fits(net, arch) && i < |xs| == |ys| && |xs[i]| == arch[0] && |ys[i]| == arch[|net|]
    requires acts == Forward(net, xs[i], sigmoid)
    ensures var lo, hi := Acc(net, xs, ys, sigmoid, i), Acc(net, xs, ys, sigmoid, i + 1);
      forall l :: 0 < l <= |net| ==> GrownAt(lo, hi, net, acts, ys[i], l)
  {
    forall k | 0 <= k <= |net| ensures |acts[k]| == arch[k] {
      ActivationWidth(net, arch, xs[i], sigmoid, k);
    }
    var lo, hi := Acc(net, xs, ys, sigmoid, i), Acc(net, xs, ys, sigmoid, i + 1);
    forall l | 0 < l <= |net| ensures GrownAt(lo, hi, net, acts, ys[i], l) {
      var s := Signal(Delta(net, acts, ys[i], l), acts[l]);
      ErrWidth(net, arch, acts, ys[i], l);
      ExampleTerms(net, xs[i], ys[i], sigmoid, l - 1, acts, s);
      AccStep(net, xs, ys, sigmoid, i, l - 1, acts[l - 1], s);
    }
  }

  /** A layer whose every weight (k, c) grew by s[c]*v[k] and every bias c by s[c]. */
  lemma LayerGrows(a: Net, a': Net, l: nat, s: Vector, v: Vector)
    requires SameShape(a, a') && l < |a| && IsShape(a[l].w, |v|, |s|) && |a[l].b| == |s|
    requires forall p :: IsParam(a, p) && p.l == l ==> IsParam(a', p) && Get(a', p) == Get(a, p) + Share(s, v, p)
    ensures a'[l] == Layer(WeightsAfter(a[l].w, s, v, |s|, 0), BiasAfter(a[l].b, s, |s|))
  {
    var w := WeightsAfter(a[l].w, s, v, |s|, 0);
    forall k | 0 <= k < |v| ensures a'[l].w[k] == w[k] {
      forall c | 0 <= c < |s| ensures a'[l].w[k][c] == w[k][c] {
        assert IsParam(a, W(l, k, c));
      }
    }
    forall c | 0 <= c < |s| ensures a'[l].b[c] == BiasAfter(a[l].b, s, |s|)[c] {
      assert IsParam(a, B(l, c));
    }
  }

  /** Each running sum grows by the example's term. */
  lemma AccNext(net: Net, xs: Matrix, ys: Matrix, sigmoid: real -> real, i: nat, p: Param)
    requires i < |xs| == |ys| && IsParam(net, p)
    ensures IsParam(Acc(net, xs, ys, sigmoid, i), p) && IsParam(Acc(net, xs, ys, sigmoid, i + 1), p)
    ensures Get(Acc(net, xs, ys, sigmoid, i + 1), p) ==
            Get(Acc(net, xs, ys, sigmoid, i), p) + Term(net, xs[i], ys[i], sigmoid, p)
  {
    TabulateGet(net, q => SumTo(Terms(net, xs, ys, sigmoid, q), i), p);
    TabulateGet(net, q => SumTo(Terms(net, xs, ys, sigmoid, q), i + 1), p);
  }

  /** Dividing every one of the n sums by n gives the gradient. */
  function DivideBy(net: Net, d: real): Net
    requires d != 0.0
  {
    seq(|net|, l requires 0 <= l < |net| => LayerDivided(net[l], d))
  }

  /** One layer with every weight and bias divided by d. */
  function LayerDivided(layer: Layer, d: real): Layer
    requires d != 0.0
  {
    Layer(Divided(layer.w, d), Divided([layer.b], d)[0])
  }

  lemma MeanIsGradient(net: Net, xs: Matrix, ys: Matrix, sigmoid: real -> real)
    requires |xs| == |ys| > 0
    ensures DivideBy(Acc(net, xs, ys, sigmoid, |xs|), |xs| as real) == Gradient(net, xs, ys, sigmoid)
  {
    var n := |xs|;
    var d, g := DivideBy(Acc(net, xs, ys, sigmoid, n), n as real), Gradient(net, xs, ys, sigmoid);
    forall p | IsParam(g, p) ensures IsParam(d, p) && Get(d, p) == Get(g, p) {
      SumToIsSum(Terms(net, xs, ys, sigmoid, p));
    }
    ParamsEqual(g, d);
  }

  // ---------------------------------------------------------------------------------------
  // One layer of model_backprop, unit by unit

  /** Bias row b0 after units c < j of a layer with signal s have added s[c]. */
  function BiasAfter(b0: Vector, s: Vector, j: nat): (b: Vector)
    requires |b0| == |s|
    ensures |b| == |b0|
  {
    seq(|b0|, c requires 0 <= c < |b0| => if c < j then b0[c] + s[c] else b0[c])
  }

  /** Weights w0 after units c < j, and rows k < n of unit j, have added s[c]*v[k] to cell
      (k, c), v being the activation row below. */
  function WeightsAfter(w0: Matrix, s: Vector, v: Vector, j: nat, n: nat): (w: Matrix)
    requires IsShape(w0, |v|, |s|)
    ensures IsShape(w, |v|, |s|)
  {
    seq(|v|, k requires 0 <= k < |v| =>
      seq(|s|, c requires 0 <= c < |s| =>
        if c < j || (c == j && k < n) then w0[k][c] + s[c] * v[k] else w0[k][c]))
  }

  /** Error row d0 below the layer after units c < j, and entries k < n for unit j, have added
      s[c]*w[k][c]. */
  function ErrAfter(d0: Vector, s: Vector, w: Matrix, j: nat, n: nat): (d: Vector)
    requires IsShape(w, |d0|, |s|) && j <= |s|
    ensures |d| == |d0|
  {
    seq(|d0|, k requires 0 <= k < |d0| =>
      d0[k] + DotTo(s, w[k], j) + (if k < n && j < |s| then s[j] * w[k][j] else 0.0))
  }

  /** Before the first unit nothing has been added. */
  lemma AfterStart(b0: Vector, w0: Matrix, d0: Vector, s: Vector, v: Vector, w: Matrix)
    requires |b0| == |s| && IsShape(w0, |v|, |s|) && IsShape(w, |d0|, |s|)
    ensures BiasAfter(b0, s, 0) == b0 && WeightsAfter(w0, s, v, 0, 0) == w0 && ErrAfter(d0, s, w, 0, 0) == d0
  {
    assert WeightsAfter(w0, s, v, 0, 0) == w0 by {
      forall k | 0 <= k < |v| ensures WeightsAfter(w0, s, v, 0, 0)[k] == w0[k] { }
    }
  }

  /** Unit j adds s[j] to bias j. */
  lemma BiasAfterStep(b0: Vector, s: Vector, j: nat)
    requires |b0| == |s| && j < |s|
    ensures BiasAfter(b0, s, j)[j := BiasAfter(b0, s, j)[j] + s[j]] == BiasAfter(b0, s, j + 1)
  {
  }

  /** Row n of unit j adds s[j]*v[n] to weight (n, j). */
  lemma WeightsAfterStep(w0: Matrix, s: Vector, v: Vector, j: nat, n: nat, w: Matrix, x: real, y: real)
    requires IsShape(w0, |v|, |s|) && j < |s| && n < |v|
    requires w == WeightsAfter(w0, s, v, j, n) && x == s[j] && y == v[n]
    ensures w[n := w[n][j := w[n][j] + x * y]] == WeightsAfter(w0, s, v, j, n + 1)
  {
    var w' := WeightsAfter(w0, s, v, j, n + 1);
    var u := w[n := w[n][j := w[n][j] + x * y]];
    forall k | 0 <= k < |v| ensures u[k] == w'[k] {
      forall c | 0 <= c < |s| ensures u[k][c] == w'[k][c] { }
    }
  }

  /** Finishing the rows of unit j is starting unit j + 1. */
  lemma WeightsAfterNext(w0: Matrix, s: Vector, v: Vector, j: nat)
    requires IsShape(w0, |v|, |s|) && j < |s|
    ensures WeightsAfter(w0, s, v, j, |v|) == WeightsAfter(w0, s, v, j + 1, 0)
  {
    forall k | 0 <= k < |v| ensures WeightsAfter(w0, s, v, j, |v|)[k] == WeightsAfter(w0, s, v, j + 1, 0)[k] { }
  }

  /** Row n of unit j adds s[j]*w[n][j] to error n. */
  lemma ErrAfterStep(d0: Vector, s: Vector, w: Matrix, j: nat, n: nat, e: Vector, x: real, y: real)
    requires IsShape(w, |d0|, |s|) && j < |s| && n < |d0|
    requires e == ErrAfter(d0, s, w, j, n) && x == s[j] && y == w[n][j]
    ensures e[n := e[n] + x * y] == ErrAfter(d0, s, w, j, n + 1)
  {
    var e' := ErrAfter(d0, s, w, j, n + 1);
    forall k | 0 <= k < |d0| ensures e[n := e[n] + x * y][k] == e'[k] { }
  }

  lemma ErrAfterNext(d0: Vector, s: Vector, w: Matrix, j: nat)
    requires IsShape(w, |d0|, |s|) && j < |s|
    ensures ErrAfter(d0, s, w, j, |d0|) == ErrAfter(d0, s, w, j + 1, 0)
  {
  }

  /** Starting from zeros, the errors a whole layer l leaves below it are Err's row l - 1. */
  lemma ErrBelow(net: Net, acts: seq<Vector>, y: Vector, l: nat, s: Vector)
    requires 0 < l <= |net| && |acts| == |net| + 1
    requires s == Signal(Delta(net, acts, y, l), acts[l]) && IsShape(net[l - 1].w, |acts[l - 1]|, |s|)
    ensures ErrAfter(Zeros(|acts[l - 1]|), s, net[l - 1].w, |s|, 0) == Delta(net, acts, y, l - 1)
  {
    var w := net[l - 1].w;
    forall k | 0 <= k < |acts[l - 1]| ensures DotTo(s, w[k], |s|) == Dot(s, w[k]) {
      DotToIsDot(s, w[k]);
    }
  }

  /** The error row of every activation layer has that layer's width. */
  lemma ErrWidth(net: Net, arch: seq<nat>, acts: seq<Vector>, y: Vector, l: nat)
    requires Fits(net, arch) && |acts| == |net| + 1 && l <= |net|
    requires (forall k :: 0 <= k <= |net| ==> |acts[k]| == arch[k]) && |y| == arch[|net|]
    ensures |Delta(net, acts, y, l)| == arch[l]
  {
  }

  // ---------------------------------------------------------------------------------------
  // The chain rule, as an independent reference for model_backprop

  /** An error row e pushed back through a logistic unit with activation a, whose derivative
      is a*(1 - a): e[j]*a[j]*(1 - a[j]). */
  function Local(e: Vector, a: Vector): (s: Vector)
    ensures |s| == |e|
  {
    seq(|e|, j requires 0 <= j < |e| => e[j] * (if j < |a| then a[j] else 0.0) *
                                       (1.0 - (if j < |a| then a[j] else 0.0)))
  }

  /** The chain rule for one example's loss Σ_j (out[j] - y[j])²: the derivative of the
      loss with respect to activation row l. It is 2*(out - y) at the output. Below that,
      entry k is the sum over the units j above of Local[j]*w[k][j]. */
  function ChainDelta(net: Net, acts: seq<Vector>, y: Vector, l: nat): (e: Vector)
    requires |acts| == |net| + 1 && l <= |net|
    decreases |net| - l
  {
    if l == |net| then
      seq(|y|, j requires 0 <= j < |y| => 2.0 * ((if j < |acts[l]| then acts[l][j] else 0.0) - y[j]))
    else
      var s := Local(ChainDelta(net, acts, y, l + 1), acts[l + 1]);
      seq(|acts[l]|, k requires 0 <= k < |acts[l]| =>
        Dot(s, if k < |net[l].w| then net[l].w[k] else []))
  }

  /** One example's derivative with respect to parameter p under the chain rule. */
  function ChainTerm(net: Net, x: Vector, y: Vector, sigmoid: real -> real, p: Param): real
  {
    if p.l < |net| then
      var acts := Forward(net, x, sigmoid);
      Share(Local(ChainDelta(net, acts, y, p.l + 1), acts[p.l + 1]), acts[p.l], p)
    else 0.0
  }

  function ChainTerms(net: Net, xs: Matrix, ys: Matrix, sigmoid: real -> real, p: Param): (t: Vector)
    requires |xs| == |ys|
    ensures |t| == |xs|
  {
    seq(|xs|, i requires 0 <= i < |xs| => ChainTerm(net, xs[i], ys[i], sigmoid, p))
  }

  /** The chain-rule gradient of Cost: the mean over the examples of each parameter's
      derivative. */
  function ChainGradient(net: Net, xs: Matrix, ys: Matrix, sigmoid: real -> real): Net
    requires |xs| == |ys| > 0
  {
    Tabulate(net, p => Sum(ChainTerms(net, xs, ys, sigmoid, p)) / (|xs| as real))
  }

  /** model_backprop's signal carries a factor 2 that the chain rule's does not. */
  lemma SignalIsTwiceLocal(e: Vector, a: Vector)
    ensures Signal(e, a) == Scaled(2.0, Local(e, a))
  {
    forall j | 0 <= j < |e| ensures Signal(e, a)[j] == Scaled(2.0, Local(e, a))[j] {
      var x := if j < |a| then a[j] else 0.0;
      assert 2.0 * e[j] * x * (1.0 - x) == 2.0 * (e[j] * x * (1.0 - x));
    }
  }

  lemma LocalScaled(c: real, e: Vector, a: Vector)
    ensures Local(Scaled(c, e), a) == Scaled(c, Local(e, a))
  {
    forall j | 0 <= j < |e| ensures Local(Scaled(c, e), a)[j] == Scaled(c, Local(e, a))[j] {
      var x := if j < |a| then a[j] else 0.0;
      assert (c * e[j]) * x * (1.0 - x) == c * (e[j] * x * (1.0 - x));
    }
  }

  lemma ShareScaled(c: real, s: Vector, v: Vector, p: Param)
    ensures Share(Scaled(c, s), v, p) == c * Share(s, v, p)
  {
    match p
    case W(_, row, col) =>
      if col < |s| && row < |v| {
        assert (c * s[col]) * v[row] == c * (s[col] * v[row]);
      }
    case B(_, _) =>
  }

  /** The signal of activation layer l that model_backprop computes is 2^(len - l) times the
      chain rule's: the seed out - y omits the 2 of the square's derivative, but every
      layer multiplies by 2, not only the output. */
  lemma {:induction false} SignalScaled(net: Net, acts: seq<Vector>, y: Vector, l: nat)
    requires |acts| == |net| + 1 && l <= |net|
    ensures Signal(Delta(net, acts, y, l), acts[l]) ==
            Scaled(Pow2(|net| - l), Local(ChainDelta(net, acts, y, l), acts[l]))
    decreases |net| - l
  {
    var e, ce := Delta(net, acts, y, l), ChainDelta(net, acts, y, l);
    SignalIsTwiceLocal(e, acts[l]);
    if l == |net| {
      assert ce == Scaled(2.0, e);
      LocalScaled(2.0, e, acts[l]);
      ScaledScaled(1.0, 2.0, Local(e, acts[l]));
    } else {
      var c := Pow2(|net| - l - 1);
      SignalScaled(net, acts, y, l + 1);
      var cl := Local(ChainDelta(net, acts, y, l + 1), acts[l + 1]);
      forall k | 0 <= k < |acts[l]| ensures e[k] == Scaled(c, ce)[k] {
        DotScaled(c, cl, if k < |net[l].w| then net[l].w[k] else []);
      }
      assert e == Scaled(c, ce);
      LocalScaled(c, ce, acts[l]);
      ScaledScaled(2.0, c, Local(ce, acts[l]));
    }
  }

  /** A parameter's share of model_backprop's signal over activation row acts[l] is its share
      of the chain rule's, doubled len - 1 - l times. */
  lemma ShareSignalScaled(net: Net, acts: seq<Vector>, y: Vector, p: Param)
    requires |acts| == |net| + 1 && p.l < |net|
    ensures Share(Signal(Delta(net, acts, y, p.l + 1), acts[p.l + 1]), acts[p.l], p) ==
            Doubled(|net| - 1 - p.l, Share(Local(ChainDelta(net, acts, y, p.l + 1), acts[p.l + 1]), acts[p.l], p))
  {
    SignalScaled(net, acts, y, p.l + 1);
    assert |net| - (p.l + 1) == |net| - 1 - p.l;
    ShareDoubled(|net| - 1 - p.l, Signal(Delta(net, acts, y, p.l + 1), acts[p.l + 1]),
                 Local(ChainDelta(net, acts, y, p.l + 1), acts[p.l + 1]), acts[p.l], p);
  }

  lemma ShareDoubled(k: nat, s: Vector, cs: Vector, v: Vector, p: Param)
    requires s == Scaled(Pow2(k), cs)
    ensures Share(s, v, p) == Doubled(k, Share(cs, v, p))
  {
    ShareScaled(Pow2(k), cs, v, p);
    DoubledIsPow2(k, Share(cs, v, p));
  }

  lemma TermIs(net: Net, x: Vector, y: Vector, sigmoid: real -> real, p: Param)
    requires p.l < |net|
    ensures var acts := Forward(net, x, sigmoid);
      Term(net, x, y, sigmoid, p) == Share(Signal(Delta(net, acts, y, p.l + 1), acts[p.l + 1]), acts[p.l], p)
  {
  }

  lemma ChainTermIs(net: Net, x: Vector, y: Vector, sigmoid: real -> real, p: Param)
    requires p.l < |net|
    ensures var acts := Forward(net, x, sigmoid);
      ChainTerm(net, x, y, sigmoid, p) == Share(Local(ChainDelta(net, acts, y, p.l + 1), acts[p.l + 1]), acts[p.l], p)
  {
  }

  /** One example's term at a parameter of layer l is its chain-rule derivative doubled
      len - 1 - l times. */
  lemma TermScaled(net: Net, x: Vector, y: Vector, sigmoid: real -> real, p: Param)
    requires p.l < |net|
    ensures Term(net, x, y, sigmoid, p) == Doubled(|net| - 1 - p.l, ChainTerm(net, x, y, sigmoid, p))
  {
    TermIs(net, x, y, sigmoid, p);
    ChainTermIs(net, x, y, sigmoid, p);
    ShareSignalScaled(net, Forward(net, x, sigmoid), y, p);
  }

  /** model_backprop's result at every parameter of layer l is the chain-rule gradient of the
      cost doubled len - 1 - l times: exact at the output layer, twice too large one layer
      below, and so on. */
  lemma GradientScaled(net: Net, xs: Matrix, ys: Matrix, sigmoid: real -> real, p: Param)
    requires |xs| == |ys| > 0 && IsParam(net, p)
    ensures IsParam(Gradient(net, xs, ys, sigmoid), p) && IsParam(ChainGradient(net, xs, ys, sigmoid), p)
    ensures Get(Gradient(net, xs, ys, sigmoid), p) ==
            Doubled(|net| - 1 - p.l, Get(ChainGradient(net, xs, ys, sigmoid), p))
  {
    GradientDoubled(net, xs, ys, sigmoid, p);
    ChainGradientAt(net, xs, ys, sigmoid, p);
  }

  /** Gradient's entry is the mean of the chain-rule terms, doubled. */
  lemma GradientDoubled(net: Net, xs: Matrix, ys: Matrix, sigmoid: real -> real, p: Param)
    requires |xs| == |ys| > 0 && IsParam(net, p)
    ensures IsParam(Gradient(net, xs, ys, sigmoid), p)
    ensures Get(Gradient(net, xs, ys, sigmoid), p) ==
            Doubled(|net| - 1 - p.l, Sum(ChainTerms(net, xs, ys, sigmoid, p)) / (|xs| as real))
  {
    GradientAt(net, xs, ys, sigmoid, p);
    TermsScaled(net, xs, ys, sigmoid, p);
    MeanDoubled(|net| - 1 - p.l, Terms(net, xs, ys, sigmoid, p), ChainTerms(net, xs, ys, sigmoid, p), |xs| as real);
  }

  lemma GradientAt(net: Net, xs: Matrix, ys: Matrix, sigmoid: real -> real, p: Param)
    requires |xs| == |ys| > 0 && IsParam(net, p)
    ensures IsParam(Gradient(net, xs, ys, sigmoid), p)
    ensures Get(Gradient(net, xs, ys, sigmoid), p) == Sum(Terms(net, xs, ys, sigmoid, p)) / (|xs| as real)
  {
    TabulateGet(net, q => Sum(Terms(net, xs, ys, sigmoid, q)) / (|xs| as real), p);
  }

  lemma ChainGradientAt(net: Net, xs: Matrix, ys: Matrix, sigmoid: real -> real, p: Param)
    requires |xs| == |ys| > 0 && IsParam(net, p)
    ensures IsParam(ChainGradient(net, xs, ys, sigmoid), p)
    ensures Get(ChainGradient(net, xs, ys, sigmoid), p) == Sum(ChainTerms(net, xs, ys, sigmoid, p)) / (|xs| as real)
  {
    TabulateGet(net, q => Sum(ChainTerms(net, xs, ys, sigmoid, q)) / (|xs| as real), p);
  }

  lemma TermsScaled(net: Net, xs: Matrix, ys: Matrix, sigmoid: real -> real, p: Param)
    requires |xs| == |ys| && p.l < |net|
    ensures DoubledEach(|net| - 1 - p.l, Terms(net, xs, ys, sigmoid, p), ChainTerms(net, xs, ys, sigmoid, p))
  {
    forall i | 0 <= i < |xs|
      ensures Terms(net, xs, ys, sigmoid, p)[i] == Doubled(|net| - 1 - p.l, ChainTerms(net, xs, ys, sigmoid, p)[i])
    {
      TermScaled(net, xs[i], ys[i], sigmoid, p);
    }
  }

  /** model_backprop agrees with the chain-rule gradient at parameter p exactly when p is in
      the output layer or the chain-rule derivative there is 0. */
  lemma GradientAgreesIff(net: Net, xs: Matrix, ys: Matrix, sigmoid: real -> real, p: Param)
    requires |xs| == |ys| > 0 && IsParam(net, p)
    ensures IsParam(Gradient(net, xs, ys, sigmoid), p) && IsParam(ChainGradient(net, xs, ys, sigmoid), p)
    ensures Get(Gradient(net, xs, ys, sigmoid), p) == Get(ChainGradient(net, xs, ys, sigmoid), p) <==>
            p.l == |net| - 1 || Get(ChainGradient(net, xs, ys, sigmoid), p) == 0.0
  {
    GradientScaled(net, xs, ys, sigmoid, p);
    DoubledFixed(|net| - 1 - p.l, Get(ChainGradient(net, xs, ys, sigmoid), p));
  }

  /** Widths [1, 1, 1]: weights 0 and 2, biases 0 and -1. Fed x = [0], both pre-activations
      are 0, where the logistic function is 1/2. */
  const TwoLayers: Net := [Layer([[0.0]], [0.0]), Layer([[2.0]], [-1.0])]

  lemma TwoLayersForward(sigmoid: real -> real)
    requires sigmoid(0.0) == 0.5
    ensures Forward(TwoLayers, [0.0], sigmoid) == [[0.0], [0.5], [0.5]]
  {
    var net, x := TwoLayers, [0.0];
    assert Col(net[0].w, 0) == [0.0] && Col(net[1].w, 0) == [2.0];
    DotOfSingles(0.0, 0.0);
    assert Activation(net, x, sigmoid, 1) == [0.5];
    DotOfSingles(0.5, 2.0);
    assert Activation(net, x, sigmoid, 2) == [0.5];
  }

  lemma TwoLayersChain()
    ensures Local(ChainDelta(TwoLayers, [[0.0], [0.5], [0.5]], [0.0], 1), [0.5]) == [0.125]
  {
    var net, acts, y := TwoLayers, [[0.0], [0.5], [0.5]], [0.0];
    var d2 := ChainDelta(net, acts, y, 2);
    assert d2 == [1.0];
    assert Local(d2, acts[2]) == [0.25];
    DotOfSingles(0.25, 2.0);
    assert ChainDelta(net, acts, y, 1) == [0.5];
  }

  /** The chain-rule derivative of the example's loss with respect to the first bias. */
  lemma TwoLayersTerm(sigmoid: real -> real)
    requires sigmoid(0.0) == 0.5
    ensures ChainTerm(TwoLayers, [0.0], [0.0], sigmoid, B(0, 0)) == 0.125
  {
    TwoLayersForward(sigmoid);
    TwoLayersChain();
    ChainTermIs(TwoLayers, [0.0], [0.0], sigmoid, B(0, 0));
  }

  /** On TwoLayers with the single example x = [0], y = [0], the chain-rule derivative for
      the first bias is 1/8, and model_backprop's entry there is twice that. */
  lemma TwoLayerExample(sigmoid: real -> real, net: Net, xs: Matrix, ys: Matrix)
    requires sigmoid(0.0) == 0.5 && net == TwoLayers && xs == [[0.0]] && ys == [[0.0]]
    ensures IsParam(net, B(0, 0))
    ensures Get(ChainGradient(net, xs, ys, sigmoid), B(0, 0)) == 0.125
    ensures Get(Gradient(net, xs, ys, sigmoid), B(0, 0)) == 0.25
  {
    TwoLayersTerm(sigmoid);
    OneExampleChain(net, xs, ys, sigmoid, B(0, 0));
    FirstOfTwoLayers(net, xs, ys, sigmoid, B(0, 0));
  }

  /** With one example, the chain rule's entry is that example's term. */
  lemma OneExampleChain(net: Net, xs: Matrix, ys: Matrix, sigmoid: real -> real, p: Param)
    requires |xs| == |ys| == 1 && IsParam(net, p)
    ensures IsParam(ChainGradient(net, xs, ys, sigmoid), p)
    ensures Get(ChainGradient(net, xs, ys, sigmoid), p) == ChainTerm(net, xs[0], ys[0], sigmoid, p)
  {
    ChainGradientAt(net, xs, ys, sigmoid, p);
    MeanSingle(ChainTerms(net, xs, ys, sigmoid, p), |xs| as real);
  }

  /** In a two-layer net, model_backprop's entry for a first-layer parameter is twice the
      chain rule's. */
  lemma FirstOfTwoLayers(net: Net, xs: Matrix, ys: Matrix, sigmoid: real -> real, p: Param)
    requires |xs| == |ys| > 0 && |net| == 2 && p.l == 0 && IsParam(net, p)
    ensures IsParam(Gradient(net, xs, ys, sigmoid), p) && IsParam(ChainGradient(net, xs, ys, sigmoid), p)
    ensures Get(Gradient(net, xs, ys, sigmoid), p) == 2.0 * Get(ChainGradient(net, xs, ys, sigmoid), p)
  {
    GradientScaled(net, xs, ys, sigmoid, p);
    var cg := Get(ChainGradient(net, xs, ys, sigmoid), p);
    assert |net| - 1 - p.l == 1;
    assert Doubled(1, cg) == 2.0 * Doubled(0, cg);
  }

  lemma DotOfSingles(a: real, b: real)
    ensures Dot([a], [b]) == a * b
  {
    var p := Products([a], [b]);
    assert |p| == 1 && p[0] == a * b;
    assert p[1..] == [];
    assert Sum(p) == p[0] + Sum(p[1..]);
  }

  // ---------------------------------------------------------------------------------------
  // Gradient step

  /** Every parameter p becomes p - rate*g(p), as model_learn does. */
  function Step(net: Net, g: Net, rate: real): (net': Net)
    ensures SameShape(net, net')
  {
    Tabulate(net, p => if IsParam(net, p) && IsParam(g, p) then Get(net, p) - rate * Get(g, p) else 0.0)
  }

  /** Layer g's weights and biases, of the same widths as layer's, scaled by rate and taken
      from layer's, cell by cell as model_learn's loops do. */
  function LayerMoved(layer: Layer, g: Layer, rate: real): Layer
    requires |g.w| == |layer.w| && (forall i :: 0 <= i < |layer.w| ==> |g.w[i]| == |layer.w[i]|)
    requires |g.b| == |layer.b|
  {
    Layer(Moved(layer.w, g.w, rate), Moved([layer.b], [g.b], rate)[0])
  }

  /** Every layer of net moved against g's. */
  function MovedNet(net: Net, g: Net, rate: real): Net
    requires SameShape(net, g)
  {
    seq(|net|, l requires 0 <= l < |net| => LayerMoved(net[l], g[l], rate))
  }

  /** Step, parameter by parameter, is LayerMoved layer by layer. */
  lemma StepLayers(net: Net, g: Net, rate: real)
    requires SameShape(net, g)
    ensures Step(net, g, rate) == MovedNet(net, g, rate)
  {
    var s := Step(net, g, rate);
    forall l | 0 <= l < |net| ensures s[l] == LayerMoved(net[l], g[l], rate) {
      var moved := LayerMoved(net[l], g[l], rate);
      forall row | 0 <= row < |net[l].w| ensures s[l].w[row] == moved.w[row] {
        forall col | 0 <= col < |net[l].w[row]| ensures s[l].w[row][col] == moved.w[row][col] {
          assert IsParam(g, W(l, row, col));
        }
      }
      forall col | 0 <= col < |net[l].b| ensures s[l].b[col] == moved.b[col] {
        assert IsParam(g, B(l, col));
      }
    }
  }

  /** A zero gradient leaves the net where it was. */
  lemma StepZero(net: Net, g: Net, rate: real)
    requires SameShape(net, g)
    requires forall p :: IsParam(g, p) ==> Get(g, p) == 0.0
    ensures Step(net, g, rate) == net
  {
    var net' := Step(net, g, rate);
    forall p | IsParam(net, p) ensures IsParam(net', p) && Get(net, p) == Get(net', p) {
      SameShapeParams(net, g, p);
      TabulateGet(net, q => if IsParam(net, q) && IsParam(g, q) then Get(net, q) - rate * Get(g, q) else 0.0, p);
    }
    ParamsEqual(net, net');
  }

  /** Stepping back with the opposite rate undoes a step. */
  lemma StepInverse(net: Net, g: Net, rate: real)
    requires SameShape(net, g)
    ensures Step(Step(net, g, rate), g, -rate) == net
  {
    var net' := Step(net, g, rate);
    var net'' := Step(net', g, -rate);
    forall p | IsParam(net, p) ensures IsParam(net'', p) && Get(net, p) == Get(net'', p) {
      SameShapeParams(net, g, p);
      SameShapeParams(net, net', p);
      TabulateGet(net, q => if IsParam(net, q) && IsParam(g, q) then Get(net, q) - rate * Get(g, q) else 0.0, p);
      TabulateGet(net', q => if IsParam(net', q) && IsParam(g, q) then Get(net', q) - -rate * Get(g, q) else 0.0, p);
    }
    ParamsEqual(net, net'');
  }
}
