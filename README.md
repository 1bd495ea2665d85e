# A verified model of the cml matrix and network engine

cml is a small C library of two headers:

- `ml.h` holds a dense matrix layer and a feed-forward sigmoid network built on it. The network code covers allocation, zeroing, random initialisation, the forward pass, a mean-squared-error cost, two gradient estimators and a gradient-descent step.
- `neun.h` holds a second copy of the matrix layer.

This project models that engine in Dafny and proves what each operation computes.

The model has five modules, one per file:

| module | file | holds |
|---|---|---|
| `Errors` | `errors.dfy` | The outcomes that stand in for the library's failed assertions: `ShapeMismatch` and `InvalidArchitecture`. |
| `Linear` | `linear.dfy` | Exact real vectors and matrices: sums, dot products, columns, zero rows, element-wise division and the learning step. |
| `Matrices` | `matrices.dfy` | The `Mat` of `ml.h`: a rows × cols window with row pitch `stride` onto a heap `array<real>`, starting at offset `off`. |
| `Network` | `network.dfy` | A network as a value, plus the specification functions for each operation. |
| `Models` | `models.dfy` | The `Model` of `ml.h` and its operations, as imperative methods over the buffers. |

The `Matrices` module models the `MAT_AT` macro as `Idx`. The view that `mat_row` returns is a `Mat` over the same array, so writing through a view writes to its owner. The `mat_*` operations are methods with the source's loops. They are proved against `Value`, the matrix a window holds.

The `Network` module covers:

- the forward pass (`Activation`, `Forward`);
- the per-example losses and the cost (`Losses`, `Cost`);
- a parameter index `Param` with `Get`/`Set`, and finite differences (`FDiff`, `FDiffs`);
- the recurrence that `model_backprop` runs (`Signal`, `Delta`, `Term`, `Acc`, `Gradient`);
- an independent chain-rule recurrence for the derivative of the cost (`Local`, `ChainDelta`, `ChainTerm`, `ChainGradient`);
- the learning step (`Step`).

In the `Models` module, a model holds `len` layers:

- `ws[l]` is the weight matrix of layer `l`;
- `bs[l]` is its bias row;
- `acts[l]` is the activation row feeding layer `l`. The source calls this field `as`, which is a Dafny keyword.

`NetOf(m)` and `ActRows(m)` read the network and the activation rows out of the buffers. Every model operation is a method whose postcondition ties the new buffers to a `Network` function of the old ones:

- `ModelForward`: the rows become `Forward(NetOf(m), row 0)`.
- `ModelCost`: the result is `Cost(...)`.
- `ModelFdiff`: `g` ends holding `FDiffs(...)`.
- `ModelBackprop`: `g` ends holding `Gradient(...)`.
- `ModelLearn`: `m` ends holding `Step(old net, g's net, rate)`.

The definitions that these postconditions measure against:

| definition | source | defines |
|---|---|---|
| `Matrices.Idx` | ml.h:73 | The buffer position `off + i*stride + j` of cell (i, j), as `MAT_AT` computes it. |
| `Network.Forward` | ml.h:239-246 | The activation rows: the input, then each layer applied to the row below it. |
| `Network.Cost` | ml.h:248-269 | The mean over the examples of the summed squared differences between output and target. |
| `Network.FDiffs` | ml.h:272-295 | At every parameter p, (cost with p moved by eps − cost) / eps. |
| `Network.Gradient` | ml.h:298-345 | At every parameter, the mean over the examples of the share that `model_backprop`'s recurrence gives it. |
| `Network.ChainGradient` | ml.h:248-269 | The chain rule applied to `Cost`, with the logistic derivative a*(1 − a). |
| `Network.Step` | ml.h:347-361 | Every parameter p moved to p − rate*g(p). |

The matrix layer of `neun.h` (`neun.h:53-142`) is line for line the same as that of `ml.h` (`ml.h:73-162`). The same members model it. The only differences are the names of its assertion, allocation and random-number macros.

The code checks less than one might expect, and the model follows the code:

- **Building a network.** The code asserts only that the width list is not empty (`ml.h:184`). It does not refuse a single width or a width of 0, so `ModelAlloc` fails only on the empty list.
- **`model_cost`.** Its input-width requirement comes from the `mat_copy` of the first row (`ml.h:116-117`). It is not a separate check.
- **`model_backprop`.** It zeroes `g` (`ml.h:304`) before that first `mat_copy`. With an input matrix of the wrong width, `g` is therefore left zeroed when the copy fails. `ModelBackprop` states exactly that.

`model_backprop` does not compute the gradient of the cost for a net of two or more layers:

- The seed `out - y` (`ml.h:315`) leaves out the factor 2 from the derivative of the square.
- The code applies the factor 2 inside `2*da*a*(1 - a)` (`ml.h:322`, `ml.h:326`, `ml.h:327`) at every layer, not only at the output.
- Below the output, `da` already holds the full derivative, so each further layer down doubles the result once more.

`Network.GradientScaled` proves that its entries for layer l are the chain-rule gradient `ChainGradient` doubled len − 1 − l times. `Network.TwoLayerExample` gives a two-layer case where the first bias gets 1/4 but its chain-rule derivative is 1/8.

`model_fdiff` estimates the derivative itself, up to the error of a finite difference. Below the output layer, the two estimators therefore differ by a power of 2, and each entry keeps its sign. `ModelBackprop` models the code as written.

## Model

| member | source | states |
|---|---|---|
| Matrices.CellInBounds | ml.h:73 | Every MAT_AT position (i, j) of a valid window lies inside the buffer. |
| Matrices.CellInjective | ml.h:73 | Two cells of one window at the same buffer position are the same cell. |
| Matrices.MatAlloc | ml.h:75-84 | The new matrix has the given rows and cols, stride equal to cols and offset 0, over a fresh buffer of rows*cols elements. It is packed, and every cell is in bounds. |
| Matrices.PackedIsValid | ml.h:78-81 | A packed matrix (stride = cols, buffer of rows*cols) is a valid window. |
| Matrices.MatFill | ml.h:86-93 | Every cell of the window holds x; every buffer element outside the window is unchanged. |
| Matrices.MatRand | ml.h:95-102 | Cell (i, j) holds draw number start + i*cols + j of the random stream, scaled into [low, high]. Every cell lies in [low, high], the stream advances by rows*cols, and nothing outside the window changes. |
| Matrices.RandRow | ml.h:98-100 | Row i takes the draws base..base+cols-1 in column order; every other element of the buffer is unchanged. |
| Matrices.ScaledDrawBetween | ml.h:99 | A draw in [0, 1] scaled by (high - low) and shifted by low lies in [low, high] (for low <= high). |
| Matrices.MatRow | ml.h:104-112 | The view shares the owner's buffer and stride; it has one row and the owner's cols; it is valid when the row exists. |
| Matrices.RowViewAliasesRow | ml.h:104-112 | Cell (0, j) of the view is at the buffer position of cell (row, j) of the owner, and no position of another row of the owner. |
| Matrices.RowViewValue | ml.h:104-112 | The view holds exactly the owner's row. |
| Matrices.MatCopy | ml.h:114-124 | Passes iff the shapes agree, and then dst holds src cell for cell. On a mismatch dst is unchanged. Nothing outside dst's window is written. |
| Matrices.MatSum | ml.h:126-136 | Passes iff the shapes agree, and then every cell of dst is its old value plus a's. On a mismatch dst is unchanged. Nothing outside dst's window is written. |
| Matrices.MatDot | ml.h:138-153 | Passes iff a.cols = b.rows, dst.rows = a.rows and dst.cols = b.cols. Then cell (i, j) of dst is the dot product of row i of a and column j of b. On a mismatch dst is unchanged. Nothing outside dst's window is written. |
| Matrices.DotCell | ml.h:146-150 | After the zeroing and the k loop, cell (i, j) is the dot product of row i of a and column j of b; no other element is written. |
| Matrices.RowColIsDot | ml.h:148-150 | The running sum of a(i, k)*b(k, j) over all k is the dot product of row i and column j. |
| Matrices.RowColPrefix | ml.h:148-150 | After k steps the running sum is the sum of the first k products. |
| Matrices.MatSig | ml.h:155-162 | Every cell becomes sigmoid of its old value; nothing outside the window changes. |
| Matrices.AddAt | ml.h:133 | Adding d to cell (i, j) changes that cell of the matrix by d, and no other element of the buffer, inside the window or outside it. |
| Matrices.SetAt | ml.h:90 | Storing v in cell (i, j) changes that cell and nothing else in the buffer. |
| Linear.DotIsDotRec | ml.h:148-150 | The dot product over the pairwise products agrees with the first-to-last recursive dot product. |
| Linear.DotToSumTo | ml.h:148-150 | The left-to-right running dot product after n terms is the sum of the first n pairwise products. |
| Linear.DotToIsDot | ml.h:146-150 | The running dot product over the full length is the dot product. |
| Linear.SumToPrefix | ml.h:262-265 | The running sum after k terms is the sum of the first k elements. |
| Linear.SumToIsSum | ml.h:262-265 | The running sum over the full length is the sum. |
| Linear.SumNonNegative | ml.h:262-265 | A sum of non-negative terms is non-negative. |
| Linear.SumZeroIff | ml.h:262-265 | A sum of non-negative terms is 0 iff every term is 0. |
| Network.ActivationWidth | ml.h:239-246 | For a net of widths arch fed an input of width arch[0], activation row l has width arch[l]. |
| Network.ForwardUnique | ml.h:239-246 | Any sequence of rows that starts at x and whose every row is the previous one through its layer is the forward pass of x. |
| Network.ForwardUniqueAt | ml.h:239-246 | Row l of such a sequence is the activation of layer l. |
| Network.SqDiffsNonNegative | ml.h:263-264 | Every squared difference d*d is non-negative. |
| Network.SqDiffsOfFit | ml.h:263-264 | An output row equal to its target has only zero squared differences. |
| Network.CostNonNegative | ml.h:248-269 | The cost of any net on any non-empty data is non-negative. |
| Network.CostZeroIff | ml.h:248-269 | The cost is 0 iff every squared difference between an output and its target is 0. |
| Network.FitCostsZero | ml.h:248-269 | A net whose outputs equal every target row has cost 0. |
| Network.MeanZeroIff | ml.h:268 | The sum divided by n > 0 is 0 iff the sum is 0. |
| Network.GetSet | ml.h:281 | Writing parameter p keeps the net's shape, changes p to the stored value, and leaves every other parameter as it was. |
| Network.SetGet | ml.h:283 | Writing back the value a parameter holds gives the same net. |
| Network.SetSet | ml.h:281-283 | A second write to a parameter overrides the first. |
| Network.NudgeRestore | ml.h:280-283 | Adding eps to p and then writing back its saved value gives the original net. |
| Network.ParamsEqual | ml.h:277-294 | Two nets of one shape that agree on every parameter are equal. |
| Network.FitsSameShape | ml.h:272-295 | Two nets with the same widths have the same shape, as m and g must for fdiff and backprop. |
| Network.FDiffsUnique | ml.h:272-295 | FDiffs holds, at every parameter, (cost with p moved by eps - cost)/eps and has the net's shape; it is the only such net. |
| Network.QuotientsAreFDiffs | ml.h:275-282 | With c the base cost, a net holds the quotients against c iff it holds the finite differences. |
| Network.QuotientAt | ml.h:282 | A net of quotients holds (moved cost - c)/eps at p. |
| Network.FDiffOfIrrelevant | ml.h:282 | A parameter whose nudge does not change the cost has finite difference 0. |
| Network.TabulateGet | ml.h:277-294 | The net built from a per-parameter function holds that function's value at every parameter. |
| Network.AccZero | ml.h:304 | An all-zero net of the right shape is the running sum of terms before any example. |
| Network.AccStep | ml.h:318-330 | When example i's term at every parameter of layer l is its share of the signal, the running sum after i+1 examples is the one after i plus that share, at each of those parameters. |
| Network.AccNext | ml.h:306-331 | The running sum after i+1 examples is the one after i plus the term of example i, at each parameter. |
| Network.ExampleTerms | ml.h:318-330 | The term for an example at a parameter of layer l is that parameter's share of the signal of layer l+1 over the activation row l. |
| Network.ExampleGrows | ml.h:318-330 | For every layer, the running sum after example i is the one before it with that layer grown by the example's shares, the weights then the biases. |
| Network.LayerGrows | ml.h:319-329 | A layer grown by the shares of signal s over row v, parameter by parameter, equals the layer after the unit loop: bias j + s[j], weight (k, j) + s[j]*v[k]. |
| Network.AfterStart | ml.h:319 | Before any unit of the loop, the bias row, the weights and the error row below are their starting values. |
| Network.BiasAfterStep | ml.h:322 | Unit j adds its signal to bias j. |
| Network.WeightsAfterStep | ml.h:326 | Step k of unit j adds s[j]*pa[k] to weight (k, j). |
| Network.WeightsAfterNext | ml.h:323-328 | The k loop of unit j over every row finishes unit j's weight updates. |
| Network.ErrAfterStep | ml.h:327 | Step k of unit j adds s[j]*w(k, j) to error k of the row below. |
| Network.ErrAfterNext | ml.h:323-328 | The k loop of unit j over every row finishes unit j's error updates. |
| Network.ErrBelow | ml.h:318-330 | Starting from zeros, the error row below layer l after all units is the error row of layer l - 1: the sum over j of s[j]*w(k, j). |
| Network.ErrWidth | ml.h:319-327 | The error row of layer l has layer l's width. |
| Network.MeanIsGradient | ml.h:333-344 | The running sums over all n examples, divided by n, are `Gradient`: at each parameter, the mean of its terms. |
| Network.SignalScaled | ml.h:314-329 | The signal `model_backprop` computes for activation layer l is the chain rule's, scaled by 2^(len − l). |
| Network.ShareSignalScaled | ml.h:322-326 | Each parameter's share of that signal is its chain-rule share doubled len − 1 − l times. |
| Network.TermScaled | ml.h:314-329 | One example's term for a layer-l parameter is its chain-rule derivative doubled len − 1 − l times. |
| Network.GradientScaled | ml.h:298-345 | `Gradient` at every layer-l parameter is `ChainGradient` there doubled len − 1 − l times. Only the output layer is exact. |
| Network.GradientAgreesIff | ml.h:298-345 | `Gradient` equals `ChainGradient` at p iff p is in the output layer or the chain-rule derivative at p is 0. |
| Network.FirstOfTwoLayers | ml.h:298-345 | In a net of two layers, `Gradient` at every first-layer parameter is exactly twice `ChainGradient` there. |
| Network.TwoLayerExample | ml.h:314-327 | On widths [1, 1, 1], with weights 0 and 2, biases 0 and −1, and the example x = [0], y = [0], the first bias's chain-rule derivative is 1/8 while `Gradient` gives 1/4. |
| Network.StepLayers | ml.h:347-361 | The learning step applied parameter by parameter is, layer by layer, every weight and bias minus rate times g's. |
| Network.StepZero | ml.h:347-361 | A step along an all-zero gradient leaves the net unchanged. |
| Network.StepInverse | ml.h:347-361 | A step with rate followed by one with -rate along the same gradient gives back the net. |
| Models.ModelAlloc | ml.h:182-204 | Fails with InvalidArchitecture iff the width list is empty. Otherwise the model has len = widths - 1 layers over fresh, pairwise distinct buffers, with activation widths equal to the given widths. |
| Models.AllocStep | ml.h:197-201 | One pass of the allocation loop adds layer i over three fresh buffers and extends the widths by desc[i]. |
| Models.AllocLayer | ml.h:198-200 | The new layer has weights (previous width × width), a bias row and an activation row of that width, over fresh buffers; earlier matrices are kept. |
| Models.Extend | ml.h:197-201 | Appending a well-shaped layer over buffers outside the model keeps it well formed with pairwise distinct buffers. |
| Models.ExtendWellFormed | ml.h:198-200 | A layer whose weights run from the last width to the new one, and whose bias and activation rows have the new width, keeps the model well formed. |
| Models.ExtendArch | ml.h:197-201 | Appending the layer extends the widths by its width and keeps every earlier matrix. |
| Models.ExtendSeparate | ml.h:190-200 | Three new distinct buffers outside the model keep all of its buffers pairwise distinct. |
| Models.ModelZero | ml.h:206-214 | Every weight, bias and activation cell is 0. |
| Models.ZeroedNet | ml.h:206-214 | A zeroed model holds the all-zero net and all-zero activation rows. |
| Models.ModelRand | ml.h:216-222 | Every weight and bias takes its own draw of the stream, layer by layer, weights row by row before biases. All lie in [low, high], the stream advances by the parameter count, and the activation rows are kept. |
| Models.RandLayer | ml.h:219-220 | Layer l's weights take the draws from base on, then its biases the following ones; other layers keep their parameters. |
| Models.RandStep | ml.h:218-221 | After pass i, the parameters of layers 0..i hold their draws and the stream stands after them. |
| Models.PosInjective | ml.h:216-222 | No two parameters take the same draw. |
| Models.PosOrdered | ml.h:216-222 | Every draw of a lower layer comes before every draw of a higher one. |
| Models.PosBound | ml.h:216-222 | Every draw lies between start and the point where model_rand leaves the stream. |
| Models.PosBelow | ml.h:218-221 | A parameter of layer l takes a draw between the draws consumed before layer l and those consumed through layer l. |
| Models.InLayerInjective | ml.h:219-220 | Two different parameters of one layer take different draws. |
| Models.DrawnMono | ml.h:216-222 | The number of draws consumed grows with the number of layers drawn. |
| Models.RandBetween | ml.h:216-222 | After model_rand every parameter of the held net lies in [low, high]. |
| Models.LayerStep | ml.h:242-244 | dst becomes sigmoid(a·w + b), which is the layer applied to a's row. |
| Models.LayerForward | ml.h:242-244 | Row l+1 becomes layer l applied to row l; every other row and every layer is kept. |
| Models.ForwardStep | ml.h:241-245 | After pass i, rows 0..i+1 are the activations of the input through the first i+1 layers. |
| Models.ModelForward | ml.h:239-246 | The rows become the forward pass of the held net on row 0; the net and row 0 are not written. |
| Models.FeedRow | ml.h:256-260 | Copying input row i into row 0 and running the forward pass leaves the rows at the forward pass of that input; parameters and data are kept. |
| Models.AddLoss | ml.h:261-265 | The inner loop adds the summed squared differences between the output row and target row i; nothing is written. |
| Models.CostStep | ml.h:255-266 | One example adds its loss to the running cost and leaves the rows at its forward pass. |
| Models.CostSum | ml.h:254-266 | The total over the rows is the sum of every example's loss; the rows hold the last example's forward pass. |
| Models.ModelCost | ml.h:248-269 | Succeeds iff the rows of ti and to agree and their widths fit the model. Then it returns the mean over the examples of the summed squared error, and leaves the rows at the last example's forward pass. Otherwise nothing is written. The parameters and the data are never written. |
| Models.SetParam | ml.h:281 | Writing v to parameter p's cell gives the held net with p set to v. |
| Models.NudgeParam | ml.h:280-281 | The saved value is p's value, and the held net becomes the net with p moved by eps. |
| Models.NudgedCost | ml.h:280-282 | The cost is measured with p moved by eps. |
| Models.Perturbed | ml.h:280-283 | Returns the cost with p moved by eps; afterwards the held net is the original one. |
| Models.StoreGrad | ml.h:282 | The quotient is stored in its cell of g; m and the data are not written. |
| Models.FdiffCell | ml.h:280-283 | One parameter's quotient lands in its cell of g, and no other cell of g is written. m's net comes back unchanged. |
| Models.FdiffRowStep | ml.h:279-284 | Cell (j, k) of g's matrix gets its finite difference; earlier cells and other rows keep theirs. |
| Models.FdiffRow | ml.h:279-284 | Row j of g's matrix becomes the finite differences of that row; other rows keep theirs. |
| Models.FdiffMatStep | ml.h:278-285 | Rows 0..j of g's matrix hold their finite differences. |
| Models.FdiffMat | ml.h:278-293 | A whole weight matrix or bias row of g holds the finite differences of layer i's weights or biases. |
| Models.FdiffPair | ml.h:278-293 | Layer i's weight and bias matrices of g both hold their finite differences. |
| Models.FdiffLayer | ml.h:277-294 | Layer i of g holds the finite differences; g's other layers, m's net and the data keep their values. |
| Models.FdiffStep | ml.h:277-294 | After pass i, layers 0..i of g hold the finite differences. |
| Models.FdiffLayers | ml.h:277-294 | After the layer loop, g holds the finite differences against the base cost. |
| Models.FdiffFrom | ml.h:275-294 | From the base cost, g comes to hold FDiffs of the net; m's net is restored. |
| Models.ModelFdiff | ml.h:272-295 | Fails iff the data do not fit, and then nothing of m or g's parameters is written. Otherwise g's net is the finite-difference net of m's net on the data. m's net and the data end as they were. |
| Models.ClearRows | ml.h:310-312 | Every activation row of g is zero; g's parameters are kept. |
| Models.ClearErrors | ml.h:310-312 | Same, with m, g's net and the data kept as they were. |
| Models.SeedRow | ml.h:314-316 | Cell j of g's output row becomes output j minus target (i, j). |
| Models.SeedOut | ml.h:314-316 | The seeding writes only g's output row: the rows below keep their zeros and the parameters are kept. |
| Models.SeedOutput | ml.h:314-316 | g's output row becomes the error row of the output layer for example i; everything else is kept. |
| Models.SeedBeside | ml.h:314-316 | The seeding writes only g's activation buffers: g's output row becomes output minus target, the rows below stay zero, and m and the data are kept. |
| Models.OutputDelta | ml.h:314-316 | The seeded row is the output layer's error row, Delta at the top layer. |
| Models.BackpropCell | ml.h:323-328 | Step k of the innermost loop: weight (k, j) of g grows by x*pa[k], and error k below by x*w(k, j). |
| Models.BackpropInner | ml.h:323-328 | The k loop applies every row's two updates for unit j. |
| Models.BackpropUnit | ml.h:319-329 | Unit j: the signal 2*da*a*(1-a) is added to bias j, then the k loop runs. |
| Models.BackpropLayerMats | ml.h:319-329 | After all units, g's bias row, weights and error row below are the values the per-unit recurrences give. |
| Models.DownStep | ml.h:319-329 | Layer l's shares go into g's layer l-1, and g's row l-1 becomes the error row of layer l-1. Other layers and rows are kept. |
| Models.DownLayer | ml.h:318-330 | One pass of the downward loop keeps the loop state one layer lower; m is not written. |
| Models.BackpropDown | ml.h:318-330 | The descent from the top layer to layer 1 grows every layer of g by the example's shares; m is not written. |
| Models.StartDescending | ml.h:314-318 | The state after seeding is the loop state at the top layer. |
| Models.EndDescending | ml.h:318-330 | The loop state at layer 0 means g holds the grown net and m the net and rows it held. |
| Models.FeedExample | ml.h:307-308 | m's rows become the forward pass of input row i; m's net, g's net and the data are kept. |
| Models.FeedBeside | ml.h:307-308 | Feeding an input row writes only m's activation rows: g's parameters and the targets are kept. |
| Models.BackpropExample | ml.h:306-331 | One example adds its terms to the running sums in g; m's net and the data are kept. |
| Models.BackpropSum | ml.h:306-331 | From all-zero sums, g ends holding the sums over every example of each parameter's terms. |
| Models.ZeroBeside | ml.h:304 | g is zeroed; m and the data are kept. |
| Models.DivideMat | ml.h:334-338 | Every cell of the window is divided by d. |
| Models.DivideLayer | ml.h:333-344 | Layer l's weights and biases are divided by d. |
| Models.DivideAll | ml.h:333-344 | Every parameter of g is divided by d. |
| Models.DivideBeside | ml.h:333-344 | The division of g's parameters by n leaves m and the data as they were. |
| Models.ModelBackprop | ml.h:298-345 | Passes iff the data fit. With rows or output width that do not fit, nothing is written. With a wrong input width, g has been zeroed. On success g's net is `Gradient` of m's net on the data. At every parameter this is the mean over the examples of the error carried back through the sigmoid layers, with the code's factor 2 at every layer. m's net and the data are never written. |
| Models.LearnMat | ml.h:350-354 | Every cell of a becomes a - rate*g; g is only read. |
| Models.LearnRow | ml.h:351-353 | Row i of a moves by -rate times g's row i; the other rows are kept. |
| Models.LearnLayer | ml.h:349-360 | Layer l's weights and biases move by -rate times g's layer l; g is not written. |
| Models.LearnStep | ml.h:349-360 | After pass i, layers 0..i of m hold the moved layers and the others their old values. |
| Models.LearnAll | ml.h:349-360 | Every layer of m is moved; g's net is unchanged. |
| Models.ModelLearn | ml.h:347-361 | m's net becomes the learning step of its old net along g's net with the given rate. g's net and m's activation rows are not written. |

## Left out

- Printing (`mat_print`, `model_print` and their macros) is output only, and the model does no I/O.
- `ml_randf` and `ml_sigmoidf` are parameters: `randf: nat -> Unit` gives the stream of draws in [0, 1], and `sigmoid: real -> real` is an arbitrary function. The C library's `rand()` state and `expf` are not modelled.
- Numbers are exact reals, not 32-bit floats, so rounding and overflow are not modelled. `size_t` counters are unbounded naturals.
- The `malloc` failures asserted at `ml.h:82` and `ml.h:190-195` are not modelled: allocation always succeeds.
- Each failed `ML_ASSERT` on shapes is modelled as a `Fail(ShapeMismatch)` or `Err(...)` result returned before anything is written. The program would abort instead.
- `model_cost` and `model_backprop` divide by the number of rows n. For n = 0 the source divides by zero, so both require `ti.rows > 0`. `model_fdiff` divides by eps, so it requires `eps != 0`. The same rule makes `DivideMat` require `d != 0`.
- On the buffers, the model requires what the source silently assumes:
  - the destination of `mat_copy`, `mat_sum` and `mat_dot` does not share a buffer with its sources;
  - the matrices of one model are pairwise distinct;
  - the model, its gradient model and the two data matrices share no buffer.
- `main.c`, the training driver and its datasets, is not part of this model.
- Calculus is not modelled. `ChainGradient` is the chain rule written out, and it takes a*(1 − a) as the sigmoid's derivative. That it is the derivative of `Cost`, and that `FDiffs` approaches it as eps shrinks, are not proved.
- Models.ModelBackprop: does not state the values left in g's activation rows, which are scratch, nor m's activation rows after the call.
- Models.ModelFdiff: does not state m's activation rows after the call. They hold the forward pass of the last nudged net, not of the restored one.
- Network.CostZeroIff: states "cost is 0 iff every squared difference is 0" rather than "every output equals its target". The step from d*d = 0 to d = 0 is left out.
