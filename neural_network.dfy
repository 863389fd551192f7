/**
 * The flat-buffer feed-forward network: configuration, derived sizes, the
 * layer geometry that `nn_run` and `nn_train` walk with pointers, and the
 * `Network` object with its weight, bias, output and delta buffers.
 *
 * Floats are modelled as reals. The identity activation is exact; sigmoid and
 * tanh are supplied by the caller as `Curves`.
 */
module NeuralNet {
  import opened Oracle

  // ---------------------------------------------------------------------
  // Configuration and derived sizes
  // ---------------------------------------------------------------------

  /** Codes of ACT_FUNC_TYPE; any other code behaves like LINEAR. */
  const LINEAR: int := 0
  const SIGMOID: int := 1
  const TANH: int := 2

  /** The seven configuration fields, as `nn_savef` writes them. */
  datatype Config = Config(
    nInput: int,
    nOutput: int,
    nHidden: int,
    nPerHidden: int,
    useBias: int,
    actHidden: int,
    actOutput: int)

  /** What `nn_create` accepts. */
  predicate Accepted(c: Config)
    ensures Accepted(c) ==> WellSized(c)
  {
    && c.nInput >= 0
    && c.nOutput >= 0
    && c.nHidden >= 0
    && (c.nHidden > 0 ==> c.nPerHidden >= 1)
  }

  /** The weakest condition under which every layer has a size: buffers exist. */
  predicate WellSized(c: Config) {
    && c.nInput >= 0
    && c.nOutput >= 0
    && c.nHidden >= 0
    && (c.nHidden > 0 ==> c.nPerHidden >= 0)
  }

  /** `_n_neuro`: neurons of the hidden layers and the output layer. */
  function NeuronCount(c: Config): (n: int)
    ensures c.nHidden == 0 ==> n == c.nOutput
    ensures WellSized(c) ==> n >= c.nOutput
  {
    c.nOutput + c.nHidden * c.nPerHidden
  }

  /** `_n_weight`, in closed form. */
  function WeightCount(c: Config): (n: int)
    ensures c.nHidden == 0 ==> n == c.nInput * c.nOutput
    ensures WellSized(c) ==> n >= 0
  {
    if c.nHidden <= 0 then c.nInput * c.nOutput
    else c.nInput * c.nPerHidden + (c.nHidden - 1) * (c.nPerHidden * c.nPerHidden)
         + c.nPerHidden * c.nOutput
  }

  /** Number of biases the network owns: one per neuron, or none. */
  function BiasCount(c: Config): int {
    if c.useBias != 0 then NeuronCount(c) else 0
  }

  lemma CountsNonNegative(c: Config)
    requires WellSized(c)
    ensures NeuronCount(c) >= c.nOutput && WeightCount(c) >= 0 && BiasCount(c) >= 0
  {
    if c.nHidden > 0 {
      assert c.nHidden * c.nPerHidden >= 0;
      assert (c.nHidden - 1) * (c.nPerHidden * c.nPerHidden) >= 0;
    }
  }

  /**
   * `nn_compute_n_weight`: walks the layers, adding inputs-times-outputs of
   * each; the result is the closed form `WeightCount`.
   */
  method ComputeNWeight(c: Config) returns (n: int)
    ensures n == WeightCount(c)
  {
    var nIn := c.nInput;
    n := 0;
    var i := 0;
    while i < c.nHidden
      invariant 0 <= i <= if c.nHidden > 0 then c.nHidden else 0
      invariant nIn == if i == 0 then c.nInput else c.nPerHidden
      invariant n == if i == 0 then 0
                     else c.nInput * c.nPerHidden + (i - 1) * (c.nPerHidden * c.nPerHidden)
    {
      if i > 0 {
        assert (i - 1) * (c.nPerHidden * c.nPerHidden) + nIn * c.nPerHidden
            == i * (c.nPerHidden * c.nPerHidden);
      }
      n := n + nIn * c.nPerHidden;
      nIn := c.nPerHidden;
      i := i + 1;
    }
    n := n + nIn * c.nOutput;
  }

  // ---------------------------------------------------------------------
  // Layer geometry: layer l in [0, nHidden]; layer nHidden is the output layer
  // ---------------------------------------------------------------------

  function LayerIn(c: Config, l: nat): int {
    if l == 0 then c.nInput else c.nPerHidden
  }

  function LayerOut(c: Config, l: nat): int {
    if l == c.nHidden then c.nOutput else c.nPerHidden
  }

  function LayerAct(c: Config, l: nat): int {
    if l == c.nHidden then c.actOutput else c.actHidden
  }

  /** Where layer l's outputs (and biases, and deltas) start. */
  function NeuronOffset(c: Config, l: nat): int {
    l * c.nPerHidden
  }

  /** Where layer l's weight matrix starts: the sum of the earlier layers' sizes. */
  function WeightOffset(c: Config, l: nat): int
    requires WellSized(c) && l <= c.nHidden + 1
  {
    if l == 0 then 0 else WeightOffset(c, l - 1) + LayerIn(c, l - 1) * LayerOut(c, l - 1)
  }

  /** Hidden layer l starts at `n_input*nph + (l-1)*nph^2`; past the last layer is `_n_weight`. */
  lemma {:induction false} WeightOffsetClosedForm(c: Config, l: nat)
    requires WellSized(c) && l <= c.nHidden + 1
    ensures l <= c.nHidden ==>
              WeightOffset(c, l) == if l == 0 then 0
                                    else c.nInput * c.nPerHidden + (l - 1) * (c.nPerHidden * c.nPerHidden)
    ensures l == c.nHidden + 1 ==> WeightOffset(c, l) == WeightCount(c)
  {
    if l > 0 {
      WeightOffsetClosedForm(c, l - 1);
      if l - 1 > 0 {
        assert (l - 2) * (c.nPerHidden * c.nPerHidden) + c.nPerHidden * c.nPerHidden
            == (l - 1) * (c.nPerHidden * c.nPerHidden);
      }
    }
  }

  /** Layer l's matrix lies inside the weight buffer. */
  lemma {:induction false} WeightRegionFits(c: Config, l: nat)
    requires WellSized(c) && l <= c.nHidden
    ensures 0 <= WeightOffset(c, l)
    ensures WeightOffset(c, l) + LayerIn(c, l) * LayerOut(c, l) == WeightOffset(c, l + 1)
    ensures WeightOffset(c, l + 1) <= WeightCount(c)
  {
    WeightOffsetMonotone(c, l);
    WeightOffsetMonotone(c, l + 1);
    WeightOffsetClosedForm(c, c.nHidden + 1);
  }

  lemma {:induction false} WeightOffsetMonotone(c: Config, l: nat)
    requires WellSized(c) && l <= c.nHidden + 1
    ensures 0 <= WeightOffset(c, l) <= WeightOffset(c, c.nHidden + 1)
  {
    WeightOffsetNonNegative(c, l);
    WeightOffsetBelowEnd(c, l);
  }

  lemma {:induction false} WeightOffsetNonNegative(c: Config, l: nat)
    requires WellSized(c) && l <= c.nHidden + 1
    ensures 0 <= WeightOffset(c, l)
  {
    if l > 0 {
      WeightOffsetNonNegative(c, l - 1);
      assert LayerIn(c, l - 1) * LayerOut(c, l - 1) >= 0;
    }
  }

  lemma {:induction false} WeightOffsetBelowEnd(c: Config, l: nat)
    requires WellSized(c) && l <= c.nHidden + 1
    ensures WeightOffset(c, l) <= WeightOffset(c, c.nHidden + 1)
    decreases c.nHidden + 1 - l
  {
    if l < c.nHidden + 1 {
      WeightOffsetBelowEnd(c, l + 1);
      assert LayerIn(c, l) * LayerOut(c, l) >= 0;
    }
  }

  /** Stepping back over layer l's matrix, `LayerOut(l)` rows of `LayerIn(l)` columns, lands on its start. */
  lemma MatrixStep(c: Config, l: nat)
    requires WellSized(c) && l <= c.nHidden
    ensures WeightOffset(c, l + 1) - LayerOut(c, l) * LayerIn(c, l) == WeightOffset(c, l)
    ensures l > 0 ==> LayerIn(c, l) == c.nPerHidden
    ensures l == 0 ==> LayerIn(c, l) == c.nInput
  {
    WeightRegionFits(c, l);
    assert LayerIn(c, l) * LayerOut(c, l) == LayerOut(c, l) * LayerIn(c, l);
  }

  /** Layer l's neurons lie inside the neuron buffers; the output layer is the last slice. */
  lemma NeuronRegionFits(c: Config, l: nat)
    requires WellSized(c) && l <= c.nHidden
    ensures 0 <= NeuronOffset(c, l)
    ensures NeuronOffset(c, l) + LayerOut(c, l) <= NeuronCount(c)
    ensures l == c.nHidden ==> NeuronOffset(c, l) == NeuronCount(c) - c.nOutput
    ensures l < c.nHidden ==> NeuronOffset(c, l) + LayerOut(c, l) == NeuronOffset(c, l + 1)
  {
    if l < c.nHidden {
      MulMonotone(l + 1, c.nHidden, c.nPerHidden);
      assert (l + 1) * c.nPerHidden == l * c.nPerHidden + c.nPerHidden;
    } else {
      MulMonotone(0, l, if l == 0 then 0 else c.nPerHidden);
    }
  }

  /** Hidden layer l's slices, and where the next layer's start, as `nn_run` steps its pointers. */
  lemma HiddenLayerFits(c: Config, l: nat)
    requires WellSized(c) && l < c.nHidden
    ensures LayerInBounds(c, l) && LayerOut(c, l) == c.nPerHidden
    ensures NeuronOffset(c, l) + c.nPerHidden == NeuronOffset(c, l + 1)
    ensures WeightOffset(c, l) + LayerIn(c, l) * c.nPerHidden == WeightOffset(c, l + 1)
  {
    LayerFits(c, l);
  }

  /** The output layer's slices: its outputs are the last `n_output` neurons. */
  lemma OutputLayerFits(c: Config)
    requires WellSized(c)
    ensures LayerInBounds(c, c.nHidden) && LayerOut(c, c.nHidden) == c.nOutput
    ensures NeuronOffset(c, c.nHidden) + c.nOutput == NeuronCount(c)
  {
    LayerFits(c, c.nHidden);
  }

  /** Row i of an n-column matrix stored row by row ends inside an m-row matrix. */
  lemma RowFits(i: int, n: int, m: int)
    requires 0 <= i < m && 0 <= n
    ensures 0 <= i * n && i * n + n <= m * n
  {
    var k := m - i - 1;
    assert k * n >= 0;
    assert m * n == i * n + n + k * n;
  }

  /** Index of matrix entry (i, j) in an n-column matrix stored from `off`. */
  function At(off: int, i: int, n: int, j: int): int {
    off + i * n + j
  }

  lemma EntryFits(off: int, i: int, n: int, j: int, m: int)
    requires 0 <= off && 0 <= i < m && 0 <= j < n
    ensures off <= At(off, i, n, j) < off + m * n
  {
    RowFits(i, n, m);
  }

  // ---------------------------------------------------------------------
  // Forward propagation over values
  // ---------------------------------------------------------------------

  /** `exp`-based sigmoid and `tanh` as the C library computes them; supplied by the caller. */
  datatype Curves = Curves(sigmoid: real -> real, tanh: real -> real)

  /** The activation a layer of kind `kind` applies; unknown codes pass the value through. */
  function Activate(kind: int, x: real, f: Curves): real {
    if kind == SIGMOID then f.sigmoid(x) else if kind == TANH then f.tanh(x) else x
  }

  function Dot(w: seq<real>, x: seq<real>): real
    requires |w| == |x|
    decreases |w|
  {
    if |w| == 0 then 0.0 else Dot(w[..|w| - 1], x[..|x| - 1]) + w[|w| - 1] * x[|x| - 1]
  }

  /** Row i of an m-by-n matrix stored row by row in `w`. */
  function Row(w: seq<real>, i: int, n: int, m: int): (r: seq<real>)
    requires 0 <= i < m && 0 <= n && m * n <= |w|
    ensures |r| == n
  {
    RowFits(i, n, m);
    w[i * n .. i * n + n]
  }

  /**
   * One layer of `nn_forward_propagation`: neuron i is (bias i, or 0 without
   * bias) plus row i of the weight matrix dotted with the input, activated.
   */
  function LayerValues(kind: int, useBias: bool, x: seq<real>, b: seq<real>, w: seq<real>,
                       m: nat, f: Curves): (y: seq<real>)
    requires useBias ==> m <= |b|
    requires m * |x| <= |w|
    ensures |y| == m
  {
    seq(m, i requires 0 <= i < m =>
      Activate(kind, (if useBias then b[i] else 0.0) + Dot(Row(w, i, |x|, m), x), f))
  }

  /** Buffers of the right sizes for a forward pass of a network of configuration c. */
  predicate Shaped(c: Config, w: seq<real>, b: seq<real>, x: seq<real>) {
    WellSized(c) && |w| == WeightCount(c) && |b| == BiasCount(c) && |x| == c.nInput
  }

  /** What layer l reads: the network input, or the previous layer's outputs. */
  function LayerInput(c: Config, w: seq<real>, b: seq<real>, x: seq<real>, f: Curves, l: nat)
    : (y: seq<real>)
    requires Shaped(c, w, b, x) && l <= c.nHidden
    ensures |y| == LayerIn(c, l)
    decreases l, 0
  {
    if l == 0 then x else Forward(c, w, b, x, f, l - 1)
  }

  /** The outputs of layer l when the network runs on input x. */
  function Forward(c: Config, w: seq<real>, b: seq<real>, x: seq<real>, f: Curves, l: nat)
    : (y: seq<real>)
    requires Shaped(c, w, b, x) && l <= c.nHidden
    ensures |y| == LayerOut(c, l)
    decreases l, 1
  {
    Step(c, w, b, LayerInput(c, w, b, x, f, l), f, l)
  }

  /** Layer l's biases: the slice from its neuron offset, or nothing without bias. */
  function LayerBias(c: Config, b: seq<real>, l: nat): seq<real>
    requires WellSized(c) && |b| == BiasCount(c) && l <= c.nHidden
  {
    LayerFits(c, l);
    if c.useBias != 0 then b[NeuronOffset(c, l)..] else []
  }

  /** Layer l applied to `inp`, with its slices of the weight and bias buffers. */
  function Step(c: Config, w: seq<real>, b: seq<real>, inp: seq<real>, f: Curves, l: nat)
    : (y: seq<real>)
    requires WellSized(c) && |w| == WeightCount(c) && |b| == BiasCount(c) && l <= c.nHidden
    requires |inp| == LayerIn(c, l)
    ensures |y| == LayerOut(c, l)
  {
    LayerFits(c, l);
    LayerValues(LayerAct(c, l), c.useBias != 0, inp, LayerBias(c, b, l),
                w[WeightOffset(c, l)..], LayerOut(c, l), f)
  }

  /** Layer l's slices of the three buffers exist. */
  lemma LayerFits(c: Config, l: nat)
    requires WellSized(c) && l <= c.nHidden
    ensures 0 <= LayerIn(c, l) && 0 <= LayerOut(c, l)
    ensures 0 <= WeightOffset(c, l)
    ensures WeightOffset(c, l) + LayerOut(c, l) * LayerIn(c, l) <= WeightCount(c)
    ensures 0 <= NeuronOffset(c, l) && NeuronOffset(c, l) + LayerOut(c, l) <= NeuronCount(c)
    ensures NeuronCount(c) <= BiasCount(c) || c.useBias == 0
  {
    WeightRegionFits(c, l);
    NeuronRegionFits(c, l);
    assert LayerOut(c, l) * LayerIn(c, l) == LayerIn(c, l) * LayerOut(c, l);
  }

  /** Layer l's outputs sit at their offset in the neuron buffer `o`. */
  ghost predicate LayerStored(c: Config, o: seq<real>, w: seq<real>, b: seq<real>, x: seq<real>,
                              f: Curves, l: nat)
    requires Shaped(c, w, b, x) && |o| == NeuronCount(c) && l <= c.nHidden
  {
    LayerFits(c, l);
    var y := Forward(c, w, b, x, f, l);
    forall k :: 0 <= k < LayerOut(c, l) ==> o[NeuronOffset(c, l) + k] == y[k]
  }

  /** The bounds `LayerFits` establishes, as one predicate. */
  predicate LayerInBounds(c: Config, l: nat)
    requires WellSized(c) && l <= c.nHidden
  {
    && 0 <= LayerIn(c, l) && 0 <= LayerOut(c, l)
    && 0 <= WeightOffset(c, l)
    && WeightOffset(c, l) + LayerOut(c, l) * LayerIn(c, l) <= WeightCount(c)
    && 0 <= NeuronOffset(c, l) && NeuronOffset(c, l) + LayerOut(c, l) <= NeuronCount(c)
    && (NeuronCount(c) <= BiasCount(c) || c.useBias == 0)
  }

  /** Values written by one layer step, from the layer's input, are that layer's stored outputs. */
  lemma StoredAfterStep(c: Config, o: seq<real>, w: seq<real>, b: seq<real>, x: seq<real>,
                        f: Curves, l: nat)
    requires Shaped(c, w, b, x) && |o| == NeuronCount(c) && l <= c.nHidden && LayerInBounds(c, l)
    requires forall k :: 0 <= k < LayerOut(c, l) ==>
               o[NeuronOffset(c, l) + k] == Step(c, w, b, LayerInput(c, w, b, x, f, l), f, l)[k]
    ensures LayerStored(c, o, w, b, x, f, l)
    ensures o[NeuronOffset(c, l)..NeuronOffset(c, l) + LayerOut(c, l)] == Forward(c, w, b, x, f, l)
  {
    var y := Forward(c, w, b, x, f, l);
    assert y == Step(c, w, b, LayerInput(c, w, b, x, f, l), f, l);
    var lo := NeuronOffset(c, l);
    var n := LayerOut(c, l);
    assert forall k :: 0 <= k < n ==> o[lo + k] == y[k];
    assert o[lo..lo + n] == y;
  }

  /**
   * One layer of `nn_run` done: when layer l has been written from its input
   * and nothing before its offset changed, layers 0..l are all stored.
   */
  lemma StoredAfterLayer(c: Config, o: seq<real>, o': seq<real>, w: seq<real>, b: seq<real>,
                         x: seq<real>, f: Curves, l: nat)
    requires Shaped(c, w, b, x) && |o| == |o'| == NeuronCount(c) && l <= c.nHidden
    requires LayerInBounds(c, l)
    requires forall l' :: 0 <= l' < l ==> LayerStored(c, o, w, b, x, f, l')
    requires forall k :: 0 <= k < LayerOut(c, l) ==>
               o'[NeuronOffset(c, l) + k] == Step(c, w, b, LayerInput(c, w, b, x, f, l), f, l)[k]
    requires forall k :: 0 <= k < |o| && !(NeuronOffset(c, l) <= k < NeuronOffset(c, l) + LayerOut(c, l)) ==>
               o'[k] == o[k]
    ensures forall l' :: 0 <= l' <= l ==> LayerStored(c, o', w, b, x, f, l')
    ensures o'[NeuronOffset(c, l)..NeuronOffset(c, l) + LayerOut(c, l)] == Forward(c, w, b, x, f, l)
  {
    StoredAfterStep(c, o', w, b, x, f, l);
    forall l' | 0 <= l' < l
      ensures LayerStored(c, o', w, b, x, f, l')
    {
      NeuronOffsetMonotone(c, l' + 1, l);
      StoredFrame(c, o, o', w, b, x, f, l', NeuronOffset(c, l));
    }
  }

  lemma NeuronOffsetMonotone(c: Config, l: nat, l': nat)
    requires WellSized(c) && l <= l' <= c.nHidden
    ensures NeuronOffset(c, l) <= NeuronOffset(c, l')
  {
    assert l * c.nPerHidden <= l' * c.nPerHidden;
  }

  /** Writing at or after a later layer's offset keeps an earlier layer's stored outputs. */
  lemma StoredFrame(c: Config, o: seq<real>, o': seq<real>, w: seq<real>, b: seq<real>, x: seq<real>,
                    f: Curves, l: nat, from: int)
    requires Shaped(c, w, b, x) && |o| == |o'| == NeuronCount(c) && l < c.nHidden
    requires NeuronOffset(c, l + 1) <= from
    requires forall k :: 0 <= k < |o| && k < from ==> o'[k] == o[k]
    requires LayerStored(c, o, w, b, x, f, l)
    ensures LayerStored(c, o', w, b, x, f, l)
  {
    LayerFits(c, l);
    NeuronRegionFits(c, l);
  }

  /** Layers are laid out in order: an earlier layer's neurons end before a later one's start. */
  lemma NeuronRegionsOrdered(c: Config, l: nat, l': nat)
    requires WellSized(c) && l < l' <= c.nHidden
    ensures NeuronOffset(c, l) + LayerOut(c, l) <= NeuronOffset(c, l')
  {
    assert (l + 1) * c.nPerHidden <= l' * c.nPerHidden;
  }

  lemma DotStep(u: seq<real>, v: seq<real>, j: nat)
    requires j < |u| == |v|
    ensures Dot(u[..j + 1], v[..j + 1]) == Dot(u[..j], v[..j]) + u[j] * v[j]
  {
    assert u[..j + 1][..j] == u[..j];
    assert v[..j + 1][..j] == v[..j];
  }

  // ---------------------------------------------------------------------
  // Back propagation over values
  // ---------------------------------------------------------------------

  /** `nn_act_func_derivate`: the activation's derivative, written in terms of its output o. */
  function Derivative(kind: int, o: real): (d: real)
    ensures kind == SIGMOID ==> (d == 0.0 <==> o == 0.0 || o == 1.0)
    ensures kind == TANH ==> (d == 0.0 <==> o == 1.0 || o == -1.0)
    ensures kind != SIGMOID && kind != TANH ==> d == 1.0
  {
    if kind == SIGMOID then o * (1.0 - o) else if kind == TANH then 1.0 - o * o else 1.0
  }

  /** On the ranges sigmoid and tanh produce, their derivatives are small and never negative. */
  lemma DerivativeBounds(kind: int, o: real)
    ensures kind == SIGMOID && 0.0 <= o <= 1.0 ==> 0.0 <= Derivative(kind, o) <= 0.25
    ensures kind == TANH && -1.0 <= o <= 1.0 ==> 0.0 <= Derivative(kind, o) <= 1.0
  {
    if kind == SIGMOID && 0.0 <= o <= 1.0 {
      MulNonNegative(o, 1.0 - o);
      assert 0.25 - o * (1.0 - o) == (o - 0.5) * (o - 0.5);
      SquareNonNegative(o - 0.5);
    }
    if kind == TANH && -1.0 <= o <= 1.0 {
      MulNonNegative(1.0 - o, 1.0 + o);
      assert 1.0 - o * o == (1.0 - o) * (1.0 + o);
      SquareNonNegative(o);
    }
  }

  /** Column j of a K-row, n-column matrix stored row by row, dotted with d. */
  function ColumnDot(d: seq<real>, w: seq<real>, n: int, j: int, K: nat): real
    requires K <= |d| && 0 <= j < n && K * n <= |w|
  {
    if K == 0 then 0.0
    else
      EntryFits(0, K - 1, n, j, K);
      ColumnDot(d, w, n, j, K - 1) + d[K - 1] * w[(K - 1) * n + j]
  }

  /** Layer l's weight matrix. */
  function Region(c: Config, w: seq<real>, l: nat): (r: seq<real>)
    requires WellSized(c) && |w| == WeightCount(c) && l <= c.nHidden
    ensures |r| == LayerOut(c, l) * LayerIn(c, l)
  {
    LayerFits(c, l);
    WeightRegionFits(c, l);
    w[WeightOffset(c, l)..WeightOffset(c, l + 1)]
  }

  /** Layer l's slice of a neuron buffer (outputs, deltas or biases). */
  function Neurons(c: Config, o: seq<real>, l: nat): (r: seq<real>)
    requires WellSized(c) && |o| == NeuronCount(c) && l <= c.nHidden
    ensures |r| == LayerOut(c, l)
  {
    LayerFits(c, l);
    o[NeuronOffset(c, l)..NeuronOffset(c, l) + LayerOut(c, l)]
  }

  /** The output layer's deltas: expected minus actual, times the derivative at the output. */
  function OutputDeltas(kind: int, e: seq<real>, o: seq<real>): (d: seq<real>)
    requires |e| == |o|
    ensures |d| == |o|
  {
    seq(|o|, i requires 0 <= i < |o| => (e[i] - o[i]) * Derivative(kind, o[i]))
  }

  /**
   * A hidden layer's deltas: neuron j gets the next layer's deltas dotted with
   * column j of the next layer's weight matrix m, times the derivative at its output.
   */
  function HiddenDeltas(kind: int, next: seq<real>, m: seq<real>, o: seq<real>): (d: seq<real>)
    requires |next| * |o| <= |m|
    ensures |d| == |o|
  {
    seq(|o|, j requires 0 <= j < |o| => ColumnDot(next, m, |o|, j, |next|) * Derivative(kind, o[j]))
  }

  /** Biases moved by deltas times the rate. */
  function BiasesMoved(b: seq<real>, d: seq<real>, rate: real): (r: seq<real>)
    requires |d| == |b|
    ensures |r| == |b|
  {
    seq(|b|, k requires 0 <= k < |b| => b[k] + d[k] * rate)
  }

  /**
   * The deltas `nn_train` computes for layer l from the weights w before
   * training, the outputs o of the run and the expected outputs e, from the
   * output layer backwards.
   */
  function LayerDelta(c: Config, w: seq<real>, o: seq<real>, e: seq<real>, l: nat): (d: seq<real>)
    requires WellSized(c) && |w| == WeightCount(c) && |o| == NeuronCount(c) && |e| == c.nOutput
    requires l <= c.nHidden
    ensures |d| == LayerOut(c, l)
    decreases c.nHidden - l
  {
    if l == c.nHidden then OutputDeltas(c.actOutput, e, Neurons(c, o, l))
    else HiddenDeltas(c.actHidden, LayerDelta(c, w, o, e, l + 1), Region(c, w, l + 1), Neurons(c, o, l))
  }

  /** What layer l read during the run: the input, or the previous layer's outputs in o. */
  function TrainInput(c: Config, o: seq<real>, x: seq<real>, l: nat): (r: seq<real>)
    requires WellSized(c) && |o| == NeuronCount(c) && |x| == c.nInput && l <= c.nHidden
    ensures |r| == LayerIn(c, l)
  {
    if l == 0 then x else Neurons(c, o, l - 1)
  }

  /** `nn_correct` on a matrix stored from `off`: entry (i, j) moved by d[i] * inp[j] * rate. */
  ghost predicate Corrected(now: seq<real>, was: seq<real>, off: nat, d: seq<real>, inp: seq<real>, rate: real)
    requires |now| == |was| && off + |d| * |inp| <= |now|
  {
    CorrectedRows(now, was, off, d, inp, rate, |d|)
  }

  /** The first `rows` rows of that correction. */
  ghost predicate CorrectedRows(now: seq<real>, was: seq<real>, off: nat, d: seq<real>, inp: seq<real>,
                                rate: real, rows: nat)
    requires |now| == |was| && off + |d| * |inp| <= |now| && rows <= |d|
  {
    forall i, j :: 0 <= i < rows && 0 <= j < |inp| ==>
      (EntryFits(off, i, |inp|, j, |d|);
       now[At(off, i, |inp|, j)] == was[At(off, i, |inp|, j)] + d[i] * inp[j] * rate)
  }

  /** One more row done: the earlier rows lie before it and are left as they were. */
  lemma CorrectedRowsStep(now: seq<real>, before: seq<real>, was: seq<real>, off: nat, d: seq<real>,
                          inp: seq<real>, rate: real, i: nat)
    requires |now| == |before| == |was| && off + |d| * |inp| <= |now| && i < |d|
    requires CorrectedRows(before, was, off, d, inp, rate, i)
    requires forall k :: 0 <= k < |was| && !(off <= k < off + i * |inp|) ==> before[k] == was[k]
    requires off + i * |inp| + |inp| <= |now|
    requires forall j :: 0 <= j < |inp| ==>
               now[off + i * |inp| + j] == before[off + i * |inp| + j] + d[i] * inp[j] * rate
    requires forall k :: 0 <= k < |now| && !(off + i * |inp| <= k < off + i * |inp| + |inp|) ==>
               now[k] == before[k]
    ensures CorrectedRows(now, was, off, d, inp, rate, i + 1)
  {
    var n := |inp|;
    forall i', j | 0 <= i' < i + 1 && 0 <= j < n
      ensures now[At(off, i', n, j)] == was[At(off, i', n, j)] + d[i'] * inp[j] * rate
    {
      EntryFits(off, i', n, j, |d|);
      if i' < i {
        RowFits(i', n, i);
      }
    }
  }

  /** Layer l's deltas sit at its offset in the delta buffer `dn`. */
  ghost predicate DeltaStored(c: Config, dn: seq<real>, w: seq<real>, o: seq<real>, e: seq<real>, l: nat)
    requires WellSized(c) && |w| == WeightCount(c) && |o| == |dn| == NeuronCount(c) && |e| == c.nOutput
    requires l <= c.nHidden
  {
    Neurons(c, dn, l) == LayerDelta(c, w, o, e, l)
  }

  /** With bias, layer l's biases moved by its deltas times the rate (`bias[i] += delta[i] * rate`). */
  ghost predicate BiasStepped(c: Config, now: seq<real>, was: seq<real>, d: seq<real>, rate: real, l: nat)
    requires WellSized(c) && |now| == |was| == BiasCount(c) && l <= c.nHidden && |d| == LayerOut(c, l)
  {
    c.useBias != 0 ==> Neurons(c, now, l) == BiasesMoved(Neurons(c, was, l), d, rate)
  }

  /** Layer l's weight matrix corrected by its deltas and the input it read. */
  ghost predicate WeightsStepped(c: Config, now: seq<real>, was: seq<real>, d: seq<real>, inp: seq<real>,
                                 rate: real, l: nat)
    requires WellSized(c) && |now| == |was| == WeightCount(c) && l <= c.nHidden
    requires |d| == LayerOut(c, l) && |inp| == LayerIn(c, l)
  {
    LayerFits(c, l);
    Corrected(now, was, WeightOffset(c, l), d, inp, rate)
  }

  lemma WeightOffsetOrdered(c: Config, l: nat, l': nat)
    requires WellSized(c) && l <= l' <= c.nHidden + 1
    ensures WeightOffset(c, l) <= WeightOffset(c, l')
    decreases l' - l
  {
    if l < l' {
      WeightOffsetOrdered(c, l + 1, l');
      assert LayerIn(c, l) * LayerOut(c, l) >= 0;
    }
  }

  /** Agreement from `hi` on, where hi is at most layer l's offset, keeps layer l's slice. */
  lemma NeuronsFrame(c: Config, a: seq<real>, a': seq<real>, l: nat, hi: int)
    requires WellSized(c) && |a| == |a'| == NeuronCount(c) && l <= c.nHidden && 0 <= hi <= NeuronOffset(c, l)
    requires forall k :: hi <= k < |a| ==> a'[k] == a[k]
    ensures Neurons(c, a', l) == Neurons(c, a, l)
  {
    LayerFits(c, l);
    assert forall k :: 0 <= k < LayerOut(c, l) ==> Neurons(c, a', l)[k] == Neurons(c, a, l)[k];
  }

  lemma WeightsFrame(c: Config, now: seq<real>, before: seq<real>, was: seq<real>, d: seq<real>,
                     inp: seq<real>, rate: real, l: nat, hi: int)
    requires WellSized(c) && |now| == |before| == |was| == WeightCount(c) && l <= c.nHidden
    requires |d| == LayerOut(c, l) && |inp| == LayerIn(c, l)
    requires 0 <= hi <= WeightOffset(c, l)
    requires forall k :: hi <= k < |now| ==> now[k] == before[k]
    requires WeightsStepped(c, before, was, d, inp, rate, l)
    ensures WeightsStepped(c, now, was, d, inp, rate, l)
  {
    LayerFits(c, l);
    var n := |inp|;
    forall i, j | 0 <= i < |d| && 0 <= j < n
      ensures 0 <= At(WeightOffset(c, l), i, n, j) < |now|
              && now[At(WeightOffset(c, l), i, n, j)] == was[At(WeightOffset(c, l), i, n, j)] + d[i] * inp[j] * rate
    {
      EntryFits(WeightOffset(c, l), i, n, j, |d|);
    }
  }

  /** A correction applied to a matrix no earlier step has touched is that layer's training step. */
  lemma WeightsStep(c: Config, now: seq<real>, before: seq<real>, was: seq<real>, d: seq<real>,
                    inp: seq<real>, rate: real, l: nat)
    requires WellSized(c) && |now| == |before| == |was| == WeightCount(c) && l <= c.nHidden
    requires |d| == LayerOut(c, l) && |inp| == LayerIn(c, l) && LayerInBounds(c, l)
    requires Corrected(now, before, WeightOffset(c, l), d, inp, rate)
    requires forall k :: 0 <= k < |before| && k < WeightOffset(c, l + 1) ==> before[k] == was[k]
    requires forall k :: 0 <= k < |now| && k < WeightOffset(c, l) ==> now[k] == before[k]
    ensures WeightsStepped(c, now, was, d, inp, rate, l)
    ensures forall k :: 0 <= k < |now| && k < WeightOffset(c, l) ==> now[k] == was[k]
  {
    WeightRegionFits(c, l);
    assert WeightOffset(c, l) + |d| * |inp| == WeightOffset(c, l + 1);
    var n := |inp|;
    forall i, j | 0 <= i < |d| && 0 <= j < n
      ensures 0 <= At(WeightOffset(c, l), i, n, j) < |now|
              && now[At(WeightOffset(c, l), i, n, j)] == was[At(WeightOffset(c, l), i, n, j)] + d[i] * inp[j] * rate
    {
      EntryFits(WeightOffset(c, l), i, n, j, |d|);
    }
  }

  /**
   * Step 2a of `nn_train` yields hidden layer l's deltas, provided layer
   * l+1's deltas are stored and its weights are still those before training.
   */
  lemma HiddenDeltaStep(c: Config, dn: seq<real>, d0: seq<real>, w: seq<real>, w0: seq<real>,
                        o: seq<real>, e: seq<real>, l: nat)
    requires WellSized(c) && |w| == |w0| == WeightCount(c) && |o| == |dn| == |d0| == NeuronCount(c)
    requires |e| == c.nOutput && l < c.nHidden
    requires DeltaStored(c, d0, w0, o, e, l + 1)
    requires forall k :: 0 <= k < |w| && k < WeightOffset(c, l + 2) ==> w[k] == w0[k]
    requires Neurons(c, dn, l) == HiddenDeltas(c.actHidden, Neurons(c, d0, l + 1), Region(c, w, l + 1),
                                               Neurons(c, o, l))
    ensures DeltaStored(c, dn, w0, o, e, l)
  {
    RegionAgree(c, w, w0, l + 1);
    assert LayerDelta(c, w0, o, e, l)
        == HiddenDeltas(c.actHidden, LayerDelta(c, w0, o, e, l + 1), Region(c, w0, l + 1), Neurons(c, o, l));
  }

  /** Two weight buffers that agree below the end of layer l's matrix give it the same matrix. */
  lemma RegionAgree(c: Config, w: seq<real>, w0: seq<real>, l: nat)
    requires WellSized(c) && |w| == |w0| == WeightCount(c) && l <= c.nHidden
    requires forall k :: 0 <= k < |w| && k < WeightOffset(c, l + 1) ==> w[k] == w0[k]
    ensures Region(c, w, l) == Region(c, w0, l)
  {
    WeightRegionFits(c, l);
  }

  /** The offsets one round of step 2 of `nn_train` uses, for hidden layer L, lie in the buffers. */
  lemma HiddenRoundFits(c: Config, L: nat)
    requires WellSized(c) && L < c.nHidden
    ensures LayerIn(c, L + 1) == c.nPerHidden && LayerOut(c, L) == c.nPerHidden
    ensures 0 <= NeuronOffset(c, L) && NeuronOffset(c, L) + c.nPerHidden == NeuronOffset(c, L + 1)
    ensures NeuronOffset(c, L + 1) + LayerOut(c, L + 1) <= NeuronCount(c)
    ensures 0 <= WeightOffset(c, L + 1)
    ensures WeightOffset(c, L + 1) + LayerOut(c, L + 1) * c.nPerHidden == WeightOffset(c, L + 2) <= WeightCount(c)
  {
    LayerFits(c, L + 1);
    NeuronRegionFits(c, L);
    WeightRegionFits(c, L + 1);
    assert LayerIn(c, L + 1) * LayerOut(c, L + 1) == LayerOut(c, L + 1) * c.nPerHidden;
  }

  /** Two buffers that agree on layer l's slice give that layer the same neurons. */
  lemma NeuronsAgree(c: Config, a: seq<real>, a': seq<real>, l: nat)
    requires WellSized(c) && |a| == |a'| == NeuronCount(c) && l <= c.nHidden
    requires forall k :: 0 <= k < |a| && NeuronOffset(c, l) <= k < NeuronOffset(c, l) + LayerOut(c, l) ==>
               a'[k] == a[k]
    ensures Neurons(c, a', l) == Neurons(c, a, l)
  {
    LayerFits(c, l);
    var lo := NeuronOffset(c, l);
    forall k | 0 <= k < LayerOut(c, l)
      ensures Neurons(c, a', l)[k] == Neurons(c, a, l)[k]
    {
      assert Neurons(c, a', l)[k] == a'[lo + k] && Neurons(c, a, l)[k] == a[lo + k];
    }
  }

  /** The buffers of one training step, all sized for configuration c. */
  ghost predicate Sized(c: Config, dn: seq<real>, bn: seq<real>, wn: seq<real>, W: seq<real>, B: seq<real>,
                        O: seq<real>, x: seq<real>, e: seq<real>)
  {
    && WellSized(c)
    && |dn| == |O| == NeuronCount(c)
    && |bn| == |B| == BiasCount(c)
    && |wn| == |W| == WeightCount(c)
    && |x| == c.nInput && |e| == c.nOutput
  }

  /**
   * Layers L and above hold their deltas in dn, for weights W before
   * training, outputs O of the run and expected outputs e.
   */
  ghost predicate DeltasFrom(c: Config, dn: seq<real>, W: seq<real>, O: seq<real>, e: seq<real>, L: nat)
    requires WellSized(c) && |W| == WeightCount(c) && |O| == |dn| == NeuronCount(c) && |e| == c.nOutput
  {
    forall l :: L <= l <= c.nHidden ==> DeltaStored(c, dn, W, O, e, l)
  }

  /** Layers L and above have their biases moved by their deltas; those below L are still B. */
  ghost predicate BiasesFrom(c: Config, bn: seq<real>, B: seq<real>, W: seq<real>, O: seq<real>, e: seq<real>,
                             rate: real, L: nat)
    requires WellSized(c) && |bn| == |B| == BiasCount(c) && |W| == WeightCount(c) && |O| == NeuronCount(c)
    requires |e| == c.nOutput
  {
    && (forall l :: L <= l <= c.nHidden ==> BiasStepped(c, bn, B, LayerDelta(c, W, O, e, l), rate, l))
    && (forall k :: 0 <= k < |bn| && k < NeuronOffset(c, L) ==> bn[k] == B[k])
  }

  /**
   * The matrices of layers M and above are corrected by their deltas and the
   * input they read (x for layer 0); those below M are still W.
   */
  ghost predicate WeightsFrom(c: Config, wn: seq<real>, W: seq<real>, O: seq<real>, x: seq<real>, e: seq<real>,
                              rate: real, M: nat)
    requires WellSized(c) && |wn| == |W| == WeightCount(c) && |O| == NeuronCount(c)
    requires |x| == c.nInput && |e| == c.nOutput && M <= c.nHidden + 1
  {
    && (forall l :: M <= l <= c.nHidden ==>
          WeightsStepped(c, wn, W, LayerDelta(c, W, O, e, l), TrainInput(c, O, x, l), rate, l))
    && (forall k :: 0 <= k < |wn| && k < WeightOffset(c, M) ==> wn[k] == W[k])
  }

  /**
   * The state `nn_train` leaves, for weights W and biases B before the call,
   * outputs O of its run, input x and expected outputs e: every layer holds
   * its deltas, its biases moved by them, and its matrix corrected by them
   * and by the input it read.
   */
  ghost predicate Trained(c: Config, dn: seq<real>, bn: seq<real>, wn: seq<real>, W: seq<real>,
                          B: seq<real>, O: seq<real>, x: seq<real>, e: seq<real>, rate: real)
  {
    && Sized(c, dn, bn, wn, W, B, O, x, e)
    && DeltasFrom(c, dn, W, O, e, 0)
    && BiasesFrom(c, bn, B, W, O, e, rate, 0)
    && WeightsFrom(c, wn, W, O, x, e, rate, 0)
  }

  /** The delta half of step 1 of `nn_train` stores the output layer's deltas. */
  lemma OutputDeltasBack(c: Config, dn: seq<real>, W: seq<real>, O: seq<real>, e: seq<real>)
    requires WellSized(c) && |W| == WeightCount(c) && |O| == |dn| == NeuronCount(c) && |e| == c.nOutput
    requires Neurons(c, dn, c.nHidden) == OutputDeltas(c.actOutput, e, Neurons(c, O, c.nHidden))
    ensures DeltasFrom(c, dn, W, O, e, c.nHidden)
  {
    assert DeltaStored(c, dn, W, O, e, c.nHidden);
  }

  /** The delta half of step 2a for hidden layer L: its deltas, from layer L+1's, join the stored ones. */
  lemma DeltasBack(c: Config, d0: seq<real>, dn: seq<real>, W: seq<real>, w0: seq<real>, O: seq<real>,
                   e: seq<real>, L: nat)
    requires WellSized(c) && |d0| == |dn| == |O| == NeuronCount(c) && |W| == |w0| == WeightCount(c)
    requires |e| == c.nOutput && L < c.nHidden
    requires DeltasFrom(c, d0, W, O, e, L + 1)
    requires forall k :: 0 <= k < |w0| && k < WeightOffset(c, L + 2) ==> w0[k] == W[k]
    requires Neurons(c, dn, L) == HiddenDeltas(c.actHidden, Neurons(c, d0, L + 1), Region(c, w0, L + 1),
                                               Neurons(c, O, L))
    requires forall k :: 0 <= k < |dn| && !(NeuronOffset(c, L) <= k < NeuronOffset(c, L + 1)) ==> dn[k] == d0[k]
    ensures DeltasFrom(c, dn, W, O, e, L)
  {
    assert DeltaStored(c, d0, W, O, e, L + 1);
    HiddenDeltaStep(c, dn, d0, w0, W, O, e, L);
    forall l | L + 1 <= l <= c.nHidden
      ensures DeltaStored(c, dn, W, O, e, l)
    {
      NeuronOffsetMonotone(c, L + 1, l);
      assert forall k :: 0 <= k < |dn| && NeuronOffset(c, l) <= k ==> dn[k] == d0[k];
      NeuronsAgree(c, d0, dn, l);
      assert DeltaStored(c, d0, W, O, e, l);
    }
  }

  /**
   * The bias half of steps 1 and 2a for layer L: with bias, layer L's biases
   * moved by its deltas; the biases of the layers above are already moved
   * (or, at the output layer, none has been touched yet).
   */
  lemma BiasesBack(c: Config, b0: seq<real>, bn: seq<real>, B: seq<real>, W: seq<real>, O: seq<real>,
                   e: seq<real>, rate: real, L: nat)
    requires WellSized(c) && |b0| == |bn| == |B| == BiasCount(c) && L <= c.nHidden
    requires |W| == WeightCount(c) && |O| == NeuronCount(c) && |e| == c.nOutput
    requires L < c.nHidden ==> BiasesFrom(c, b0, B, W, O, e, rate, L + 1)
    requires L == c.nHidden ==> b0 == B
    requires c.useBias != 0 ==> Neurons(c, bn, L) == BiasesMoved(Neurons(c, b0, L), LayerDelta(c, W, O, e, L), rate)
    requires forall k :: 0 <= k < |bn| && !(NeuronOffset(c, L) <= k < NeuronOffset(c, L) + LayerOut(c, L)) ==>
               bn[k] == b0[k]
    ensures BiasesFrom(c, bn, B, W, O, e, rate, L)
  {
    NeuronRegionFits(c, L);
    if L < c.nHidden {
      NeuronOffsetMonotone(c, L, L + 1);
    }
    ghost var d := LayerDelta(c, W, O, e, L);
    if c.useBias != 0 {
      NeuronsAgree(c, B, b0, L);
    }
    StepTaken(c, bn, b0, B, d, rate, L);
    if L < c.nHidden {
      BiasesAboveKept(c, b0, bn, B, W, O, e, rate, L);
    }
    assert forall k :: 0 <= k < |bn| && k < NeuronOffset(c, L) ==> bn[k] == B[k];
    BiasesFromParts(c, bn, B, W, O, e, rate, L);
  }

  /** `BiasesFrom` assembled from its two halves. */
  lemma BiasesFromParts(c: Config, bn: seq<real>, B: seq<real>, W: seq<real>, O: seq<real>,
                        e: seq<real>, rate: real, L: nat)
    requires WellSized(c) && |bn| == |B| == BiasCount(c) && L <= c.nHidden
    requires |W| == WeightCount(c) && |O| == NeuronCount(c) && |e| == c.nOutput
    requires BiasStepped(c, bn, B, LayerDelta(c, W, O, e, L), rate, L)
    requires c.useBias != 0 ==>
               forall l :: L + 1 <= l <= c.nHidden ==> BiasStepped(c, bn, B, LayerDelta(c, W, O, e, l), rate, l)
    requires forall k :: 0 <= k < |bn| && k < NeuronOffset(c, L) ==> bn[k] == B[k]
    ensures BiasesFrom(c, bn, B, W, O, e, rate, L)
  {
    forall l | L <= l <= c.nHidden
      ensures BiasStepped(c, bn, B, LayerDelta(c, W, O, e, l), rate, l)
    {
    }
  }

  /** Layer l's biases moved by d, from a buffer that agreed with B on that layer, are B's stepped by d. */
  lemma StepTaken(c: Config, bn: seq<real>, b0: seq<real>, B: seq<real>, d: seq<real>, rate: real, l: nat)
    requires WellSized(c) && |bn| == |b0| == |B| == BiasCount(c) && l <= c.nHidden && |d| == LayerOut(c, l)
    requires c.useBias != 0 ==> Neurons(c, B, l) == Neurons(c, b0, l)
    requires c.useBias != 0 ==> Neurons(c, bn, l) == BiasesMoved(Neurons(c, b0, l), d, rate)
    ensures BiasStepped(c, bn, B, d, rate, l)
  {
  }

  /** Biases of the layers above L, already moved, stay moved when only layer L's slice changes. */
  lemma BiasesAboveKept(c: Config, b0: seq<real>, bn: seq<real>, B: seq<real>, W: seq<real>, O: seq<real>,
                        e: seq<real>, rate: real, L: nat)
    requires WellSized(c) && |b0| == |bn| == |B| == BiasCount(c) && L < c.nHidden
    requires |W| == WeightCount(c) && |O| == NeuronCount(c) && |e| == c.nOutput
    requires BiasesFrom(c, b0, B, W, O, e, rate, L + 1)
    requires forall k :: 0 <= k < |bn| && !(NeuronOffset(c, L) <= k < NeuronOffset(c, L) + LayerOut(c, L)) ==>
               bn[k] == b0[k]
    ensures forall l :: L + 1 <= l <= c.nHidden ==> BiasStepped(c, bn, B, LayerDelta(c, W, O, e, l), rate, l)
  {
    var D := (l: nat) => if l <= c.nHidden then LayerDelta(c, W, O, e, l) else [];
    assert forall l :: L + 1 <= l <= c.nHidden ==> D(l) == LayerDelta(c, W, O, e, l);
    SteppedKept(c, b0, bn, B, D, rate, L);
  }

  /** `BiasesAboveKept` for any family of per-layer deltas D. */
  lemma SteppedKept(c: Config, b0: seq<real>, bn: seq<real>, B: seq<real>, D: nat -> seq<real>, rate: real, L: nat)
    requires WellSized(c) && |b0| == |bn| == |B| == BiasCount(c) && L < c.nHidden
    requires forall l :: L + 1 <= l <= c.nHidden ==> |D(l)| == LayerOut(c, l)
    requires forall l :: L + 1 <= l <= c.nHidden ==> BiasStepped(c, b0, B, D(l), rate, l)
    requires forall k :: 0 <= k < |bn| && !(NeuronOffset(c, L) <= k < NeuronOffset(c, L) + LayerOut(c, L)) ==>
               bn[k] == b0[k]
    ensures forall l :: L + 1 <= l <= c.nHidden ==> BiasStepped(c, bn, B, D(l), rate, l)
  {
    NeuronRegionFits(c, L);
    forall l | L + 1 <= l <= c.nHidden
      ensures BiasStepped(c, bn, B, D(l), rate, l)
    {
      if c.useBias != 0 {
        NeuronOffsetMonotone(c, L + 1, l);
        NeuronsAgree(c, b0, bn, l);
      }
      StepKept(c, bn, b0, B, D(l), rate, l);
    }
  }

  /** A layer whose biases read the same in two buffers is stepped in one exactly when in the other. */
  lemma StepKept(c: Config, bn: seq<real>, b0: seq<real>, B: seq<real>, d: seq<real>, rate: real, l: nat)
    requires WellSized(c) && |bn| == |b0| == |B| == BiasCount(c) && l <= c.nHidden && |d| == LayerOut(c, l)
    requires c.useBias != 0 ==> Neurons(c, bn, l) == Neurons(c, b0, l)
    requires BiasStepped(c, b0, B, d, rate, l)
    ensures BiasStepped(c, bn, B, d, rate, l)
  {
  }

  /**
   * Step 2b (or the final correction, for l0 = 0) corrects layer l0's matrix
   * by its deltas and the input it read, with the matrices above l0 already done.
   */
  lemma WeightsBack(c: Config, w0: seq<real>, wn: seq<real>, W: seq<real>, O: seq<real>, x: seq<real>,
                    e: seq<real>, rate: real, l0: nat)
    requires WellSized(c) && |w0| == |wn| == |W| == WeightCount(c) && |O| == NeuronCount(c)
    requires |x| == c.nInput && |e| == c.nOutput && l0 <= c.nHidden && LayerInBounds(c, l0)
    requires WeightsFrom(c, w0, W, O, x, e, rate, l0 + 1)
    requires Corrected(wn, w0, WeightOffset(c, l0), LayerDelta(c, W, O, e, l0), TrainInput(c, O, x, l0), rate)
    requires forall k :: 0 <= k < |wn| && k < WeightOffset(c, l0) ==> wn[k] == w0[k]
    requires forall k :: 0 <= k < |wn| && WeightOffset(c, l0 + 1) <= k ==> wn[k] == w0[k]
    ensures WeightsFrom(c, wn, W, O, x, e, rate, l0)
  {
    WeightsStep(c, wn, w0, W, LayerDelta(c, W, O, e, l0), TrainInput(c, O, x, l0), rate, l0);
    WeightsAboveAll(c, w0, wn, W, O, x, e, rate, l0);
  }

  /** A correction of layer l0's matrix keeps the corrected matrices of the layers above. */
  lemma WeightsAboveAll(c: Config, w0: seq<real>, wn: seq<real>, W: seq<real>, O: seq<real>, x: seq<real>,
                        e: seq<real>, rate: real, l0: nat)
    requires WellSized(c) && |w0| == |wn| == |W| == WeightCount(c) && |O| == NeuronCount(c)
    requires |x| == c.nInput && |e| == c.nOutput && l0 <= c.nHidden
    requires WeightsFrom(c, w0, W, O, x, e, rate, l0 + 1)
    requires forall k :: 0 <= k < |wn| && WeightOffset(c, l0 + 1) <= k ==> wn[k] == w0[k]
    ensures forall l :: l0 < l <= c.nHidden ==>
              WeightsStepped(c, wn, W, LayerDelta(c, W, O, e, l), TrainInput(c, O, x, l), rate, l)
  {
    forall l | l0 < l <= c.nHidden
      ensures WeightsStepped(c, wn, W, LayerDelta(c, W, O, e, l), TrainInput(c, O, x, l), rate, l)
    {
      WeightsAbove(c, w0, wn, W, O, x, e, rate, l0, l);
    }
  }
  /** A correction of layer l0's matrix leaves the corrected matrix of a later layer l as it was. */
  lemma WeightsAbove(c: Config, w0: seq<real>, wn: seq<real>, W: seq<real>, O: seq<real>, x: seq<real>,
                     e: seq<real>, rate: real, l0: nat, l: nat)
    requires WellSized(c) && |w0| == |wn| == |W| == WeightCount(c) && |O| == NeuronCount(c)
    requires |x| == c.nInput && |e| == c.nOutput && l0 < l <= c.nHidden
    requires WeightsStepped(c, w0, W, LayerDelta(c, W, O, e, l), TrainInput(c, O, x, l), rate, l)
    requires forall k :: 0 <= k < |wn| && WeightOffset(c, l0 + 1) <= k ==> wn[k] == w0[k]
    ensures WeightsStepped(c, wn, W, LayerDelta(c, W, O, e, l), TrainInput(c, O, x, l), rate, l)
  {
    WeightOffsetNonNegative(c, l0 + 1);
    WeightOffsetOrdered(c, l0 + 1, l);
    WeightsFrame(c, wn, w0, W, LayerDelta(c, W, O, e, l), TrainInput(c, O, x, l), rate, l,
                 WeightOffset(c, l0 + 1));
  }

  /** Each delta of d times the rate is zero. */
  predicate Zeroed(d: seq<real>, rate: real) {
    forall i :: 0 <= i < |d| ==> d[i] * rate == 0.0
  }

  /** Every move training makes, a layer's delta times the rate, is zero. */
  ghost predicate NoMove(c: Config, W: seq<real>, O: seq<real>, e: seq<real>, rate: real)
    requires WellSized(c) && |W| == WeightCount(c) && |O| == NeuronCount(c) && |e| == c.nOutput
  {
    forall l :: 0 <= l <= c.nHidden ==> Zeroed(LayerDelta(c, W, O, e, l), rate)
  }

  /** An offset t inside an m-row, n-column matrix is entry (t / n, t % n). */
  lemma EntryOf(t: int, n: int, m: int)
    requires 0 <= n && 0 <= m && 0 <= t < m * n
    ensures 0 < n && 0 <= t / n < m && 0 <= t % n < n && t == t / n * n + t % n
  {
    if n == 0 {
      assert false;
    }
    if t / n >= m {
      MulMonotone(m, t / n, n);
    }
  }

  lemma ProductZero(d: real, v: real, rate: real)
    requires d * rate == 0.0
    ensures d * v * rate == 0.0
  {
    assert d * v * rate == (d * rate) * v;
  }

  /** A matrix correction whose every move is zero leaves layer l's matrix as it was. */
  lemma RegionStill(c: Config, wn: seq<real>, W: seq<real>, d: seq<real>, inp: seq<real>, rate: real, l: nat)
    requires WellSized(c) && |wn| == |W| == WeightCount(c) && l <= c.nHidden
    requires |d| == LayerOut(c, l) && |inp| == LayerIn(c, l)
    requires WeightsStepped(c, wn, W, d, inp, rate, l) && Zeroed(d, rate)
    ensures forall k :: 0 <= k < |wn| && WeightOffset(c, l) <= k < WeightOffset(c, l + 1) ==> wn[k] == W[k]
  {
    var lo := WeightOffset(c, l);
    var n := |inp|;
    WeightRegionFits(c, l);
    forall k | lo <= k < WeightOffset(c, l + 1)
      ensures wn[k] == W[k]
    {
      EntryOf(k - lo, n, |d|);
      var i, j := (k - lo) / n, (k - lo) % n;
      assert At(lo, i, n, j) == k;
      assert wn[k] == W[k] + d[i] * inp[j] * rate;
      ProductZero(d[i], inp[j], rate);
    }
  }

  /** When no move is made, the weights of the layers below l are still W. */
  lemma {:induction false} WeightsStillBelow(c: Config, wn: seq<real>, W: seq<real>, O: seq<real>, x: seq<real>,
                                             e: seq<real>, rate: real, l: nat)
    requires WellSized(c) && |wn| == |W| == WeightCount(c) && |O| == NeuronCount(c)
    requires |x| == c.nInput && |e| == c.nOutput && l <= c.nHidden + 1
    requires WeightsFrom(c, wn, W, O, x, e, rate, 0) && NoMove(c, W, O, e, rate)
    ensures forall k :: 0 <= k < |wn| && k < WeightOffset(c, l) ==> wn[k] == W[k]
  {
    if l > 0 {
      WeightsStillBelow(c, wn, W, O, x, e, rate, l - 1);
      RegionStill(c, wn, W, LayerDelta(c, W, O, e, l - 1), TrainInput(c, O, x, l - 1), rate, l - 1);
    }
  }

  /** A bias step whose every move is zero leaves layer l's biases as they were. */
  lemma SliceStill(c: Config, bn: seq<real>, B: seq<real>, d: seq<real>, rate: real, l: nat)
    requires WellSized(c) && c.useBias != 0 && |bn| == |B| == BiasCount(c) && l <= c.nHidden
    requires |d| == LayerOut(c, l) && BiasStepped(c, bn, B, d, rate, l) && Zeroed(d, rate)
    ensures forall k :: 0 <= k < |bn| && NeuronOffset(c, l) <= k < NeuronOffset(c, l) + LayerOut(c, l) ==>
              bn[k] == B[k]
  {
    NeuronRegionFits(c, l);
    var lo := NeuronOffset(c, l);
    forall k | lo <= k < lo + LayerOut(c, l)
      ensures bn[k] == B[k]
    {
      assert Neurons(c, bn, l)[k - lo] == bn[k] && Neurons(c, B, l)[k - lo] == B[k];
    }
  }

  /** When no move is made, the biases of layers 0..l are still B. */
  lemma {:induction false} BiasesStillBelow(c: Config, bn: seq<real>, B: seq<real>, W: seq<real>, O: seq<real>,
                                            e: seq<real>, rate: real, l: nat)
    requires WellSized(c) && c.useBias != 0 && |bn| == |B| == BiasCount(c) && |W| == WeightCount(c)
    requires |O| == NeuronCount(c) && |e| == c.nOutput && l <= c.nHidden
    requires BiasesFrom(c, bn, B, W, O, e, rate, 0) && NoMove(c, W, O, e, rate)
    ensures forall k :: 0 <= k < |bn| && k < NeuronOffset(c, l) + LayerOut(c, l) ==> bn[k] == B[k]
  {
    if l > 0 {
      BiasesStillBelow(c, bn, B, W, O, e, rate, l - 1);
      NeuronRegionFits(c, l - 1);
    } else {
      NeuronRegionFits(c, l);
    }
    SliceStill(c, bn, B, LayerDelta(c, W, O, e, l), rate, l);
  }

  /** A training step that makes no move leaves the weights and biases as they were. */
  lemma TrainStill(c: Config, dn: seq<real>, bn: seq<real>, wn: seq<real>, W: seq<real>, B: seq<real>,
                   O: seq<real>, x: seq<real>, e: seq<real>, rate: real)
    requires Trained(c, dn, bn, wn, W, B, O, x, e, rate) && NoMove(c, W, O, e, rate)
    ensures wn == W && bn == B
  {
    WeightsStillBelow(c, wn, W, O, x, e, rate, c.nHidden + 1);
    WeightOffsetClosedForm(c, c.nHidden + 1);
    if c.useBias != 0 {
      BiasesStillBelow(c, bn, B, W, O, e, rate, c.nHidden);
      NeuronRegionFits(c, c.nHidden);
    }
  }

  /** Training at rate 0 changes no weight and no bias. */
  lemma TrainZeroRate(c: Config, dn: seq<real>, bn: seq<real>, wn: seq<real>, W: seq<real>, B: seq<real>,
                      O: seq<real>, x: seq<real>, e: seq<real>)
    requires Trained(c, dn, bn, wn, W, B, O, x, e, 0.0)
    ensures wn == W && bn == B
  {
    TrainStill(c, dn, bn, wn, W, B, O, x, e, 0.0);
  }

  /** A column dotted with all-zero deltas is zero. */
  lemma {:induction false} ColumnDotZero(d: seq<real>, w: seq<real>, n: int, j: int, K: nat)
    requires K <= |d| && 0 <= j < n && K * n <= |w|
    requires forall k :: 0 <= k < K ==> d[k] == 0.0
    ensures ColumnDot(d, w, n, j, K) == 0.0
    decreases K
  {
    if K > 0 {
      assert (K - 1) * n <= K * n by {
        assert K * n == (K - 1) * n + n;
      }
      ColumnDotZero(d, w, n, j, K - 1);
    }
  }

  /** When the run already produced the expected outputs, every layer's deltas are zero. */
  lemma {:induction false} DeltasZeroAtTarget(c: Config, W: seq<real>, O: seq<real>, e: seq<real>, l: nat)
    requires WellSized(c) && |W| == WeightCount(c) && |O| == NeuronCount(c) && |e| == c.nOutput
    requires l <= c.nHidden && Neurons(c, O, c.nHidden) == e
    ensures forall i :: 0 <= i < LayerOut(c, l) ==> LayerDelta(c, W, O, e, l)[i] == 0.0
    decreases c.nHidden - l
  {
    if l < c.nHidden {
      DeltasZeroAtTarget(c, W, O, e, l + 1);
      var next := LayerDelta(c, W, O, e, l + 1);
      var m := Region(c, W, l + 1);
      forall i | 0 <= i < LayerOut(c, l)
        ensures LayerDelta(c, W, O, e, l)[i] == 0.0
      {
        ColumnDotZero(next, m, LayerOut(c, l), i, |next|);
      }
    }
  }

  /** Training on outputs that already are the expected ones changes no weight and no bias. */
  lemma TrainAtTarget(c: Config, dn: seq<real>, bn: seq<real>, wn: seq<real>, W: seq<real>, B: seq<real>,
                      O: seq<real>, x: seq<real>, e: seq<real>, rate: real)
    requires Trained(c, dn, bn, wn, W, B, O, x, e, rate) && Neurons(c, O, c.nHidden) == e
    ensures wn == W && bn == B
  {
    NoMoveAtTarget(c, W, O, e, rate);
    TrainStill(c, dn, bn, wn, W, B, O, x, e, rate);
  }

  /** On outputs that already are the expected ones, training makes no move, whatever the rate. */
  lemma NoMoveAtTarget(c: Config, W: seq<real>, O: seq<real>, e: seq<real>, rate: real)
    requires WellSized(c) && |W| == WeightCount(c) && |O| == NeuronCount(c) && |e| == c.nOutput
    requires Neurons(c, O, c.nHidden) == e
    ensures NoMove(c, W, O, e, rate)
  {
    forall l | 0 <= l <= c.nHidden
      ensures Zeroed(LayerDelta(c, W, O, e, l), rate)
    {
      DeltasZeroAtTarget(c, W, O, e, l);
    }
  }

  // ---------------------------------------------------------------------
  // Mutation over values
  // ---------------------------------------------------------------------

  /** `nn_gen_random`: a draw moved to [-0.5, 0.5]. */
  function Gen(r: RandVal): (g: real)
    ensures -0.5 <= g <= 0.5
  {
    Unit(r) - 0.5
  }

  /** `random_pick(rate)`: the draw falls below the rate. */
  predicate Pick(r: RandVal, rate: real) {
    Unit(r) < rate
  }

  /**
   * The randomize family, element by element:
   * `nn_randomize_with_scale` (Reset), `nn_randomize_with_scale_by_rate`
   * (ResetByRate), `nn_plus_randomize` (Shift), `nn_plus_randomize_by_rate`
   * (ShiftByRate); `nn_randomize` and `nn_randomize_by_rate` use scale 1.
   */
  datatype Mutation =
    | Reset(scale: real)
    | ResetByRate(scale: real, rate: real)
    | Shift(range: real)
    | ShiftByRate(range: real, rate: real)
  {
    /** The scale of a reset, or the range of a shift. */
    function Amount(): real {
      match this
      case Reset(s) => s
      case ResetByRate(s, _) => s
      case Shift(r) => r
      case ShiftByRate(r, _) => r
    }
  }

  /** `nn_gen_random() * 2 * s`: a draw spread over [-|s|, |s|]. */
  function Scaled(r: RandVal, s: real): real {
    Gen(r) * 2.0 * s
  }

  /** One element under a mutation, drawing from `st` at `at`: the new value and the next cursor. */
  function MutateOne(x: real, m: Mutation, st: nat -> RandVal, at: nat): (real, nat) {
    match m
    case Reset(scale) => (Scaled(st(at), scale), at + 1)
    case Shift(range) => (x + Scaled(st(at), range), at + 1)
    case ResetByRate(scale, rate) =>
      if Pick(st(at), rate) then (Scaled(st(at + 1), scale), at + 2) else (x, at + 1)
    case ShiftByRate(range, rate) =>
      if Pick(st(at), rate) then (x + Scaled(st(at + 1), range), at + 2) else (x, at + 1)
  }

  /** A buffer mutated front to back: the new contents and the cursor after the last draw. */
  function MutateSeq(s: seq<real>, m: Mutation, st: nat -> RandVal, at: nat): (r: (seq<real>, nat))
    ensures |r.0| == |s|
    decreases |s|
  {
    if |s| == 0 then ([], at)
    else
      var first := MutateOne(s[0], m, st, at);
      var rest := MutateSeq(s[1..], m, st, first.1);
      ([first.0] + rest.0, rest.1)
  }

  /** Bias buffer first (when the network has biases), then the weight buffer. */
  function MutateNet(useBias: bool, b: seq<real>, w: seq<real>, m: Mutation, st: nat -> RandVal,
                     at: nat): (r: (seq<real>, seq<real>, nat))
    ensures |r.0| == |b| && |r.1| == |w|
  {
    var bs := if useBias then MutateSeq(b, m, st, at) else (b, at);
    var ws := MutateSeq(w, m, st, bs.1);
    (bs.0, ws.0, ws.1)
  }

  /** What a mutation may do to one element: `y` is the new value of `x`. */
  predicate Allowed(x: real, y: real, m: Mutation) {
    match m
    case Reset(scale) => -Abs(scale) <= y <= Abs(scale)
    case ResetByRate(scale, _) => y == x || -Abs(scale) <= y <= Abs(scale)
    case Shift(range) => x - Abs(range) <= y <= x + Abs(range)
    case ShiftByRate(range, _) => y == x || x - Abs(range) <= y <= x + Abs(range)
  }

  function Abs(r: real): real {
    if r < 0.0 then -r else r
  }

  /** A draw scaled by `2 * s` lies within [-|s|, |s|]. */
  lemma ScaledDrawBound(r: RandVal, s: real)
    ensures -Abs(s) <= Scaled(r, s) <= Abs(s)
  {
    var g := Gen(r) * 2.0;
    assert -1.0 <= g <= 1.0;
    MulNonNegative(1.0 - g, Abs(s));
    MulNonNegative(g + 1.0, Abs(s));
  }

  lemma SquareNonNegative(a: real)
    ensures a * a >= 0.0
  {
    if a < 0.0 {
      MulNonNegative(-a, -a);
    } else {
      MulNonNegative(a, a);
    }
  }

  lemma MulNonNegative(a: real, b: real)
    requires a >= 0.0 && b >= 0.0
    ensures a * b >= 0.0
  {
  }

  /** Touch or leave: every element is either untouched or replaced/perturbed within bounds. */
  lemma {:induction false} MutateTouchOrLeave(s: seq<real>, m: Mutation, st: nat -> RandVal, at: nat)
    ensures forall i :: 0 <= i < |s| ==> Allowed(s[i], MutateSeq(s, m, st, at).0[i], m)
    decreases |s|
  {
    if |s| > 0 {
      var (y, at1) := MutateOne(s[0], m, st, at);
      MutateOneAllowed(s[0], m, st, at);
      MutateTouchOrLeave(s[1..], m, st, at1);
      var r := MutateSeq(s, m, st, at).0;
      assert r == [y] + MutateSeq(s[1..], m, st, at1).0;
      forall i | 0 <= i < |s| ensures Allowed(s[i], r[i], m) {
        if i > 0 {
          assert s[i] == s[1..][i - 1];
        }
      }
    }
  }

  lemma MutateOneAllowed(x: real, m: Mutation, st: nat -> RandVal, at: nat)
    ensures Allowed(x, MutateOne(x, m, st, at).0, m)
  {
    ScaledDrawBound(st(at), m.Amount());
    ScaledDrawBound(st(at + 1), m.Amount());
  }

  /** Every element consumes one or two draws. */
  lemma {:induction false} MutateDraws(s: seq<real>, m: Mutation, st: nat -> RandVal, at: nat)
    ensures at + |s| <= MutateSeq(s, m, st, at).1 <= at + 2 * |s|
    ensures (m.Reset? || m.Shift?) ==> MutateSeq(s, m, st, at).1 == at + |s|
    decreases |s|
  {
    if |s| > 0 {
      var (y, at1) := MutateOne(s[0], m, st, at);
      MutateDraws(s[1..], m, st, at1);
    }
  }

  /** `nn_randomize*` without a rate overwrites every element with the next draws, in order. */
  lemma {:induction false} ResetOverwritesAll(s: seq<real>, scale: real, st: nat -> RandVal, at: nat)
    ensures MutateSeq(s, Reset(scale), st, at).1 == at + |s|
    ensures forall i :: 0 <= i < |s| ==>
              MutateSeq(s, Reset(scale), st, at).0[i] == Scaled(st(at + i), scale)
    decreases |s|
  {
    if |s| > 0 {
      ResetOverwritesAll(s[1..], scale, st, at + 1);
      var r := MutateSeq(s, Reset(scale), st, at).0;
      var rest := MutateSeq(s[1..], Reset(scale), st, at + 1).0;
      var first := MutateOne(s[0], Reset(scale), st, at);
      assert first.1 == at + 1;
      assert r == [first.0] + rest;
      forall i | 0 <= i < |s| ensures r[i] == Scaled(st(at + i), scale) {
        if i > 0 {
          assert r[i] == rest[i - 1];
        }
      }
    }
  }

  /** A reset of the whole network: biases take the first draws, weights the following ones. */
  lemma ResetNet(useBias: bool, b: seq<real>, w: seq<real>, scale: real, st: nat -> RandVal, at: nat)
    requires useBias || |b| == 0
    ensures var r := MutateNet(useBias, b, w, Reset(scale), st, at);
            && r.2 == at + |b| + |w|
            && (forall i :: 0 <= i < |b| ==> r.0[i] == Scaled(st(at + i), scale))
            && (forall i :: 0 <= i < |w| ==> r.1[i] == Scaled(st(at + |b| + i), scale))
  {
    if useBias {
      ResetOverwritesAll(b, scale, st, at);
    }
    ResetOverwritesAll(w, scale, st, at + |b|);
  }

  /** With a rate of 0 or less nothing is picked: the buffer is left as it was, one draw per element. */
  lemma {:induction false} ZeroRateLeavesAll(s: seq<real>, m: Mutation, st: nat -> RandVal, at: nat)
    requires (m.ResetByRate? || m.ShiftByRate?) && m.rate <= 0.0
    ensures MutateSeq(s, m, st, at) == (s, at + |s|)
    decreases |s|
  {
    if |s| > 0 {
      assert !Pick(st(at), m.rate);
      ZeroRateLeavesAll(s[1..], m, st, at + 1);
      assert [s[0]] + s[1..] == s;
    }
  }

  /**
   * Crossover of two buffers: element i comes from x when the i-th coin
   * (`rand() & 1`, which for a non-negative draw is its parity) is 1, from y otherwise.
   */
  function Cross(x: seq<real>, y: seq<real>, st: nat -> RandVal, at: nat): (z: seq<real>)
    requires |x| <= |y|
    ensures |z| == |x|
    ensures forall i :: 0 <= i < |x| ==> z[i] == x[i] || z[i] == y[i]
  {
    seq(|x|, i requires 0 <= i < |x| => if st(at + i) % 2 == 1 then x[i] else y[i])
  }

  /** Crossing a buffer with itself reproduces it, whatever the coins. */
  lemma CrossSelf(x: seq<real>, st: nat -> RandVal, at: nat)
    ensures Cross(x, x, st, at) == x
  {
  }

  // ---------------------------------------------------------------------
  // The network object
  // ---------------------------------------------------------------------

  /**
   * `NeuralNetwork`: the configuration, the derived counts and four heap
   * buffers. Without bias the C struct leaves `bias` unallocated; here it is
   * an empty array.
   */
  class Network {
    const cfg: Config
    const nNeuro: int
    const nWeight: int
    const weight: array<real>
    const bias: array<real>
    const output: array<real>
    const delta: array<real>

    ghost predicate Valid()
      reads this
    {
      && WellSized(cfg)
      && nNeuro == NeuronCount(cfg)
      && nWeight == WeightCount(cfg)
      && weight.Length == nWeight
      && bias.Length == BiasCount(cfg)
      && output.Length == nNeuro
      && delta.Length == nNeuro
      && weight != bias && weight != output && weight != delta
      && bias != output && bias != delta && output != delta
    }

    ghost function Buffers(): set<object>
      reads this
    {
      {weight, bias, output, delta}
    }

    /** The biases hold draws `at`, `at + 1`, ... of `st` spread over [-1, 1], and the weights the draws after them. */
    ghost predicate Drawn(st: nat -> RandVal, at: nat)
      reads this, bias, weight
    {
      && (forall i :: 0 <= i < bias.Length ==> bias[i] == Scaled(st(at + i), 1.0))
      && (forall i :: 0 <= i < weight.Length ==> weight[i] == Scaled(st(at + bias.Length + i), 1.0))
    }

    /** The allocation part of `nn_create` and `nn_loadf`: sizes computed, buffers fresh. */
    constructor Init(c: Config)
      requires WellSized(c)
      ensures Valid() && cfg == c
      ensures fresh(weight) && fresh(bias) && fresh(output) && fresh(delta)
    {
      CountsNonNegative(c);
      var nw := ComputeNWeight(c);
      cfg := c;
      nNeuro := c.nOutput + c.nHidden * c.nPerHidden;
      nWeight := nw;
      weight := new real[nw];
      bias := new real[if c.useBias != 0 then NeuronCount(c) else 0];
      output := new real[NeuronCount(c)];
      delta := new real[NeuronCount(c)];
    }

    /** The randomize family on this network: the bias buffer (if any), then the weights. */
    method Mutate(m: Mutation, rng: CRand)
      requires Valid()
      modifies weight, bias, rng
      ensures Valid()
      ensures var r := MutateNet(cfg.useBias != 0, old(bias[..]), old(weight[..]), m, rng.stream, old(rng.pos));
              bias[..] == r.0 && weight[..] == r.1 && rng.pos == r.2
    {
      if cfg.useBias != 0 {
        MutateArray(bias, m, rng);
      }
      MutateArray(weight, m, rng);
    }

    /** `nn_randomize`: every bias and weight replaced by a draw in [-1, 1]. */
    method Randomize(rng: CRand)
      requires Valid()
      modifies weight, bias, rng
      ensures Valid()
      ensures var r := MutateNet(cfg.useBias != 0, old(bias[..]), old(weight[..]), Reset(1.0), rng.stream, old(rng.pos));
              bias[..] == r.0 && weight[..] == r.1 && rng.pos == r.2
    {
      Mutate(Reset(1.0), rng);
    }

    /** `nn_randomize_with_scale`: every bias and weight replaced by a draw in [-|scale|, |scale|]. */
    method RandomizeWithScale(scale: real, rng: CRand)
      requires Valid()
      modifies weight, bias, rng
      ensures Valid()
      ensures var r := MutateNet(cfg.useBias != 0, old(bias[..]), old(weight[..]), Reset(scale), rng.stream, old(rng.pos));
              bias[..] == r.0 && weight[..] == r.1 && rng.pos == r.2
    {
      Mutate(Reset(scale), rng);
    }

    /** `nn_randomize_by_rate`: each element replaced with probability `rate`. */
    method RandomizeByRate(rate: real, rng: CRand)
      requires Valid()
      modifies weight, bias, rng
      ensures Valid()
      ensures var r := MutateNet(cfg.useBias != 0, old(bias[..]), old(weight[..]), ResetByRate(1.0, rate), rng.stream, old(rng.pos));
              bias[..] == r.0 && weight[..] == r.1 && rng.pos == r.2
    {
      Mutate(ResetByRate(1.0, rate), rng);
    }

    /** `nn_randomize_with_scale_by_rate`. */
    method RandomizeWithScaleByRate(scale: real, rate: real, rng: CRand)
      requires Valid()
      modifies weight, bias, rng
      ensures Valid()
      ensures var r := MutateNet(cfg.useBias != 0, old(bias[..]), old(weight[..]), ResetByRate(scale, rate), rng.stream, old(rng.pos));
              bias[..] == r.0 && weight[..] == r.1 && rng.pos == r.2
    {
      Mutate(ResetByRate(scale, rate), rng);
    }

    /** `nn_plus_randomize`: every element moved by a draw in [-|range|, |range|]. */
    method PlusRandomize(range: real, rng: CRand)
      requires Valid()
      modifies weight, bias, rng
      ensures Valid()
      ensures var r := MutateNet(cfg.useBias != 0, old(bias[..]), old(weight[..]), Shift(range), rng.stream, old(rng.pos));
              bias[..] == r.0 && weight[..] == r.1 && rng.pos == r.2
    {
      Mutate(Shift(range), rng);
    }

    /** `nn_plus_randomize_by_rate`: each element moved with probability `rate`. */
    method PlusRandomizeByRate(range: real, rate: real, rng: CRand)
      requires Valid()
      modifies weight, bias, rng
      ensures Valid()
      ensures var r := MutateNet(cfg.useBias != 0, old(bias[..]), old(weight[..]), ShiftByRate(range, rate), rng.stream, old(rng.pos));
              bias[..] == r.0 && weight[..] == r.1 && rng.pos == r.2
    {
      Mutate(ShiftByRate(range, rate), rng);
    }

    /**
     * `nn_run`: the hidden layers in order, each reading the previous layer's
     * outputs, then the output layer; every layer's outputs stay in the
     * output buffer and the result is its last `n_output` entries.
     */
    method Run(input: seq<real>, f: Curves) returns (r: seq<real>)
      requires Valid() && |input| == cfg.nInput
      modifies output
      ensures Valid()
      ensures forall l :: 0 <= l <= cfg.nHidden ==>
                LayerStored(cfg, output[..], weight[..], bias[..], input, f, l)
      ensures r == Forward(cfg, weight[..], bias[..], input, f, cfg.nHidden)
      ensures r == output[nNeuro - cfg.nOutput..]
    {
      ghost var w := weight[..];
      ghost var b := bias[..];
      var x, o, wo := RunHidden(w, b, input, f);
      OutputLayerFits(cfg);
      RunLayer(cfg.nHidden, w, b, input, cfg.actOutput, x, o, wo, cfg.nOutput, f);
      r := output[o..o + cfg.nOutput];
    }

    /**
     * The hidden-layer loop of `nn_run`: afterwards every hidden layer is
     * stored, and x, o and wo are the output layer's input and offsets.
     */
    method RunHidden(ghost w: seq<real>, ghost b: seq<real>, input: seq<real>, f: Curves)
      returns (x: seq<real>, o: int, wo: int)
      requires Valid() && |input| == cfg.nInput && w == weight[..] && b == bias[..]
      modifies output
      ensures o == NeuronOffset(cfg, cfg.nHidden) && wo == WeightOffset(cfg, cfg.nHidden)
      ensures x == LayerInput(cfg, w, b, input, f, cfg.nHidden)
      ensures forall l :: 0 <= l < cfg.nHidden ==> LayerStored(cfg, output[..], w, b, input, f, l)
    {
      x := input;
      var nIn := cfg.nInput;
      o := 0;
      wo := 0;
      var i := 0;
      while i < cfg.nHidden
        invariant 0 <= i <= cfg.nHidden
        invariant o == NeuronOffset(cfg, i) && wo == WeightOffset(cfg, i) && nIn == LayerIn(cfg, i)
        invariant x == LayerInput(cfg, w, b, input, f, i)
        invariant forall l :: 0 <= l < i ==> LayerStored(cfg, output[..], w, b, input, f, l)
      {
        HiddenLayerFits(cfg, i);
        RunLayer(i, w, b, input, cfg.actHidden, x, o, wo, cfg.nPerHidden, f);
        x := output[o..o + cfg.nPerHidden];
        NextInput(cfg, w, b, input, f, i);
        o := o + cfg.nPerHidden;
        wo := wo + nIn * cfg.nPerHidden;
        nIn := cfg.nPerHidden;
        i := i + 1;
      }
    }

    /** Layer l + 1 reads what layer l produced. */
    static lemma NextInput(c: Config, w: seq<real>, b: seq<real>, x: seq<real>, f: Curves, l: nat)
      requires Shaped(c, w, b, x) && l < c.nHidden
      ensures LayerInput(c, w, b, x, f, l + 1) == Forward(c, w, b, x, f, l)
    {
    }

    /**
     * One `nn_forward_propagation` call of `nn_run`: layer l, at offsets o
     * and wo, applied to x, the layer's input; afterwards layers 0..l are stored.
     */
    method RunLayer(ghost l: nat, ghost w: seq<real>, ghost b: seq<real>, ghost input: seq<real>,
                    kind: int, x: seq<real>, o: int, wo: int, m: int, f: Curves)
      requires Valid() && l <= cfg.nHidden && LayerInBounds(cfg, l) && |input| == cfg.nInput
      requires w == weight[..] && b == bias[..]
      requires kind == LayerAct(cfg, l) && m == LayerOut(cfg, l)
      requires o == NeuronOffset(cfg, l) && wo == WeightOffset(cfg, l)
      requires x == LayerInput(cfg, w, b, input, f, l)
      requires forall l' :: 0 <= l' < l ==> LayerStored(cfg, output[..], w, b, input, f, l')
      modifies output
      ensures forall l' :: 0 <= l' <= l ==> LayerStored(cfg, output[..], w, b, input, f, l')
      ensures output[o..o + m] == Forward(cfg, w, b, input, f, l)
    {
      ghost var before := output[..];
      var bs: seq<real> := [];
      if cfg.useBias != 0 {
        assert o + m <= NeuronCount(cfg) <= BiasCount(cfg) == bias.Length;
        bs := bias[o..];
      }
      MulMonotone(0, LayerOut(cfg, l), LayerIn(cfg, l));
      assert wo <= WeightCount(cfg) == weight.Length;
      ForwardLayer(kind, cfg.useBias != 0, x, output, o, m, bs, weight[wo..], f);
      assert forall k :: 0 <= k < m ==> output[..][o + k] == Step(cfg, w, b, x, f, l)[k];
      StoredAfterLayer(cfg, before, output[..], w, b, input, f, l);
    }

    /**
     * `nn_train`: one run, then back propagation from the output layer down
     * to the first hidden layer (each layer's deltas and biases, then the
     * matrix above it), and last the first matrix corrected by the input.
     * The result is what the run returned; the outputs stay those of the run.
     */
    method Train(input: seq<real>, expected: seq<real>, rate: real, f: Curves) returns (r: seq<real>)
      requires Valid() && |input| == cfg.nInput && |expected| == cfg.nOutput
      modifies output, delta, bias, weight
      ensures Valid()
      ensures r == Forward(cfg, old(weight[..]), old(bias[..]), input, f, cfg.nHidden)
      ensures forall l :: 0 <= l <= cfg.nHidden ==>
                LayerStored(cfg, output[..], old(weight[..]), old(bias[..]), input, f, l)
      ensures Trained(cfg, delta[..], bias[..], weight[..], old(weight[..]), old(bias[..]), output[..],
                      input, expected, rate)
    {
      r := Run(input, f);
      ghost var W := weight[..];
      ghost var B := bias[..];
      ghost var O := output[..];
      // 1. the output layer
      var nOut := cfg.nOutput;
      var o := nNeuro - nOut;
      BackOutputDeltas(W, O, expected, o);
      BackBiases(B, W, O, expected, rate, cfg.nHidden, o, nOut);
      // 2. the hidden layers, last to first
      WeightOffsetClosedForm(cfg, cfg.nHidden + 1);
      NeuronRegionFits(cfg, cfg.nHidden);
      var nw := nWeight;
      var i := 0;
      while i < cfg.nHidden
        invariant 0 <= i <= cfg.nHidden
        invariant output[..] == O
        invariant o == NeuronOffset(cfg, cfg.nHidden - i) && nOut == LayerOut(cfg, cfg.nHidden - i)
        invariant nw == WeightOffset(cfg, cfg.nHidden - i + 1)
        invariant DeltasFrom(cfg, delta[..], W, O, expected, cfg.nHidden - i)
        invariant BiasesFrom(cfg, bias[..], B, W, O, expected, rate, cfg.nHidden - i)
        invariant WeightsFrom(cfg, weight[..], W, O, input, expected, rate, cfg.nHidden - i + 1)
      {
        ghost var L := cfg.nHidden - i - 1;
        var nNext := nOut;
        nOut := cfg.nPerHidden;
        nw := nw - nNext * nOut;
        var nd := o;
        o := o - nOut;
        LayerSteps(L);
        BackHidden(W, B, O, input, expected, rate, L, o, nd, nw, nNext);
        i := i + 1;
      }
      // 3. the first matrix, reading the input
      var nNext := nOut;
      nw := nw - nNext * cfg.nInput;
      LayerSteps(0);
      BackCorrect(W, O, input, expected, rate, 0, nw, 0, nNext, input);
    }

    /** The C code's pointer steps from layer L+1 down to layer L (or to the input, for L = 0). */
    lemma LayerSteps(L: nat)
      requires Valid() && L <= cfg.nHidden
      ensures NeuronOffset(cfg, L) + LayerOut(cfg, L) == if L < cfg.nHidden then NeuronOffset(cfg, L + 1)
                                                          else nNeuro
      ensures L < cfg.nHidden ==> WeightOffset(cfg, L + 2) - LayerOut(cfg, L + 1) * cfg.nPerHidden
                                    == WeightOffset(cfg, L + 1)
      ensures L < cfg.nHidden ==> LayerOut(cfg, L) == cfg.nPerHidden
      ensures WeightOffset(cfg, 1) - LayerOut(cfg, 0) * cfg.nInput == 0
    {
      NeuronRegionFits(cfg, L);
      if L < cfg.nHidden {
        MatrixStep(cfg, L + 1);
      }
      MatrixStep(cfg, 0);
    }

    /**
     * One round of step 2 of `nn_train`, for hidden layer L: its deltas and
     * biases, then layer L+1's matrix corrected by layer L's outputs. o, nd
     * and nw are where the C code's pointers stand in this round.
     */
    method BackHidden(ghost W: seq<real>, ghost B: seq<real>, ghost O: seq<real>, input: seq<real>,
                      expected: seq<real>, rate: real, ghost L: nat, o: int, nd: int, nw: int, nNext: int)
      requires Valid() && L < cfg.nHidden && |input| == cfg.nInput && |expected| == cfg.nOutput
      requires |W| == nWeight && |B| == bias.Length && output[..] == O
      requires o == NeuronOffset(cfg, L) && nd == NeuronOffset(cfg, L + 1)
      requires nw == WeightOffset(cfg, L + 1) && nNext == LayerOut(cfg, L + 1)
      requires DeltasFrom(cfg, delta[..], W, O, expected, L + 1)
      requires BiasesFrom(cfg, bias[..], B, W, O, expected, rate, L + 1)
      requires WeightsFrom(cfg, weight[..], W, O, input, expected, rate, L + 2)
      modifies delta, bias, weight
      ensures DeltasFrom(cfg, delta[..], W, O, expected, L)
      ensures BiasesFrom(cfg, bias[..], B, W, O, expected, rate, L)
      ensures WeightsFrom(cfg, weight[..], W, O, input, expected, rate, L + 1)
    {
      NeuronRegionFits(cfg, L);
      BackHiddenDeltas(W, O, input, expected, rate, L, o, nd, nw, nNext);
      BackBiases(B, W, O, expected, rate, L, o, nd - o);
      assert output[o..nd] == TrainInput(cfg, O, input, L + 1);
      BackCorrect(W, O, input, expected, rate, L + 1, nw, nd, nNext, output[o..nd]);
    }

    /** The delta half of step 1 of `nn_train`, for the output layer stored from o. */
    method BackOutputDeltas(ghost W: seq<real>, ghost O: seq<real>, expected: seq<real>, o: int)
      requires Valid() && |expected| == cfg.nOutput
      requires weight[..] == W && output[..] == O && o == nNeuro - cfg.nOutput
      modifies delta
      ensures DeltasFrom(cfg, delta[..], W, O, expected, cfg.nHidden)
    {
      NeuronRegionFits(cfg, cfg.nHidden);
      OutputDeltaLayer(cfg.actOutput, expected, output[o..nNeuro], delta, o);
      ghost var dn := delta[..];
      assert Neurons(cfg, dn, cfg.nHidden) == delta[o..nNeuro];
      OutputDeltasBack(cfg, dn, W, O, expected);
    }

    /**
     * The delta half of step 2a of `nn_train`, for hidden layer L stored from
     * o; layer L+1's deltas are at nd and its matrix, not yet corrected, at nw.
     */
    method BackHiddenDeltas(ghost W: seq<real>, ghost O: seq<real>, ghost x: seq<real>, expected: seq<real>,
                            ghost rate: real, ghost L: nat, o: int, nd: int, nw: int, nNext: int)
      requires Valid() && L < cfg.nHidden && |expected| == cfg.nOutput && |x| == cfg.nInput
      requires |W| == nWeight && output[..] == O
      requires o == NeuronOffset(cfg, L) && nd == NeuronOffset(cfg, L + 1)
      requires nw == WeightOffset(cfg, L + 1) && nNext == LayerOut(cfg, L + 1)
      requires DeltasFrom(cfg, delta[..], W, O, expected, L + 1)
      requires WeightsFrom(cfg, weight[..], W, O, x, expected, rate, L + 2)
      modifies delta
      ensures DeltasFrom(cfg, delta[..], W, O, expected, L)
    {
      HiddenRoundFits(cfg, L);
      ghost var d0 := delta[..];
      ghost var w0 := weight[..];
      assert weight[nw..nw + nNext * cfg.nPerHidden] == Region(cfg, w0, L + 1);
      HiddenDeltaLayer(cfg.actHidden, delta[nd..nd + nNext], weight[nw..nw + nNext * cfg.nPerHidden],
                       output[o..nd], delta, o);
      ghost var dn := delta[..];
      assert Neurons(cfg, dn, L) == delta[o..nd];
      DeltasBack(cfg, d0, dn, W, w0, O, expected, L);
    }

    /** The bias half of steps 1 and 2a of `nn_train`, for layer L stored from o with n neurons. */
    method BackBiases(ghost B: seq<real>, ghost W: seq<real>, ghost O: seq<real>, expected: seq<real>,
                      rate: real, ghost L: nat, o: int, n: int)
      requires Valid() && L <= cfg.nHidden && |expected| == cfg.nOutput
      requires |B| == bias.Length && |W| == nWeight && |O| == nNeuro
      requires o == NeuronOffset(cfg, L) && n == LayerOut(cfg, L)
      requires DeltasFrom(cfg, delta[..], W, O, expected, L)
      requires L < cfg.nHidden ==> BiasesFrom(cfg, bias[..], B, W, O, expected, rate, L + 1)
      requires L == cfg.nHidden ==> bias[..] == B
      modifies bias
      ensures BiasesFrom(cfg, bias[..], B, W, O, expected, rate, L)
    {
      NeuronRegionFits(cfg, L);
      ghost var dl := LayerDelta(cfg, W, O, expected, L);
      assert DeltaStored(cfg, delta[..], W, O, expected, L);
      assert delta[o..o + n] == dl;
      ghost var b0 := bias[..];
      if cfg.useBias != 0 {
        MoveBiases(bias, o, delta[o..o + n], rate);
        assert Neurons(cfg, bias[..], L) == BiasesMoved(Neurons(cfg, b0, L), dl, rate);
      }
      BiasesBack(cfg, b0, bias[..], B, W, O, expected, rate, L);
    }

    /**
     * `nn_correct` in step 2b of `nn_train` (or its last call, for l0 = 0):
     * layer l0's matrix, at nw, corrected by its deltas, at nd, and the input
     * it read.
     */
    method BackCorrect(ghost W: seq<real>, ghost O: seq<real>, ghost x: seq<real>, ghost expected: seq<real>,
                       rate: real, ghost l0: nat, nw: int, nd: int, nNext: int, inp: seq<real>)
      requires Valid() && l0 <= cfg.nHidden && |x| == cfg.nInput && |expected| == cfg.nOutput
      requires |W| == nWeight && |O| == nNeuro
      requires nw == WeightOffset(cfg, l0) && nd == NeuronOffset(cfg, l0) && nNext == LayerOut(cfg, l0)
      requires inp == TrainInput(cfg, O, x, l0)
      requires DeltasFrom(cfg, delta[..], W, O, expected, l0)
      requires WeightsFrom(cfg, weight[..], W, O, x, expected, rate, l0 + 1)
      modifies weight
      ensures WeightsFrom(cfg, weight[..], W, O, x, expected, rate, l0)
    {
      LayerFits(cfg, l0);
      WeightRegionFits(cfg, l0);
      ghost var w0 := weight[..];
      ghost var d := LayerDelta(cfg, W, O, expected, l0);
      assert DeltaStored(cfg, delta[..], W, O, expected, l0);
      assert delta[nd..nd + nNext] == d;
      Correct(weight, nw, delta[nd..nd + nNext], inp, rate);
      assert Corrected(weight[..], w0, WeightOffset(cfg, l0), d, inp, rate);
      WeightsBack(cfg, w0, weight[..], W, O, x, expected, rate, l0);
    }

  }

  /** One element of a randomize loop: `random_pick` first when there is a rate, then `nn_gen_random`. */
  method MutateElement(x: real, m: Mutation, rng: CRand) returns (y: real)
    modifies rng
    ensures y == MutateOne(x, m, rng.stream, old(rng.pos)).0
    ensures rng.pos == MutateOne(x, m, rng.stream, old(rng.pos)).1
  {
    match m
    case Reset(scale) =>
      var r := rng.Next();
      y := Scaled(r, scale);
    case Shift(range) =>
      var r := rng.Next();
      y := x + Scaled(r, range);
    case ResetByRate(scale, rate) =>
      var p := rng.Next();
      y := x;
      if Pick(p, rate) {
        var r := rng.Next();
        y := Scaled(r, scale);
      }
    case ShiftByRate(range, rate) =>
      var p := rng.Next();
      y := x;
      if Pick(p, rate) {
        var r := rng.Next();
        y := x + Scaled(r, range);
      }
  }

  /** One buffer of a randomize function, front to back. */
  method MutateArray(a: array<real>, m: Mutation, rng: CRand)
    modifies a, rng
    ensures a[..] == MutateSeq(old(a[..]), m, rng.stream, old(rng.pos)).0
    ensures rng.pos == MutateSeq(old(a[..]), m, rng.stream, old(rng.pos)).1
  {
    ghost var s := a[..];
    ghost var at := rng.pos;
    var i := 0;
    while i < a.Length
      invariant 0 <= i <= a.Length
      invariant forall k :: i <= k < a.Length ==> a[k] == s[k]
      invariant a[..i] + MutateSeq(s[i..], m, rng.stream, rng.pos).0 == MutateSeq(s, m, rng.stream, at).0
      invariant MutateSeq(s[i..], m, rng.stream, rng.pos).1 == MutateSeq(s, m, rng.stream, at).1
    {
      ghost var p := rng.pos;
      ghost var done := a[..i];
      var y := MutateElement(a[i], m, rng);
      MutateSeqStep(done, s, i, m, rng.stream, p, at);
      a[i] := y;
      assert a[..i + 1] == done + [y];
      i := i + 1;
    }
    assert a[..a.Length] == a[..];
  }

  /** Mutating element i moves it from the part still to do onto the part done. */
  lemma MutateSeqStep(done: seq<real>, s: seq<real>, i: nat, m: Mutation, st: nat -> RandVal, p: nat, at: nat)
    requires i < |s|
    requires done + MutateSeq(s[i..], m, st, p).0 == MutateSeq(s, m, st, at).0
    requires MutateSeq(s[i..], m, st, p).1 == MutateSeq(s, m, st, at).1
    ensures var one := MutateOne(s[i], m, st, p);
            && (done + [one.0]) + MutateSeq(s[i + 1..], m, st, one.1).0 == MutateSeq(s, m, st, at).0
            && MutateSeq(s[i + 1..], m, st, one.1).1 == MutateSeq(s, m, st, at).1
  {
    assert s[i..][1..] == s[i + 1..];
  }

  /**
   * `nn_create`: null when a size is negative or hidden layers have no
   * neurons; otherwise a fresh network whose biases and then weights are the
   * next draws spread over [-1, 1].
   */
  method Create(c: Config, rng: CRand) returns (nn: Network?)
    modifies rng
    ensures nn == null <==> !Accepted(c)
    ensures nn == null ==> rng.pos == old(rng.pos)
    ensures nn != null ==>
              && fresh(nn) && fresh(nn.Buffers()) && nn.Valid() && nn.cfg == c
              && rng.pos == old(rng.pos) + BiasCount(c) + WeightCount(c)
              && nn.Drawn(rng.stream, old(rng.pos))
  {
    if c.nInput < 0 || c.nOutput < 0 || c.nHidden < 0 || (c.nHidden > 0 && c.nPerHidden < 1) {
      return null;
    }
    nn := new Network.Init(c);
    ghost var at := rng.pos;
    ghost var b0 := nn.bias[..];
    ghost var w0 := nn.weight[..];
    nn.Randomize(rng);
    ResetBuffers(nn, b0, w0, rng.stream, at);
  }

  /** A network whose buffers were reset from draw `at` on holds those draws, biases first. */
  lemma ResetBuffers(nn: Network, b0: seq<real>, w0: seq<real>, st: nat -> RandVal, at: nat)
    requires nn.Valid() && |b0| == nn.bias.Length && |w0| == nn.weight.Length
    requires var r := MutateNet(nn.cfg.useBias != 0, b0, w0, Reset(1.0), st, at);
             nn.bias[..] == r.0 && nn.weight[..] == r.1
    ensures MutateNet(nn.cfg.useBias != 0, b0, w0, Reset(1.0), st, at).2 == at + BiasCount(nn.cfg) + WeightCount(nn.cfg)
    ensures nn.Drawn(st, at)
  {
    ResetNet(nn.cfg.useBias != 0, b0, w0, 1.0, st, at);
    assert forall i :: 0 <= i < nn.bias.Length ==> nn.bias[i] == nn.bias[..][i];
    assert forall i :: 0 <= i < nn.weight.Length ==> nn.weight[i] == nn.weight[..][i];
  }

  /** The fields `nn_produce` compares (`use_bias` is not among them). */
  predicate SameShape(a: Config, b: Config) {
    && a.nInput == b.nInput
    && a.nOutput == b.nOutput
    && a.nHidden == b.nHidden
    && a.nPerHidden == b.nPerHidden
    && a.actHidden == b.actHidden
    && a.actOutput == b.actOutput
  }

  /**
   * `nn_produce`: null when the shapes differ; otherwise a child created with
   * a's configuration whose biases and weights are then picked one by one
   * from a or b by coin flips. The C code dereferences the child, so a's
   * configuration must be one `nn_create` accepts, and it reads b's biases
   * whenever a has them.
   */
  method Produce(a: Network, b: Network, rng: CRand) returns (nn: Network?)
    requires a.Valid() && b.Valid()
    requires SameShape(a.cfg, b.cfg) ==> Accepted(a.cfg) && (a.cfg.useBias != 0 ==> b.cfg.useBias != 0)
    modifies rng
    ensures nn == null <==> !SameShape(a.cfg, b.cfg)
    ensures nn == null ==> rng.pos == old(rng.pos)
    ensures nn != null ==>
              var at := old(rng.pos) + BiasCount(a.cfg) + WeightCount(a.cfg);
              && fresh(nn) && fresh(nn.Buffers()) && nn.Valid() && nn.cfg == a.cfg
              && nn.bias[..] == Cross(a.bias[..], b.bias[..], rng.stream, at)
              && nn.weight[..] == Cross(a.weight[..], b.weight[..], rng.stream, at + BiasCount(a.cfg))
              && rng.pos == at + BiasCount(a.cfg) + WeightCount(a.cfg)
  {
    if !SameShape(a.cfg, b.cfg) {
      return null;
    }
    nn := Create(a.cfg, rng);
    if nn.cfg.useBias != 0 {
      CrossArray(nn.bias, a.bias, b.bias, rng);
    }
    CrossArray(nn.weight, a.weight, b.weight, rng);
  }

  /** One loop of `nn_produce`: each element of dst taken from x or y by the next coin. */
  method CrossArray(dst: array<real>, x: array<real>, y: array<real>, rng: CRand)
    requires dst.Length == x.Length <= y.Length
    requires dst != x && dst != y
    modifies dst, rng
    ensures dst[..] == Cross(x[..], y[..], rng.stream, old(rng.pos))
    ensures rng.pos == old(rng.pos) + x.Length
  {
    ghost var at := rng.pos;
    var i := 0;
    while i < x.Length
      invariant 0 <= i <= x.Length
      invariant rng.pos == at + i
      invariant forall k :: 0 <= k < i ==> dst[k] == if rng.stream(at + k) % 2 == 1 then x[k] else y[k]
    {
      var r := rng.Next();
      dst[i] := if r % 2 == 1 then x[i] else y[i];
      i := i + 1;
    }
  }

  /**
   * `nn_duplicate`: null for null; otherwise a network created with the same
   * configuration (which consumes draws) whose weights, and biases if any,
   * are then copied from the original into the fresh buffers.
   */
  method Duplicate(nn: Network?, rng: CRand) returns (copy: Network?)
    requires nn != null ==> nn.Valid() && Accepted(nn.cfg)
    modifies rng
    ensures copy == null <==> nn == null
    ensures nn == null ==> rng.pos == old(rng.pos)
    ensures copy != null ==>
              && fresh(copy) && fresh(copy.Buffers()) && copy.Valid() && copy.cfg == nn.cfg
              && copy.weight[..] == nn.weight[..] && copy.bias[..] == nn.bias[..]
              && rng.pos == old(rng.pos) + BiasCount(nn.cfg) + WeightCount(nn.cfg)
  {
    if nn == null {
      return null;
    }
    copy := Create(nn.cfg, rng);
    forall i | 0 <= i < nn.nWeight {
      copy.weight[i] := nn.weight[i];
    }
    if nn.cfg.useBias != 0 {
      forall i | 0 <= i < nn.nNeuro {
        copy.bias[i] := nn.bias[i];
      }
    }
  }

  /**
   * `nn_forward_propagation`: fills `out[off .. off+m)` with one layer's
   * values, neuron by neuron; everything else in `out` is left alone.
   */
  method ForwardLayer(kind: int, useBias: bool, x: seq<real>, out: array<real>, off: nat, m: nat,
                      b: seq<real>, w: seq<real>, f: Curves)
    requires off + m <= out.Length
    requires useBias ==> m <= |b|
    requires m * |x| <= |w|
    modifies out
    ensures forall k :: 0 <= k < m ==> out[off + k] == LayerValues(kind, useBias, x, b, w, m, f)[k]
    ensures forall k :: 0 <= k < out.Length && !(off <= k < off + m) ==> out[k] == old(out[k])
  {
    var i := 0;
    while i < m
      invariant 0 <= i <= m
      invariant forall k :: 0 <= k < i ==> out[off + k] == LayerValues(kind, useBias, x, b, w, m, f)[k]
      invariant forall k :: 0 <= k < out.Length && !(off <= k < off + i) ==> out[k] == old(out[k])
    {
      var acc := NeuronSum(if useBias then b[i] else 0.0, x, w, i, m);
      out[off + i] := Activate(kind, acc, f);
      i := i + 1;
    }
  }

  /** The inner loop of `nn_forward_propagation`: start from `base`, add row i of w times x. */
  method NeuronSum(base: real, x: seq<real>, w: seq<real>, i: nat, m: nat) returns (acc: real)
    requires i < m && m * |x| <= |w|
    ensures acc == base + Dot(Row(w, i, |x|, m), x)
  {
    RowFits(i, |x|, m);
    ghost var row := Row(w, i, |x|, m);
    acc := base;
    var j := 0;
    while j < |x|
      invariant 0 <= j <= |x|
      invariant acc == base + Dot(row[..j], x[..j])
    {
      DotStep(row, x, j);
      acc := acc + w[i * |x| + j] * x[j];
      j := j + 1;
    }
    assert row[..|x|] == row && x[..|x|] == x;
  }

  /**
   * The delta half of step 1 of `nn_train`: delta k of the output layer,
   * stored at off + k, is (expected - output) times the derivative at the output.
   */
  method OutputDeltaLayer(kind: int, e: seq<real>, o: seq<real>, dst: array<real>, off: nat)
    requires |e| == |o| && off + |o| <= dst.Length
    modifies dst
    ensures dst[off..off + |o|] == OutputDeltas(kind, e, o)
    ensures forall k :: 0 <= k < dst.Length && !(off <= k < off + |o|) ==> dst[k] == old(dst[k])
  {
    ghost var want := OutputDeltas(kind, e, o);
    var i := 0;
    while i < |o|
      invariant 0 <= i <= |o|
      invariant forall k :: 0 <= k < i ==> dst[off + k] == want[k]
      invariant forall k :: 0 <= k < dst.Length && !(off <= k < off + i) ==> dst[k] == old(dst[k])
    {
      dst[off + i] := e[i] - o[i];
      dst[off + i] := dst[off + i] * Derivative(kind, o[i]);
      i := i + 1;
    }
    ghost var dn := dst[off..off + |o|];
    forall k | 0 <= k < |o|
      ensures dn[k] == want[k]
    {
      assert dn[k] == dst[off + k];
    }
    assert dn == want;
  }

  /**
   * The delta half of step 2a of `nn_train` for one hidden layer whose
   * outputs are o: delta j, stored at off + j, is the next layer's deltas
   * dotted with column j of its weight matrix, times the derivative at o[j].
   */
  method HiddenDeltaLayer(kind: int, next: seq<real>, mat: seq<real>, o: seq<real>, dst: array<real>, off: nat)
    requires |next| * |o| <= |mat| && off + |o| <= dst.Length
    modifies dst
    ensures dst[off..off + |o|] == HiddenDeltas(kind, next, mat, o)
    ensures forall k :: 0 <= k < dst.Length && !(off <= k < off + |o|) ==> dst[k] == old(dst[k])
  {
    ghost var want := HiddenDeltas(kind, next, mat, o);
    var j := 0;
    while j < |o|
      invariant 0 <= j <= |o|
      invariant forall k :: 0 <= k < j ==> dst[off + k] == want[k]
      invariant forall k :: 0 <= k < dst.Length && !(off <= k < off + j) ==> dst[k] == old(dst[k])
    {
      var acc := ColumnSum(next, mat, |o|, j);
      dst[off + j] := acc * Derivative(kind, o[j]);
      j := j + 1;
    }
    ghost var dn := dst[off..off + |o|];
    forall k | 0 <= k < |o|
      ensures dn[k] == want[k]
    {
      assert dn[k] == dst[off + k];
    }
    assert dn == want;
  }

  /**
   * The bias half of steps 1 and 2a of `nn_train`: bias off + k moves by
   * delta k of the layer times the rate.
   */
  method MoveBiases(bias: array<real>, off: nat, d: seq<real>, rate: real)
    requires off + |d| <= bias.Length
    modifies bias
    ensures bias[off..off + |d|] == BiasesMoved(old(bias[off..off + |d|]), d, rate)
    ensures forall k :: 0 <= k < bias.Length && !(off <= k < off + |d|) ==> bias[k] == old(bias[k])
  {
    ghost var b0 := bias[off..off + |d|];
    var i := 0;
    while i < |d|
      invariant 0 <= i <= |d|
      invariant forall k :: 0 <= k < i ==> bias[off + k] == b0[k] + d[k] * rate
      invariant forall k :: 0 <= k < bias.Length && !(off <= k < off + i) ==> bias[k] == old(bias[k])
    {
      bias[off + i] := bias[off + i] + d[i] * rate;
      i := i + 1;
    }
    ghost var bn := bias[off..off + |d|];
    forall k | 0 <= k < |d|
      ensures bn[k] == BiasesMoved(b0, d, rate)[k]
    {
      assert bn[k] == bias[off + k];
    }
    assert bn == BiasesMoved(b0, d, rate);
  }

  /** The k loop of step 2a: column j of an n-column matrix dotted with the next layer's deltas. */
  method ColumnSum(next: seq<real>, mat: seq<real>, n: int, j: int) returns (acc: real)
    requires 0 <= j < n && |next| * n <= |mat|
    ensures acc == ColumnDot(next, mat, n, j, |next|)
  {
    acc := 0.0;
    var k := 0;
    while k < |next|
      invariant 0 <= k <= |next|
      invariant acc == ColumnDot(next, mat, n, j, k)
    {
      EntryFits(0, k, n, j, |next|);
      acc := acc + next[k] * mat[k * n + j];
      k := k + 1;
    }
  }

  /**
   * `nn_correct`: entry (i, j) of the |d|-by-|inp| matrix stored from `off`
   * moves by d[i] * inp[j] * rate; nothing else in w changes.
   */
  method Correct(w: array<real>, off: nat, d: seq<real>, inp: seq<real>, rate: real)
    requires off + |d| * |inp| <= w.Length
    modifies w
    ensures Corrected(w[..], old(w[..]), off, d, inp, rate)
    ensures forall k :: 0 <= k < w.Length && !(off <= k < off + |d| * |inp|) ==> w[k] == old(w[k])
  {
    ghost var w0 := w[..];
    var n := |inp|;
    var i := 0;
    while i < |d|
      invariant 0 <= i <= |d|
      invariant CorrectedRows(w[..], w0, off, d, inp, rate, i)
      invariant forall k :: 0 <= k < w.Length && !(off <= k < off + i * n) ==> w[k] == w0[k]
    {
      RowFits(i, n, |d|);
      ghost var before := w[..];
      CorrectRow(w, off + i * n, d[i], inp, rate);
      CorrectedRowsStep(w[..], before, w0, off, d, inp, rate, i);
      assert (i + 1) * n == i * n + n;
      i := i + 1;
    }
  }

  /** The inner loop of `nn_correct`: one row moved by di * inp[j] * rate. */
  method CorrectRow(w: array<real>, start: nat, di: real, inp: seq<real>, rate: real)
    requires start + |inp| <= w.Length
    modifies w
    ensures forall j :: 0 <= j < |inp| ==> w[start + j] == old(w[start + j]) + di * inp[j] * rate
    ensures forall k :: 0 <= k < w.Length && !(start <= k < start + |inp|) ==> w[k] == old(w[k])
  {
    var j := 0;
    while j < |inp|
      invariant 0 <= j <= |inp|
      invariant forall j' :: 0 <= j' < j ==> w[start + j'] == old(w[start + j']) + di * inp[j'] * rate
      invariant forall k :: 0 <= k < w.Length && !(start <= k < start + j) ==> w[k] == old(w[k])
    {
      w[start + j] := w[start + j] + di * inp[j] * rate;
      j := j + 1;
    }
  }

  // ---------------------------------------------------------------------
  // Files: nn_savef and nn_loadf
  // ---------------------------------------------------------------------

  /** One record of a saved network: an `int` configuration field or a `float`. */
  datatype Scalar = Int(i: int) | Float(x: real)

  /** The seven configuration fields, in the order they are written. */
  function Header(c: Config): seq<Scalar> {
    [Int(c.nInput), Int(c.nOutput), Int(c.nHidden), Int(c.nPerHidden),
     Int(c.useBias), Int(c.actHidden), Int(c.actOutput)]
  }

  function Floats(v: seq<real>): seq<Scalar> {
    seq(|v|, i requires 0 <= i < |v| => Float(v[i]))
  }

  /** What `nn_savef` writes: the header, the weights, then the biases iff `use_bias`. */
  function Encode(c: Config, w: seq<real>, b: seq<real>): seq<Scalar> {
    Header(c) + Floats(w) + (if c.useBias != 0 then Floats(b) else [])
  }

  /** The seven `int` reads at `at`; None on a short read or a record of another kind. */
  function HeaderAt(s: seq<Scalar>, at: nat): (r: Option<Config>)
    ensures r.Some? ==> at + 7 <= |s| && s[at..at + 7] == Header(r.value)
  {
    if at + 7 <= |s| && forall k :: at <= k < at + 7 ==> s[k].Int? then
      Some(Config(s[at].i, s[at + 1].i, s[at + 2].i, s[at + 3].i,
                  s[at + 4].i, s[at + 5].i, s[at + 6].i))
    else None
  }

  /** One `fread` of `n` floats at `at`; None when fewer than `n` floats follow. */
  function FloatsAt(s: seq<Scalar>, at: nat, n: nat): (r: Option<seq<real>>)
    ensures r.Some? ==> at + n <= |s| && s[at..at + n] == Floats(r.value)
  {
    if at + n <= |s| && forall k :: at <= k < at + n ==> s[k].Float? then
      Some(seq(n, i requires 0 <= i < n => s[at + i].x))
    else None
  }

  /**
   * What `nn_loadf` reads from position `at`: the configuration, the weights,
   * the biases (empty without bias) and the position after the last record.
   * A header that is not well sized (a negative `n_input`, `n_output` or
   * `n_hidden`, or hidden layers with a negative `n_neuro_per_hidden`) is
   * refused, even where the C counts come out non-negative.
   */
  function Decode(s: seq<Scalar>, at: nat): Option<(Config, seq<real>, seq<real>, nat)> {
    var h := HeaderAt(s, at);
    if h.None? || !WellSized(h.value) then None
    else
      var c := h.value;
      CountsNonNegative(c);
      var w := FloatsAt(s, at + 7, WeightCount(c));
      if w.None? then None
      else if c.useBias == 0 then Some((c, w.value, [], at + 7 + WeightCount(c)))
      else
        var b := FloatsAt(s, at + 7 + WeightCount(c), NeuronCount(c));
        if b.None? then None
        else Some((c, w.value, b.value, at + 7 + WeightCount(c) + NeuronCount(c)))
  }

  /** Save then load: a saved network reads back whole, whatever precedes or follows it. */
  lemma DecodeEncode(s: seq<Scalar>, at: nat, c: Config, w: seq<real>, b: seq<real>)
    requires WellSized(c) && |w| == WeightCount(c) && |b| == BiasCount(c)
    requires at + |Encode(c, w, b)| <= |s| && s[at..at + |Encode(c, w, b)|] == Encode(c, w, b)
    ensures Decode(s, at) == Some((c, w, b, at + |Encode(c, w, b)|))
  {
    FieldsReadBack(s, at, c, w, b);
    DecodeParts(s, at, c, w, b);
  }

  /** Each part of a saved network found at `at` reads back as what was written. */
  lemma FieldsReadBack(s: seq<Scalar>, at: nat, c: Config, w: seq<real>, b: seq<real>)
    requires WellSized(c) && |w| == WeightCount(c) && |b| == BiasCount(c)
    requires at + |Encode(c, w, b)| <= |s| && s[at..at + |Encode(c, w, b)|] == Encode(c, w, b)
    ensures HeaderAt(s, at) == Some(c)
    ensures FloatsAt(s, at + 7, WeightCount(c)) == Some(w)
    ensures c.useBias == 0 ==> b == []
    ensures c.useBias != 0 ==> FloatsAt(s, at + 7 + WeightCount(c), NeuronCount(c)) == Some(b)
    ensures |Encode(c, w, b)| == 7 + |w| + |b|
  {
    EncodedPieces(s, at, c, w, b);
    HeaderRead(s, at, c);
    FloatsRead(s, at + 7, w);
    if c.useBias != 0 {
      FloatsRead(s, at + 7 + |w|, b);
    }
  }

  /** A saved network found at `at` is its header, then its weights, then (with `use_bias`) its biases. */
  lemma EncodedPieces(s: seq<Scalar>, at: nat, c: Config, w: seq<real>, b: seq<real>)
    requires WellSized(c) && |w| == WeightCount(c) && |b| == BiasCount(c)
    requires at + |Encode(c, w, b)| <= |s| && s[at..at + |Encode(c, w, b)|] == Encode(c, w, b)
    ensures at + 7 + |w| + |b| <= |s| && |Encode(c, w, b)| == 7 + |w| + |b|
    ensures s[at..at + 7] == Header(c)
    ensures s[at + 7..at + 7 + |w|] == Floats(w)
    ensures c.useBias == 0 ==> b == []
    ensures c.useBias != 0 ==> s[at + 7 + |w|..at + 7 + |w| + |b|] == Floats(b)
  {
    var tail := if c.useBias != 0 then Floats(b) else [];
    assert Encode(c, w, b) == Header(c) + Floats(w) + tail;
    Pieces(s, at, Header(c), Floats(w), tail);
  }

  /** A slice of the run found at `at` is the same slice of `s`, shifted by `at`. */
  lemma SliceOfSlice<T>(s: seq<T>, at: nat, n: nat, i: nat, j: nat)
    requires at + n <= |s| && i <= j <= n
    ensures s[at..at + n][i..j] == s[at + i..at + j]
  {
    var t := s[at..at + n][i..j];
    var u := s[at + i..at + j];
    forall k | 0 <= k < |t|
      ensures t[k] == u[k]
    {
    }
  }

  /** A run x + y + z found at `at` has x, y and z one after the other from `at`. */
  lemma Pieces<T>(s: seq<T>, at: nat, x: seq<T>, y: seq<T>, z: seq<T>)
    requires at + |x + y + z| <= |s| && s[at..at + |x + y + z|] == x + y + z
    ensures s[at..at + |x|] == x
    ensures s[at + |x|..at + |x| + |y|] == y
    ensures s[at + |x| + |y|..at + |x| + |y| + |z|] == z
  {
    var n := |x + y + z|;
    var r := x + y + z;
    assert r[..|x|] == x;
    assert r[|x|..|x| + |y|] == y;
    assert r[|x| + |y|..n] == z;
    SliceOfSlice(s, at, n, 0, |x|);
    SliceOfSlice(s, at, n, |x|, |x| + |y|);
    SliceOfSlice(s, at, n, |x| + |y|, n);
  }

  /** The header written for `c` reads back as `c`. */
  lemma HeaderRead(s: seq<Scalar>, at: nat, c: Config)
    requires at + 7 <= |s| && s[at..at + 7] == Header(c)
    ensures HeaderAt(s, at) == Some(c)
  {
    assert forall k :: at <= k < at + 7 ==> s[k] == s[at..at + 7][k - at];
  }

  /** The floats written for `v` read back as `v`. */
  lemma FloatsRead(s: seq<Scalar>, at: nat, v: seq<real>)
    requires at + |v| <= |s| && s[at..at + |v|] == Floats(v)
    ensures FloatsAt(s, at, |v|) == Some(v)
  {
    forall k | at <= k < at + |v|
      ensures s[k] == Float(v[k - at])
    {
      assert s[k] == s[at..at + |v|][k - at];
    }
    var r := FloatsAt(s, at, |v|);
    assert r.Some?;
    assert forall i :: 0 <= i < |v| ==> r.value[i] == s[at + i].x == v[i];
    assert r.value == v;
  }

  /** Load only accepts what save writes: the records read are exactly an encoding. */
  lemma EncodeDecode(s: seq<Scalar>, at: nat, c: Config, w: seq<real>, b: seq<real>, next: nat)
    requires Decode(s, at) == Some((c, w, b, next))
    ensures WellSized(c) && |w| == WeightCount(c) && |b| == BiasCount(c)
    ensures at <= next <= |s| && s[at..next] == Encode(c, w, b)
  {
    CountsNonNegative(c);
    var nw := WeightCount(c);
    assert s[at..at + 7] == Header(c);
    assert s[at + 7..at + 7 + nw] == Floats(w);
    if c.useBias != 0 {
      var nb := NeuronCount(c);
      assert s[at + 7 + nw..next] == Floats(b);
      assert s[at..next] == s[at..at + 7] + s[at + 7..at + 7 + nw] + s[at + 7 + nw..next];
    } else {
      assert s[at..next] == s[at..at + 7] + s[at + 7..at + 7 + nw];
    }
  }

  /** A file cut anywhere inside a saved network is a short read: `nn_loadf` returns NULL. */
  lemma DecodeTruncated(c: Config, w: seq<real>, b: seq<real>, pre: seq<Scalar>, k: nat)
    requires WellSized(c) && |w| == WeightCount(c) && |b| == BiasCount(c)
    requires k < |Encode(c, w, b)|
    ensures Decode(pre + Encode(c, w, b)[..k], |pre|) == None
  {
    var s := pre + Encode(c, w, b)[..k];
    var at := |pre|;
    CountsNonNegative(c);
    if k >= 7 {
      assert s[at..at + 7] == Header(c);
      HeaderRead(s, at, c);
    }
  }

  /** Appends the records of `a`, one `float` each. */
  method WriteFloats(f: Stream<Scalar>, a: array<real>)
    requires f.Valid()
    modifies f`items
    ensures f.Valid() && f.items == old(f.items) + Floats(a[..])
  {
    ghost var s0 := f.items;
    var i := 0;
    while i < a.Length
      invariant 0 <= i <= a.Length && f.Valid()
      invariant f.items == s0 + Floats(a[..i])
    {
      assert Floats(a[..i + 1]) == Floats(a[..i]) + [Float(a[i])];
      f.Write(Float(a[i]));
      i := i + 1;
    }
    assert a[..i] == a[..];
  }

  /** `nn_savef`. Writes cannot fail here, so the result is always 0. */
  method SaveF(nn: Network, f: Stream<Scalar>) returns (r: int)
    requires nn.Valid() && f.Valid()
    modifies f`items
    ensures f.Valid() && f.items == old(f.items) + Encode(nn.cfg, nn.weight[..], nn.bias[..])
    ensures r == 0
  {
    ghost var s0 := f.items;
    ghost var w := nn.weight[..];
    ghost var b := nn.bias[..];
    WriteHeader(f, nn.cfg);
    WriteFloats(f, nn.weight);
    assert f.items == s0 + Header(nn.cfg) + Floats(w);
    if nn.cfg.useBias != 0 {
      WriteFloats(f, nn.bias);
      assert f.items == s0 + (Header(nn.cfg) + Floats(w) + Floats(b));
    } else {
      assert f.items == s0 + (Header(nn.cfg) + Floats(w) + []);
    }
    r := 0;
  }

  /** The seven configuration writes of `nn_savef`. */
  method WriteHeader(f: Stream<Scalar>, c: Config)
    requires f.Valid()
    modifies f`items
    ensures f.Valid() && f.items == old(f.items) + Header(c)
  {
    f.Write(Int(c.nInput));
    f.Write(Int(c.nOutput));
    f.Write(Int(c.nHidden));
    f.Write(Int(c.nPerHidden));
    f.Write(Int(c.useBias));
    f.Write(Int(c.actHidden));
    f.Write(Int(c.actOutput));
  }

  /** One `fread` of an `int`. */
  method ReadInt(f: Stream<Scalar>) returns (r: Option<int>)
    requires f.Valid()
    modifies f`pos
    ensures f.Valid()
    ensures r.Some? <==> old(f.pos) < |f.items| && f.items[old(f.pos)].Int?
    ensures r.Some? ==> r.value == f.items[old(f.pos)].i && f.pos == old(f.pos) + 1
  {
    var x := f.Read();
    if x.Some? && x.value.Int? {
      r := Some(x.value.i);
    } else {
      r := None;
    }
  }

  /** The seven header reads of `nn_loadf`. */
  method ReadHeader(f: Stream<Scalar>) returns (h: Option<Config>)
    requires f.Valid()
    modifies f`pos
    ensures f.Valid()
    ensures h == HeaderAt(f.items, old(f.pos))
    ensures h.Some? ==> f.pos == old(f.pos) + 7
  {
    ghost var p := f.pos;
    var v0 := ReadInt(f);
    if v0.None? { return None; }
    var v1 := ReadInt(f);
    if v1.None? { return None; }
    var v2 := ReadInt(f);
    if v2.None? { return None; }
    var v3 := ReadInt(f);
    if v3.None? { return None; }
    var v4 := ReadInt(f);
    if v4.None? { return None; }
    var v5 := ReadInt(f);
    if v5.None? { return None; }
    var v6 := ReadInt(f);
    if v6.None? { return None; }
    h := Some(Config(v0.value, v1.value, v2.value, v3.value, v4.value, v5.value, v6.value));
  }

  /** One `fread` of `a.Length` floats into `a`; false on a short read. */
  method ReadFloats(f: Stream<Scalar>, a: array<real>) returns (ok: bool)
    requires f.Valid()
    modifies f`pos, a
    ensures f.Valid()
    ensures ok <==> FloatsAt(f.items, old(f.pos), a.Length).Some?
    ensures ok ==> a[..] == FloatsAt(f.items, old(f.pos), a.Length).value && f.pos == old(f.pos) + a.Length
  {
    ghost var p := f.pos;
    var i := 0;
    while i < a.Length
      invariant 0 <= i <= a.Length && f.pos == p + i && f.Valid()
      invariant forall k :: 0 <= k < i ==> f.items[p + k] == Float(a[k])
    {
      var x := f.Read();
      if x.None? || !x.value.Float? {
        assert !(p + a.Length <= |f.items| && f.items[p + i].Float?);
        return false;
      }
      a[i] := x.value.x;
      i := i + 1;
    }
    forall j | p <= j < p + a.Length
      ensures f.items[j] == Float(a[j - p])
    {
      assert f.items[p + (j - p)] == Float(a[j - p]);
    }
    return true;
  }

  /**
   * `nn_loadf`: NULL on any short read and on a header that is not well
   * sized, otherwise a fresh network holding exactly what was read.
   */
  method LoadF(f: Stream<Scalar>) returns (nn: Network?)
    requires f.Valid()
    modifies f`pos
    ensures f.Valid()
    ensures nn == null <==> Decode(f.items, old(f.pos)).None?
    ensures nn != null ==>
              && fresh(nn) && fresh(nn.Buffers()) && nn.Valid()
              && Decode(f.items, old(f.pos)) == Some((nn.cfg, nn.weight[..], nn.bias[..], f.pos))
  {
    ghost var p := f.pos;
    var h := ReadHeader(f);
    if h.None? {
      return null;
    }
    var c := h.value;
    if !(c.nInput >= 0 && c.nOutput >= 0 && c.nHidden >= 0 && (c.nHidden > 0 ==> c.nPerHidden >= 0)) {
      return null;
    }
    CountsNonNegative(c);
    nn := new Network.Init(c);
    var ok := ReadFloats(f, nn.weight);
    if !ok {
      return null;
    }
    ghost var w := nn.weight[..];
    if c.useBias != 0 {
      ok := ReadFloats(f, nn.bias);
      if !ok {
        return null;
      }
    }
    assert nn.weight[..] == w;
    DecodeParts(f.items, p, c, w, nn.bias[..]);
  }

  /** How `Decode` reads once the header and the float runs are known. */
  lemma DecodeParts(s: seq<Scalar>, at: nat, c: Config, w: seq<real>, b: seq<real>)
    requires HeaderAt(s, at) == Some(c) && WellSized(c)
    requires FloatsAt(s, at + 7, WeightCount(c)) == Some(w)
    requires c.useBias == 0 ==> b == []
    requires c.useBias != 0 ==> FloatsAt(s, at + 7 + WeightCount(c), NeuronCount(c)) == Some(b)
    ensures Decode(s, at) == Some((c, w, b, at + 7 + |w| + |b|))
  {
    CountsNonNegative(c);
  }
}
