/** The dilated convolution stack of the ECC predictor, over exact reals and arbitrary weights. */
module TemporalConvNet {
  import opened Wrappers
  import opened Powers

  /** One vector of channel values per time step. */
  type Signal = seq<seq<real>>

  /** The value of channel `c` at time `t`; outside the signal, the padding's zero. */
  function At(x: Signal, t: int, c: nat): real {
    if 0 <= t < |x| && c < |x[t]| then x[t][c] else 0.0
  }

  /** `weights[o][i][j]` is tap `j` from input channel `i` to output channel `o`. */
  datatype Conv1d = Conv1d(weights: seq<seq<seq<real>>>, bias: seq<real>, kernelSize: nat, dilation: nat, padding: nat)

  ghost predicate Shaped(conv: Conv1d) {
    && conv.kernelSize >= 1
    && |conv.bias| == |conv.weights|
    && (forall o, i :: 0 <= o < |conv.weights| && 0 <= i < |conv.weights[o]| ==>
      |conv.weights[o][i]| == conv.kernelSize)
  }

  /** Taps of one channel, `dilation` apart, starting at time `start`. */
  function TapSum(taps: seq<real>, x: Signal, start: int, dilation: nat, c: nat): real {
    if taps == [] then 0.0
    else
      var j := |taps| - 1;
      TapSum(taps[..j], x, start, dilation, c) + taps[j] * At(x, start + j * dilation, c)
  }

  function ChannelSum(weights: seq<seq<real>>, x: Signal, start: int, dilation: nat): real {
    if weights == [] then 0.0
    else
      var i := |weights| - 1;
      ChannelSum(weights[..i], x, start, dilation) + TapSum(weights[i], x, start, dilation, i)
  }

  function Extent(conv: Conv1d): int {
    conv.dilation * (conv.kernelSize - 1)
  }

  function ConvAt(conv: Conv1d, x: Signal, t: nat): seq<real>
    requires |conv.bias| == |conv.weights|
  {
    seq(|conv.weights|, o requires 0 <= o < |conv.weights| =>
      conv.bias[o] + ChannelSum(conv.weights[o], x, t - conv.padding, conv.dilation))
  }

  /** Cross-correlation of the signal padded with zeros on both sides. */
  function Convolve(conv: Conv1d, x: Signal): Signal
    requires |conv.bias| == |conv.weights|
  {
    var n := |x| + 2 * conv.padding - Extent(conv);
    seq(if n < 0 then 0 else n, t requires 0 <= t => ConvAt(conv, x, t))
  }

  function Positive(v: real): real {
    if v > 0.0 then v else 0.0
  }

  function ReluAt(v: seq<real>): (r: seq<real>)
    ensures |r| == |v|
  {
    seq(|v|, c requires 0 <= c < |v| => Positive(v[c]))
  }

  function Relu(x: Signal): (r: Signal)
    ensures |r| == |x|
  {
    seq(|x|, t requires 0 <= t < |x| => ReluAt(x[t]))
  }

  /** Cuts `padding` steps off the end. */
  function Chomp(x: Signal, padding: nat): Signal {
    if padding > 0 then (if |x| >= padding then x[..|x| - padding] else []) else x
  }

  function AddAt(a: seq<real>, x: Signal, t: nat): (r: seq<real>)
    ensures |r| == |a|
  {
    seq(|a|, c requires 0 <= c < |a| => a[c] + At(x, t, c))
  }

  function Add(a: Signal, x: Signal): (r: Signal)
    ensures |r| == |a|
  {
    seq(|a|, t requires 0 <= t < |a| => AddAt(a[t], x, t))
  }

  datatype TemporalBlock = TemporalBlock(conv1: Conv1d, conv2: Conv1d, downsample: Option<Conv1d>, padding: nat)

  /** A block as its constructor builds it, with any weights: both convolutions pad by the full extent
      of the kernel, and the optional projection has a single tap. */
  ghost predicate IsBlock(b: TemporalBlock, kernelSize: nat, dilation: nat) {
    && kernelSize >= 1 && b.padding == (kernelSize - 1) * dilation
    && IsBlockConv(b.conv1, kernelSize, dilation, b.padding) && IsBlockConv(b.conv2, kernelSize, dilation, b.padding)
    && (b.downsample.Some? ==> IsBlockConv(b.downsample.value, 1, 1, 0))
  }

  ghost predicate IsBlockConv(conv: Conv1d, kernelSize: nat, dilation: nat, padding: nat) {
    Shaped(conv) && conv.kernelSize == kernelSize && conv.dilation == dilation && conv.padding == padding
  }

  function Layer(conv: Conv1d, x: Signal, padding: nat): Signal
    requires |conv.bias| == |conv.weights|
  {
    Relu(Chomp(Convolve(conv, x), padding))
  }

  /** Inference: dropout does nothing. */
  function Forward(b: TemporalBlock, x: Signal): Signal
    requires |b.conv1.bias| == |b.conv1.weights| && |b.conv2.bias| == |b.conv2.weights|
    requires b.downsample.Some? ==> |b.downsample.value.bias| == |b.downsample.value.weights|
  {
    var out := Layer(b.conv2, Layer(b.conv1, x, b.padding), b.padding);
    var res := if b.downsample.None? then x else Convolve(b.downsample.value, x);
    Relu(Add(out, res))
  }

  /** The stack as its constructor builds it: the dilation doubles from block to block. */
  ghost predicate IsNetwork(blocks: seq<TemporalBlock>, kernelSize: nat) {
    forall i :: 0 <= i < |blocks| ==> IsBlock(blocks[i], kernelSize, Pow2(i))
  }

  ghost function Network(blocks: seq<TemporalBlock>, kernelSize: nat, x: Signal): Signal
    requires IsNetwork(blocks, kernelSize)
  {
    if blocks == [] then x
    else
      var n := |blocks| - 1;
      assert IsBlock(blocks[n], kernelSize, Pow2(n));
      Forward(blocks[n], Network(blocks[..n], kernelSize, x))
  }

  // ---- Lengths ----

  lemma LayerLength(conv: Conv1d, x: Signal, kernelSize: nat, dilation: nat, padding: nat)
    requires IsBlockConv(conv, kernelSize, dilation, padding) && padding == (kernelSize - 1) * dilation
    ensures |Convolve(conv, x)| == |x| + padding && |Layer(conv, x, padding)| == |x|
    ensures forall t :: 0 <= t < |x| ==> Layer(conv, x, padding)[t] == ReluAt(ConvAt(conv, x, t))
  {
    assert Extent(conv) == padding;
  }

  lemma ForwardLength(b: TemporalBlock, x: Signal, kernelSize: nat, dilation: nat)
    requires IsBlock(b, kernelSize, dilation)
    ensures |Forward(b, x)| == |x|
  {
    LayerLength(b.conv1, x, kernelSize, dilation, b.padding);
    LayerLength(b.conv2, Layer(b.conv1, x, b.padding), kernelSize, dilation, b.padding);
  }

  /** The stack keeps the sequence length. */
  lemma {:induction false} NetworkLength(blocks: seq<TemporalBlock>, kernelSize: nat, x: Signal)
    requires IsNetwork(blocks, kernelSize)
    ensures |Network(blocks, kernelSize, x)| == |x|
  {
    if blocks != [] {
      var n := |blocks| - 1;
      NetworkLength(blocks[..n], kernelSize, x);
      ForwardLength(blocks[n], Network(blocks[..n], kernelSize, x), kernelSize, Pow2(n));
    }
  }

  // ---- The same network without padding and chomping ----

  /** Tap `j` of the first `n` input channels, at one point in time. */
  ghost function TapAcross(weights: seq<seq<real>>, j: nat, x: Signal, time: int, n: nat): real
    requires n <= |weights| && forall i :: 0 <= i < n ==> j < |weights[i]|
  {
    if n == 0 then 0.0
    else
      var v := if 0 <= time < |x| && n <= |x[time]| then x[time][n - 1] else 0.0;
      TapAcross(weights, j, x, time, n - 1) + weights[n - 1][j] * v
  }

  /** The first `m` of `k` taps: tap `j` looks `(k - 1 - j) * d` steps into the past. */
  ghost function PastSum(weights: seq<seq<real>>, x: Signal, t: int, k: nat, d: nat, n: nat, m: nat): real
    requires n <= |weights| && m <= k && forall i :: 0 <= i < n ==> |weights[i]| == k
  {
    if m == 0 then 0.0
    else PastSum(weights, x, t, k, d, n, m - 1) + TapAcross(weights, m - 1, x, t - (k - m) * d, n)
  }

  /** A causal dilated convolution at time `t`: a weighted sum over the present and the past. */
  ghost function Causal(conv: Conv1d, x: Signal, t: int, o: nat): real
    requires Shaped(conv) && o < |conv.weights|
  {
    var w := conv.weights[o];
    conv.bias[o] + PastSum(w, x, t, conv.kernelSize, conv.dilation, |w|, conv.kernelSize)
  }

  lemma TapTime(t: int, k: nat, d: nat, m: nat)
    requires 1 <= m <= k
    ensures t - (k - 1) * d + (m - 1) * d == t - (k - m) * d
  {
  }

  /** One more channel adds that channel's taps. */
  lemma {:induction false} OneMoreChannel(weights: seq<seq<real>>, x: Signal, t: int, k: nat, d: nat, n: nat, m: nat)
    requires 1 <= n <= |weights| && m <= k && forall i :: 0 <= i < n ==> |weights[i]| == k
    ensures PastSum(weights, x, t, k, d, n, m)
         == PastSum(weights, x, t, k, d, n - 1, m) + TapSum(weights[n - 1][..m], x, t - (k - 1) * d, d, n - 1)
  {
    if m > 0 {
      OneMoreChannel(weights, x, t, k, d, n, m - 1);
      TapTime(t, k, d, m);
      assert weights[n - 1][..m][..m - 1] == weights[n - 1][..m - 1];
    }
  }

  lemma {:induction false} NoChannels(weights: seq<seq<real>>, x: Signal, t: int, k: nat, d: nat, m: nat)
    requires m <= k
    ensures PastSum(weights, x, t, k, d, 0, m) == 0.0
  {
    if m > 0 { NoChannels(weights, x, t, k, d, m - 1); }
  }

  /** Summing channel by channel, tap by tap, is summing tap by tap, channel by channel. */
  lemma {:induction false} SumsExchange(weights: seq<seq<real>>, x: Signal, t: int, k: nat, d: nat, n: nat)
    requires n <= |weights| && forall i :: 0 <= i < |weights| ==> |weights[i]| == k
    ensures ChannelSum(weights[..n], x, t - (k - 1) * d, d) == PastSum(weights, x, t, k, d, n, k)
  {
    if n == 0 {
      NoChannels(weights, x, t, k, d, k);
    } else {
      SumsExchange(weights, x, t, k, d, n - 1);
      OneMoreChannel(weights, x, t, k, d, n, k);
      assert weights[..n][..n - 1] == weights[..n - 1] && weights[n - 1][..k] == weights[n - 1];
    }
  }

  lemma ConvIsCausal(conv: Conv1d, x: Signal, t: nat, o: nat)
    requires Shaped(conv) && conv.padding == (conv.kernelSize - 1) * conv.dilation && o < |conv.weights|
    ensures ConvAt(conv, x, t)[o] == Causal(conv, x, t, o)
  {
    var w := conv.weights[o];
    SumsExchange(w, x, t, conv.kernelSize, conv.dilation, |w|);
    assert w[..|w|] == w;
  }

  /** `r` is `v` where that is positive, and zero elsewhere. */
  predicate Rectified(v: real, r: real) {
    r >= 0.0 && r >= v && (r == v || r == 0.0)
  }

  /** `h` is a causal convolution of `x`, rectified. */
  ghost predicate IsHidden(conv: Conv1d, x: Signal, h: Signal)
    requires Shaped(conv)
  {
    |h| == |x| && forall t :: 0 <= t < |x| ==>
      |h[t]| == |conv.weights| && forall o :: 0 <= o < |h[t]| ==> Rectified(Causal(conv, x, t, o), h[t][o])
  }

  /** The input as the residual connection passes it on, projected where the block has a projection. */
  ghost function Residual(b: TemporalBlock, x: Signal, t: nat, o: nat): real
    requires b.downsample.Some? ==> Shaped(b.downsample.value)
  {
    if b.downsample.None? then (if t < |x| && o < |x[t]| then x[t][o] else 0.0)
    else if o < |b.downsample.value.weights| then Causal(b.downsample.value, x, t, o)
    else 0.0
  }

  /** A block, time by time and channel by channel: two rectified causal convolutions, plus the residual,
      rectified. */
  ghost predicate IsBlockOutput(b: TemporalBlock, x: Signal, y: Signal)
    requires Shaped(b.conv1) && Shaped(b.conv2) && (b.downsample.Some? ==> Shaped(b.downsample.value))
  {
    exists h, g :: IsHidden(b.conv1, x, h) && IsHidden(b.conv2, h, g) && AddsResidual(b, x, g, y)
  }

  ghost predicate AddsResidual(b: TemporalBlock, x: Signal, g: Signal, y: Signal)
    requires b.downsample.Some? ==> Shaped(b.downsample.value)
  {
    |y| == |g| == |x| && forall t :: 0 <= t < |x| ==>
      |y[t]| == |g[t]| && forall o :: 0 <= o < |y[t]| ==> Rectified(g[t][o] + Residual(b, x, t, o), y[t][o])
  }

  lemma LayerIsHidden(conv: Conv1d, x: Signal, kernelSize: nat, dilation: nat, padding: nat)
    requires IsBlockConv(conv, kernelSize, dilation, padding) && padding == (kernelSize - 1) * dilation
    ensures IsHidden(conv, x, Layer(conv, x, padding))
  {
    LayerLength(conv, x, kernelSize, dilation, padding);
    forall t, o | 0 <= t < |x| && 0 <= o < |conv.weights|
      ensures Rectified(Causal(conv, x, t, o), Layer(conv, x, padding)[t][o])
    {
      ConvIsCausal(conv, x, t, o);
    }
  }

  lemma ResidualAt(b: TemporalBlock, x: Signal, t: nat, o: nat)
    requires t < |x| && (b.downsample.Some? ==> IsBlockConv(b.downsample.value, 1, 1, 0))
    ensures At(if b.downsample.None? then x else Convolve(b.downsample.value, x), t, o) == Residual(b, x, t, o)
  {
    if b.downsample.Some? {
      var conv := b.downsample.value;
      assert Extent(conv) == 0 && |Convolve(conv, x)| == |x|;
      assert Convolve(conv, x)[t] == ConvAt(conv, x, t);
      if o < |conv.weights| { ConvIsCausal(conv, x, t, o); }
    }
  }

  /** Padding both sides and chomping is a causal convolution: the block computes that, for any weights. */
  lemma BlockIsCausal(b: TemporalBlock, x: Signal, kernelSize: nat, dilation: nat)
    requires IsBlock(b, kernelSize, dilation)
    ensures IsBlockOutput(b, x, Forward(b, x))
  {
    var h := Layer(b.conv1, x, b.padding);
    var g := Layer(b.conv2, h, b.padding);
    LayerLength(b.conv1, x, kernelSize, dilation, b.padding);
    LayerLength(b.conv2, h, kernelSize, dilation, b.padding);
    LayerIsHidden(b.conv1, x, kernelSize, dilation, b.padding);
    LayerIsHidden(b.conv2, h, kernelSize, dilation, b.padding);
    var res, y := if b.downsample.None? then x else Convolve(b.downsample.value, x), Forward(b, x);
    forall t, o | 0 <= t < |x| && 0 <= o < |y[t]| ensures Rectified(g[t][o] + Residual(b, x, t, o), y[t][o]) {
      ResidualAt(b, x, t, o);
    }
    assert AddsResidual(b, x, g, y);
  }

  /** The stack feeds each block's output to the next; block `i` is dilated by `2^i`. */
  ghost predicate IsStackOutput(blocks: seq<TemporalBlock>, kernelSize: nat, ys: seq<Signal>)
    requires IsNetwork(blocks, kernelSize)
  {
    |ys| == |blocks| + 1 && forall i :: 0 <= i < |blocks| ==> Feeds(blocks, kernelSize, ys, i)
  }

  ghost predicate Feeds(blocks: seq<TemporalBlock>, kernelSize: nat, ys: seq<Signal>, i: nat)
    requires IsNetwork(blocks, kernelSize) && i < |blocks| && |ys| == |blocks| + 1
  {
    assert IsBlock(blocks[i], kernelSize, Pow2(i));
    IsBlockOutput(blocks[i], ys[i], ys[i + 1])
  }

  lemma {:induction false} NetworkIsCausal(blocks: seq<TemporalBlock>, kernelSize: nat, x: Signal)
      returns (ys: seq<Signal>)
    requires IsNetwork(blocks, kernelSize)
    ensures IsStackOutput(blocks, kernelSize, ys) && ys[0] == x && ys[|blocks|] == Network(blocks, kernelSize, x)
  {
    if blocks == [] {
      ys := [x];
    } else {
      hide IsBlock, Forward, IsBlockOutput;
      var n := |blocks| - 1;
      var before := NetworkIsCausal(blocks[..n], kernelSize, x);
      BlockIsCausal(blocks[n], before[n], kernelSize, Pow2(n));
      ys := before + [Network(blocks, kernelSize, x)];
      forall i | 0 <= i < |blocks| ensures Feeds(blocks, kernelSize, ys, i) {
        if i < n { assert Feeds(blocks[..n], kernelSize, before, i); }
      }
    }
  }

  // ---- Causality and reach ----

  /** The two signals are equally long and agree from `from` up to `to`. */
  ghost predicate Agree(x: Signal, y: Signal, from: int, to: int) {
    |x| == |y| && forall t :: 0 <= t < |x| && from <= t <= to ==> x[t] == y[t]
  }

  lemma {:induction false} TapSumAgrees(taps: seq<real>, x: Signal, y: Signal, start: int, dilation: nat, c: nat)
    requires taps != [] ==> Agree(x, y, start, start + (|taps| - 1) * dilation)
    ensures TapSum(taps, x, start, dilation, c) == TapSum(taps, y, start, dilation, c)
  {
    if taps != [] {
      var j := |taps| - 1;
      assert j > 0 ==> (j - 1) * dilation <= j * dilation;
      assert 0 <= j * dilation;
      TapSumAgrees(taps[..j], x, y, start, dilation, c);
    }
  }

  lemma {:induction false} ChannelSumAgrees(weights: seq<seq<real>>, x: Signal, y: Signal, start: int, dilation: nat,
      kernelSize: nat)
    requires kernelSize >= 1 && forall i :: 0 <= i < |weights| ==> |weights[i]| == kernelSize
    requires Agree(x, y, start, start + (kernelSize - 1) * dilation)
    ensures ChannelSum(weights, x, start, dilation) == ChannelSum(weights, y, start, dilation)
  {
    if weights != [] {
      var i := |weights| - 1;
      ChannelSumAgrees(weights[..i], x, y, start, dilation, kernelSize);
      TapSumAgrees(weights[i], x, y, start, dilation, i);
    }
  }

  lemma ConvAgrees(conv: Conv1d, x: Signal, y: Signal, t: nat)
    requires Shaped(conv)
    requires Agree(x, y, t - conv.padding, t - conv.padding + (conv.kernelSize - 1) * conv.dilation)
    ensures ConvAt(conv, x, t) == ConvAt(conv, y, t)
  {
    var start, d := t - conv.padding, conv.dilation;
    forall o | 0 <= o < |conv.weights|
      ensures ChannelSum(conv.weights[o], x, start, d) == ChannelSum(conv.weights[o], y, start, d)
    {
      ChannelSumAgrees(conv.weights[o], x, y, start, d, conv.kernelSize);
    }
  }

  /** One padded and chomped convolution sees only the present and `padding` steps of the past. */
  lemma LayerAgrees(conv: Conv1d, x: Signal, y: Signal, kernelSize: nat, dilation: nat, padding: nat, from: int,
      to: int)
    requires IsBlockConv(conv, kernelSize, dilation, padding) && padding == (kernelSize - 1) * dilation
    requires Agree(x, y, from - padding, to)
    ensures Agree(Layer(conv, x, padding), Layer(conv, y, padding), from, to)
  {
    LayerLength(conv, x, kernelSize, dilation, padding);
    LayerLength(conv, y, kernelSize, dilation, padding);
    forall t | 0 <= t < |x| && from <= t <= to ensures Layer(conv, x, padding)[t] == Layer(conv, y, padding)[t] {
      ConvAgrees(conv, x, y, t);
    }
  }

  lemma ForwardAgrees(b: TemporalBlock, x: Signal, y: Signal, kernelSize: nat, dilation: nat, from: int, to: int)
    requires IsBlock(b, kernelSize, dilation)
    requires Agree(x, y, from - 2 * b.padding, to)
    ensures Agree(Forward(b, x), Forward(b, y), from, to)
  {
    var p := b.padding;
    ForwardLength(b, x, kernelSize, dilation);
    ForwardLength(b, y, kernelSize, dilation);
    LayerAgrees(b.conv1, x, y, kernelSize, dilation, p, from - p, to);
    LayerAgrees(b.conv2, Layer(b.conv1, x, p), Layer(b.conv1, y, p), kernelSize, dilation, p, from, to);
    if b.downsample.Some? {
      ProjectionAgrees(b.downsample.value, x, y, from, to);
    }
  }

  lemma ProjectionAgrees(conv: Conv1d, x: Signal, y: Signal, from: int, to: int)
    requires IsBlockConv(conv, 1, 1, 0) && Agree(x, y, from, to)
    ensures Agree(Convolve(conv, x), Convolve(conv, y), from, to)
  {
    forall t | 0 <= t < |x| && from <= t <= to ensures Convolve(conv, x)[t] == Convolve(conv, y)[t] {
      ConvAgrees(conv, x, y, t);
    }
  }

  /** How far back a stack of `depth` blocks looks: twice the kernel extent per block, summed. */
  ghost function Reach(depth: nat, kernelSize: nat): int {
    if depth == 0 then 0 else Reach(depth - 1, kernelSize) + 2 * ((kernelSize - 1) * Pow2(depth - 1))
  }

  lemma {:induction false} ReachFormula(depth: nat, kernelSize: nat)
    ensures Reach(depth, kernelSize) == 2 * (kernelSize - 1) * (Pow2(depth) - 1)
  {
    if depth > 0 {
      ReachFormula(depth - 1, kernelSize);
      ReachStep(kernelSize - 1, Pow2(depth - 1));
    }
  }

  lemma ReachStep(k: int, p: int)
    ensures 2 * k * (p - 1) + 2 * (k * p) == 2 * k * (2 * p - 1)
  {
    assert 2 * k * (p - 1) == 2 * (k * p) - 2 * k;
    assert 2 * k * (2 * p - 1) == 4 * (k * p) - 2 * k;
  }

  /** Causality with bounded reach, for any depth, kernel and weights: outputs at time `t` are equal
      whenever the inputs agree on the `Reach` steps before `t` and at `t` itself. */
  lemma {:induction false} NetworkAgrees(blocks: seq<TemporalBlock>, kernelSize: nat, x: Signal, y: Signal, from: int,
      to: int)
    requires IsNetwork(blocks, kernelSize)
    requires Agree(x, y, from - Reach(|blocks|, kernelSize), to)
    ensures Agree(Network(blocks, kernelSize, x), Network(blocks, kernelSize, y), from, to)
  {
    if blocks != [] {
      var n := |blocks| - 1;
      var b := blocks[n];
      assert IsBlock(b, kernelSize, Pow2(n));
      NetworkAgrees(blocks[..n], kernelSize, x, y, from - 2 * b.padding, to);
      ForwardAgrees(b, Network(blocks[..n], kernelSize, x), Network(blocks[..n], kernelSize, y), kernelSize, Pow2(n),
        from, to);
    }
  }

  /** The predictor's five blocks of kernel 7 look back 372 steps, so its read-out at the last step
      depends on the last 373 steps of the window only. */
  lemma PredictorReach(blocks: seq<TemporalBlock>, x: Signal, y: Signal)
    requires |blocks| == 5 && IsNetwork(blocks, 7) && x != []
    requires Agree(x, y, |x| - 373, |x| - 1)
    ensures |Network(blocks, 7, x)| == |Network(blocks, 7, y)| == |x|
    ensures Network(blocks, 7, x)[|x| - 1] == Network(blocks, 7, y)[|x| - 1]
  {
    ReachFormula(5, 7);
    assert Pow2(3) == 8 && Pow2(5) == 32;
    NetworkLength(blocks, 7, x);
    NetworkLength(blocks, 7, y);
    NetworkAgrees(blocks, 7, x, y, |x| - 1, |x| - 1);
  }

  // ---- The reach is sharp ----

  /** One channel that copies the oldest value under the kernel. */
  function OldestTap(kernelSize: nat, dilation: nat): Conv1d
    requires kernelSize >= 1
  {
    Conv1d(
      [[seq(kernelSize, j => if j == 0 then 1.0 else 0.0)]], [0.0], kernelSize, dilation, (kernelSize - 1) * dilation)
  }

  function OldestBlock(kernelSize: nat, dilation: nat): TemporalBlock
    requires kernelSize >= 1
  {
    TemporalBlock(OldestTap(kernelSize, dilation), OldestTap(kernelSize, dilation), None, (kernelSize - 1) * dilation)
  }

  ghost function OldestNetwork(depth: nat, kernelSize: nat): (r: seq<TemporalBlock>)
    requires kernelSize >= 1
    ensures |r| == depth && IsNetwork(r, kernelSize)
  {
    seq(depth, i requires 0 <= i => OldestBlock(kernelSize, Pow2(i)))
  }

  /** One non-negative channel. */
  ghost predicate Intensity(x: Signal) {
    forall t :: 0 <= t < |x| ==> |x[t]| == 1 && x[t][0] >= 0.0
  }

  lemma {:induction false} OldestSum(taps: seq<real>, x: Signal, start: int, dilation: nat)
    requires taps != [] && taps[0] == 1.0 && forall j :: 1 <= j < |taps| ==> taps[j] == 0.0
    ensures TapSum(taps, x, start, dilation, 0) == At(x, start, 0)
  {
    var j := |taps| - 1;
    if j == 0 {
      assert taps[..0] == [];
      assert start + 0 * dilation == start;
    } else {
      OldestSum(taps[..j], x, start, dilation);
      assert 0.0 * At(x, start + j * dilation, 0) == 0.0;
    }
  }

  lemma OldestConv(kernelSize: nat, dilation: nat, x: Signal, t: nat)
    requires kernelSize >= 1
    ensures ConvAt(OldestTap(kernelSize, dilation), x, t) == [At(x, t - (kernelSize - 1) * dilation, 0)]
  {
    var conv := OldestTap(kernelSize, dilation);
    var weights, start := conv.weights[0], t - conv.padding;
    OldestSum(weights[0], x, start, dilation);
    assert weights[..0] == [];
    assert ChannelSum(weights, x, start, dilation) == 0.0 + TapSum(weights[0], x, start, dilation, 0);
  }

  lemma OldestLayer(kernelSize: nat, dilation: nat, padding: nat, x: Signal)
    requires kernelSize >= 1 && padding == (kernelSize - 1) * dilation && Intensity(x)
    ensures var y := Layer(OldestTap(kernelSize, dilation), x, padding);
      |y| == |x| && Intensity(y) && forall t :: 0 <= t < |x| ==> y[t][0] == At(x, t - padding, 0)
  {
    var conv := OldestTap(kernelSize, dilation);
    LayerLength(conv, x, kernelSize, dilation, padding);
    forall t | 0 <= t < |x| ensures Layer(conv, x, padding)[t] == [At(x, t - padding, 0)] {
      OldestConv(kernelSize, dilation, x, t);
    }
  }

  lemma OldestForward(kernelSize: nat, dilation: nat, x: Signal)
    requires kernelSize >= 1 && Intensity(x)
    ensures var y := Forward(OldestBlock(kernelSize, dilation), x); var p := (kernelSize - 1) * dilation;
      |y| == |x| && Intensity(y) && forall t :: 0 <= t < |x| ==> y[t][0] == At(x, t - 2 * p, 0) + x[t][0]
  {
    hide Layer;
    var p := (kernelSize - 1) * dilation;
    var conv := OldestTap(kernelSize, dilation);
    var once := Layer(conv, x, p);
    var twice := Layer(conv, once, p);
    OldestLayer(kernelSize, dilation, p, x);
    OldestLayer(kernelSize, dilation, p, once);
    forall t | 0 <= t < |x| ensures twice[t][0] == At(x, t - 2 * p, 0) {
      if t >= p { assert once[t - p][0] == At(x, t - p - p, 0); }
    }
  }

  /** `y` is at least `x` delayed by `lag`. */
  ghost predicate Dominates(y: Signal, x: Signal, lag: int) {
    |y| == |x| && forall t :: 0 <= t < |y| ==> |y[t]| == 1 && y[t][0] >= At(x, t - lag, 0)
  }

  ghost predicate Silent(x: Signal) {
    forall t :: 0 <= t < |x| ==> |x[t]| == 1 && x[t][0] == 0.0
  }

  lemma OldestBlockGrows(kernelSize: nat, dilation: nat, x: Signal, before: Signal, lag: nat)
    requires kernelSize >= 1 && Intensity(before) && Dominates(before, x, lag)
    ensures var y := Forward(OldestBlock(kernelSize, dilation), before);
      && Intensity(y) && Dominates(y, x, lag + 2 * ((kernelSize - 1) * dilation))
      && (Silent(before) ==> Silent(y))
  {
    hide Forward;
    OldestForward(kernelSize, dilation, before);
    var y, p := Forward(OldestBlock(kernelSize, dilation), before), (kernelSize - 1) * dilation;
    forall t | 0 <= t < |y| ensures y[t][0] >= At(x, t - (lag + 2 * p), 0) {
      if t - 2 * p >= 0 {
        assert before[t - 2 * p][0] >= At(x, t - 2 * p - lag, 0);
      }
    }
  }

  lemma {:induction false} OldestNetworkGrows(depth: nat, kernelSize: nat, x: Signal)
    requires kernelSize >= 1 && Intensity(x)
    ensures var y := Network(OldestNetwork(depth, kernelSize), kernelSize, x);
      Intensity(y) && Dominates(y, x, Reach(depth, kernelSize)) && (Silent(x) ==> Silent(y))
  {
    hide *;
    if depth > 0 {
      var n := depth - 1;
      var before := Network(OldestNetwork(n, kernelSize), kernelSize, x);
      OldestNetworkGrows(n, kernelSize, x);
      ReachNonNegative(n, kernelSize);
      OldestBlockGrows(kernelSize, Pow2(n), x, before, Reach(n, kernelSize));
      OldestNetworkStep(n, kernelSize, x);
      ReachUnfolds(n, kernelSize);
    } else {
      OldestNetworkBase(kernelSize, x);
    }
  }

  lemma ReachUnfolds(n: nat, kernelSize: nat)
    ensures Reach(n + 1, kernelSize) == Reach(n, kernelSize) + 2 * ((kernelSize - 1) * Pow2(n))
  {
  }

  lemma OldestNetworkBase(kernelSize: nat, x: Signal)
    requires kernelSize >= 1 && Intensity(x)
    ensures Network(OldestNetwork(0, kernelSize), kernelSize, x) == x && Dominates(x, x, Reach(0, kernelSize))
  {
  }

  lemma OldestNetworkStep(n: nat, kernelSize: nat, x: Signal)
    requires kernelSize >= 1
    ensures Network(OldestNetwork(n + 1, kernelSize), kernelSize, x)
         == Forward(OldestBlock(kernelSize, Pow2(n)), Network(OldestNetwork(n, kernelSize), kernelSize, x))
  {
    assert OldestNetwork(n + 1, kernelSize)[..n] == OldestNetwork(n, kernelSize);
  }

  lemma {:induction false} ReachNonNegative(depth: nat, kernelSize: nat)
    requires kernelSize >= 1
    ensures Reach(depth, kernelSize) >= 0
  {
    if depth > 0 {
      ReachNonNegative(depth - 1, kernelSize);
      assert (kernelSize - 1) * Pow2(depth - 1) >= 0;
    }
  }

  /** No shorter window would do: for every depth and kernel there are weights and two inputs that
      differ only `Reach` steps before the output, and whose outputs there differ. */
  lemma ReachIsSharp(depth: nat, kernelSize: nat) returns (blocks: seq<TemporalBlock>, x: Signal, y: Signal)
    requires kernelSize >= 1
    ensures Reach(depth, kernelSize) >= 0
    ensures |blocks| == depth && IsNetwork(blocks, kernelSize)
    ensures var r := Reach(depth, kernelSize);
      && |x| == |y| == r + 1 && Agree(x, y, 1, r)
      && |Network(blocks, kernelSize, x)| == |Network(blocks, kernelSize, y)| == r + 1
      && Network(blocks, kernelSize, x)[r] != Network(blocks, kernelSize, y)[r]
  {
    hide *;
    ReachNonNegative(depth, kernelSize);
    var r := Reach(depth, kernelSize);
    blocks := OldestNetwork(depth, kernelSize);
    x, y := Impulse(r);
    OldestNetworkGrows(depth, kernelSize, x);
    OldestNetworkGrows(depth, kernelSize, y);
    LastDiffers(Network(blocks, kernelSize, x), Network(blocks, kernelSize, y), x, y, r);
  }

  /** An impulse at the start of an otherwise silent signal, and silence. */
  lemma Impulse(r: nat) returns (x: Signal, y: Signal)
    ensures Intensity(x) && Intensity(y) && Silent(y) && |x| == |y| == r + 1 && At(x, 0, 0) == 1.0 && Agree(x, y, 1, r)
  {
    x := seq(r + 1, t => [if t == 0 then 1.0 else 0.0]);
    y := seq(r + 1, t => [0.0]);
  }

  lemma LastDiffers(u: Signal, v: Signal, x: Signal, y: Signal, r: nat)
    requires |x| == |y| == r + 1 && At(x, 0, 0) == 1.0
    requires Dominates(u, x, r) && Dominates(v, y, r) && Silent(v)
    ensures |u| == |v| == r + 1 && u[r] != v[r]
  {
    assert u[r][0] >= At(x, r - r, 0);
    assert v[r][0] == 0.0;
  }
}
