/**
 * The feed-forward neural network that is each agent's brain: neurons
 * with one weight per input plus one, layers of neurons, construction from
 * random draws, the forward pass, and the flat weight vector the genetic
 * algorithm reads and writes.
 */
module NeuralNet {
  import opened Wrappers
  import opened AIUtils

  /** A neuron: `numInputs` inputs and `numInputs + 1` weights. */
  datatype Neuron = Neuron(numInputs: nat, weights: seq<real>) {
    predicate Valid() {
      |weights| == numInputs + 1
    }
  }

  datatype NeuronLayer = NeuronLayer(neurons: seq<Neuron>) {
    function NumOfNeurons(): nat {
      |neurons|
    }
  }

  /**
   * The network. `inputs`, `outputs` and `outputsBeforeSig` are the values
   * of the last forward pass (empty before the first one).
   */
  datatype Net = Net(
    numInputs: nat,
    numOutputs: nat,
    numHiddenLayers: nat,
    neuronsPerHiddenLayer: nat,
    layers: seq<NeuronLayer>,
    inputs: seq<real>,
    outputs: seq<real>,
    outputsBeforeSig: seq<real>)
  {
    /** The program walks exactly `numHiddenLayers + 1` layers. */
    predicate Valid() {
      |layers| == numHiddenLayers + 1 && AllValid(AllNeurons(layers))
    }
  }

  datatype NetError = MissingInputWeight

  predicate AllValid(ns: seq<Neuron>) {
    forall n :: 0 <= n < |ns| ==> ns[n].Valid()
  }

  /** Layer `layer` has `count` neurons of `numInputs` inputs each. */
  predicate Shaped(layer: NeuronLayer, count: nat, numInputs: nat) {
    |layer.neurons| == count
    && forall j :: 0 <= j < count ==> layer.neurons[j].numInputs == numInputs && layer.neurons[j].Valid()
  }

  // ---------------------------------------------------------------------
  // Construction
  // ---------------------------------------------------------------------

  /** `new Neuron(numInputs)`: `numInputs + 1` weights drawn with `RandomClamped`. */
  function NewNeuron(numInputs: nat, g: Rng): (res: (Neuron, Rng))
    requires g.Valid()
    ensures res.0.numInputs == numInputs && res.0.Valid()
    ensures forall k :: 0 <= k < |res.0.weights| ==> -1.0 <= res.0.weights[k] < 1.0
    ensures res.1.Valid() && res.1.draw == g.draw && res.1.pos == g.pos + numInputs + 1
  {
    (Neuron(numInputs, ClampedDraws(g, numInputs + 1)), g.Skip(numInputs + 1))
  }

  /** `new NeuronLayer(count, numInputs)`: neurons created in order, each from the next draws. */
  function NewLayer(count: nat, numInputs: nat, g: Rng): (res: (NeuronLayer, Rng))
    requires g.Valid()
    ensures Shaped(res.0, count, numInputs)
    ensures res.1.Valid() && res.1.draw == g.draw && res.1.pos == g.pos + count * (numInputs + 1)
    decreases count
  {
    if count == 0 then (NeuronLayer([]), g)
    else
      var (layer, g1) := NewLayer(count - 1, numInputs, g);
      var (n, g2) := NewNeuron(numInputs, g1);
      assert g2.pos == g.pos + (count - 1) * (numInputs + 1) + (numInputs + 1);
      (NeuronLayer(layer.neurons + [n]), g2)
  }

  /** `count` layers of the same shape, created in order. */
  function NewLayers(count: nat, perLayer: nat, numInputs: nat, g: Rng): (res: (seq<NeuronLayer>, Rng))
    requires g.Valid()
    ensures |res.0| == count
    ensures forall i :: 0 <= i < count ==> Shaped(res.0[i], perLayer, numInputs)
    ensures res.1.Valid() && res.1.draw == g.draw
    decreases count
  {
    if count == 0 then ([], g)
    else
      var (ls, g1) := NewLayers(count - 1, perLayer, numInputs, g);
      var (l, g2) := NewLayer(perLayer, numInputs, g1);
      (ls + [l], g2)
  }

  /**
   * `new NeuralNet(...)`: with hidden layers, a first hidden layer over the
   * inputs, further hidden layers over the previous one, and an output
   * layer; without, a single output layer over the inputs.
   */
  function NewNet(numInputs: nat, numOutputs: nat, numHiddenLayers: nat, neuronsPerHiddenLayer: nat, g: Rng): (res: (Net, Rng))
    requires g.Valid()
    ensures res.0.Valid() && res.1.Valid()
    ensures res.0.numInputs == numInputs && res.0.numOutputs == numOutputs
    ensures res.0.numHiddenLayers == numHiddenLayers && res.0.neuronsPerHiddenLayer == neuronsPerHiddenLayer
    ensures res.0.inputs == [] && res.0.outputs == [] && res.0.outputsBeforeSig == []
    ensures forall i :: 0 <= i <= numHiddenLayers ==>
      Shaped(res.0.layers[i],
        if i == numHiddenLayers then numOutputs else neuronsPerHiddenLayer,
        if i == 0 then numInputs else neuronsPerHiddenLayer)
  {
    var (layers, g') :=
      if numHiddenLayers > 0 then
        var (first, g1) := NewLayer(neuronsPerHiddenLayer, numInputs, g);
        var (hidden, g2) := NewLayers(numHiddenLayers - 1, neuronsPerHiddenLayer, neuronsPerHiddenLayer, g1);
        var (last, g3) := NewLayer(numOutputs, neuronsPerHiddenLayer, g2);
        ([first] + hidden + [last], g3)
      else
        var (only, g1) := NewLayer(numOutputs, numInputs, g);
        ([only], g1);
    assert forall i :: 0 <= i <= numHiddenLayers ==>
      Shaped(layers[i],
        if i == numHiddenLayers then numOutputs else neuronsPerHiddenLayer,
        if i == 0 then numInputs else neuronsPerHiddenLayer);
    ShapedLayersValid(layers);
    (Net(numInputs, numOutputs, numHiddenLayers, neuronsPerHiddenLayer, layers, [], [], []), g')
  }

  lemma {:induction false} ShapedLayersValid(layers: seq<NeuronLayer>)
    requires forall i :: 0 <= i < |layers| ==> forall j :: 0 <= j < |layers[i].neurons| ==> layers[i].neurons[j].Valid()
    ensures AllValid(AllNeurons(layers))
    decreases |layers|
  {
    if |layers| > 0 {
      ShapedLayersValid(layers[1..]);
      var a := layers[0].neurons;
      var b := AllNeurons(layers[1..]);
      assert forall n :: 0 <= n < |a + b| ==> (a + b)[n] == if n < |a| then a[n] else b[n - |a|];
    }
  }

  // ---------------------------------------------------------------------
  // The flat weight vector
  // ---------------------------------------------------------------------

  /** The neurons of all layers, layer by layer: the order every loop of the network walks. */
  function AllNeurons(layers: seq<NeuronLayer>): seq<Neuron> {
    if |layers| == 0 then [] else layers[0].neurons + AllNeurons(layers[1..])
  }

  /** The number of inputs of the neurons `ns`, summed. */
  function InputsSum(ns: seq<Neuron>): nat {
    if |ns| == 0 then 0 else ns[0].numInputs + InputsSum(ns[1..])
  }

  /** The first `numInputs` weights of each neuron, concatenated. */
  function FlatWeights(ns: seq<Neuron>): seq<real>
    requires AllValid(ns)
  {
    if |ns| == 0 then [] else ns[0].weights[..ns[0].numInputs] + FlatWeights(ns[1..])
  }

  /** Split points from a running weight counter: each neuron's last input weight. */
  function SplitFrom(ns: seq<Neuron>, counter: int): seq<int> {
    if |ns| == 0 then [] else [counter + ns[0].numInputs - 1] + SplitFrom(ns[1..], counter + ns[0].numInputs)
  }

  /** Write `w[pos..]` over the input weights of `ns`, leaving each neuron's extra weight alone. */
  function PutNeurons(ns: seq<Neuron>, w: seq<real>, pos: nat): (r: seq<Neuron>)
    requires AllValid(ns) && pos + InputsSum(ns) <= |w|
    ensures |r| == |ns| && AllValid(r)
    decreases |ns|
  {
    if |ns| == 0 then []
    else
      var k := ns[0].numInputs;
      [Neuron(k, w[pos..pos + k] + ns[0].weights[k..])] + PutNeurons(ns[1..], w, pos + k)
  }

  /**
   * The layers of `layers`' shape holding the neurons `ns` in order: the
   * first layer takes as many neurons as it had, and so on.
   */
  function Regroup(layers: seq<NeuronLayer>, ns: seq<Neuron>): (r: seq<NeuronLayer>)
    requires |ns| == |AllNeurons(layers)|
    ensures |r| == |layers| && AllNeurons(r) == ns
    ensures forall i :: 0 <= i < |layers| ==> |r[i].neurons| == |layers[i].neurons|
    decreases |layers|
  {
    if |layers| == 0 then []
    else
      var k := |layers[0].neurons|;
      assert ns[..k] + ns[k..] == ns;
      [NeuronLayer(ns[..k])] + Regroup(layers[1..], ns[k..])
  }

  /** Regrouping the layers' own neurons gives the layers back. */
  lemma {:induction false} RegroupOwn(layers: seq<NeuronLayer>)
    ensures Regroup(layers, AllNeurons(layers)) == layers
    decreases |layers|
  {
    if |layers| > 0 {
      var ns := AllNeurons(layers);
      var k := |layers[0].neurons|;
      assert ns[..k] == layers[0].neurons;
      assert ns[k..] == AllNeurons(layers[1..]);
      RegroupOwn(layers[1..]);
      assert [NeuronLayer(layers[0].neurons)] + layers[1..] == layers;
    }
  }

  /**
   * The weight writing loop over layers and neurons, with its single running
   * counter: the flat neuron list written in order, regrouped into layers.
   */
  function PutLayers(layers: seq<NeuronLayer>, w: seq<real>, pos: nat): (r: seq<NeuronLayer>)
    requires AllValid(AllNeurons(layers)) && pos + InputsSum(AllNeurons(layers)) <= |w|
    ensures |r| == |layers| && AllNeurons(r) == PutNeurons(AllNeurons(layers), w, pos)
    ensures forall i :: 0 <= i < |layers| ==> |r[i].neurons| == |layers[i].neurons|
  {
    Regroup(layers, PutNeurons(AllNeurons(layers), w, pos))
  }

  /** Writing weights keeps each neuron's input count and its extra weight. */
  lemma {:induction false} PutNeuronsKeeps(ns: seq<Neuron>, w: seq<real>, pos: nat)
    requires AllValid(ns) && pos + InputsSum(ns) <= |w|
    ensures var r := PutNeurons(ns, w, pos);
      forall n :: 0 <= n < |ns| ==>
        r[n].numInputs == ns[n].numInputs && r[n].weights[ns[n].numInputs] == ns[n].weights[ns[n].numInputs]
    decreases |ns|
  {
    if |ns| > 0 {
      PutNeuronsKeeps(ns[1..], w, pos + ns[0].numInputs);
      var r := PutNeurons(ns, w, pos);
      forall n | 0 <= n < |ns|
        ensures r[n].numInputs == ns[n].numInputs && r[n].weights[ns[n].numInputs] == ns[n].weights[ns[n].numInputs]
      {
        if n > 0 {
          assert r[n] == PutNeurons(ns[1..], w, pos + ns[0].numInputs)[n - 1] && ns[n] == ns[1..][n - 1];
        }
      }
    }
  }

  lemma AllValidSplit(a: seq<Neuron>, b: seq<Neuron>)
    requires AllValid(a + b)
    ensures AllValid(a) && AllValid(b)
  {
    assert forall n :: 0 <= n < |a| ==> (a + b)[n] == a[n];
    assert forall n :: 0 <= n < |b| ==> (a + b)[|a| + n] == b[n];
  }

  lemma {:induction false} InputsSumConcat(a: seq<Neuron>, b: seq<Neuron>)
    ensures InputsSum(a + b) == InputsSum(a) + InputsSum(b)
    decreases |a|
  {
    if |a| > 0 {
      assert (a + b)[0] == a[0];
      assert (a + b)[1..] == a[1..] + b;
      InputsSumConcat(a[1..], b);
    } else {
      assert a + b == b;
    }
  }

  /** `GetNumberOfWeights()`: the inputs of all neurons, summed. */
  function NumberOfWeights(net: Net): (n: nat)
    requires net.Valid()
    ensures n == |FlatWeights(AllNeurons(net.layers))|
  {
    FlatWeightsLength(AllNeurons(net.layers));
    InputsSum(AllNeurons(net.layers))
  }

  /** `GetWeights()`: each neuron's input weights, layer by layer, without the extra weight. */
  function GetWeights(net: Net): (w: seq<real>)
    requires net.Valid()
    ensures |w| == NumberOfWeights(net)
  {
    FlatWeights(AllNeurons(net.layers))
  }

  /**
   * `PutWeights(weights)`: the weights overwrite each neuron's input
   * weights in `GetWeights` order. A list shorter than the network's
   * weight count makes the program throw.
   */
  function PutWeights(net: Net, w: seq<real>): (r: Option<Net>)
    requires net.Valid()
    ensures r.Some? <==> |w| >= NumberOfWeights(net)
    ensures r.Some? ==> r.value.Valid() && GetWeights(r.value) == w[..NumberOfWeights(net)]
    ensures r.Some? ==> r.value == net.(layers := r.value.layers)
    ensures r.Some? ==> forall i :: 0 <= i < |net.layers| ==> |r.value.layers[i].neurons| == |net.layers[i].neurons|
    ensures r.Some? ==> var before, after := AllNeurons(net.layers), AllNeurons(r.value.layers);
      |after| == |before|
      && forall n :: 0 <= n < |before| ==>
           after[n].numInputs == before[n].numInputs
           && after[n].weights[before[n].numInputs] == before[n].weights[before[n].numInputs]
  {
    if |w| < NumberOfWeights(net) then None
    else
      var layers := PutLayers(net.layers, w, 0);
      FlatPut(AllNeurons(net.layers), w, 0);
      PutNeuronsKeeps(AllNeurons(net.layers), w, 0);
      Some(net.(layers := layers))
  }

  /** `CalculateSplitPoints()`: the index of each neuron's last input weight in the flat vector. */
  function CalculateSplitPoints(net: Net): (sp: seq<int>)
    requires net.Valid()
    ensures |sp| == |AllNeurons(net.layers)|
    ensures forall n :: 0 <= n < |sp| ==> sp[n] == InputsSum(AllNeurons(net.layers)[..n + 1]) - 1
  {
    var ns := AllNeurons(net.layers);
    SplitFromAt(ns, 0);
    SplitFrom(ns, 0)
  }

  // ---------------------------------------------------------------------
  // Properties of the weight vector
  // ---------------------------------------------------------------------

  lemma {:induction false} FlatWeightsLength(ns: seq<Neuron>)
    requires AllValid(ns)
    ensures |FlatWeights(ns)| == InputsSum(ns)
    decreases |ns|
  {
    if |ns| > 0 {
      FlatWeightsLength(ns[1..]);
    }
  }

  lemma {:induction false} SplitFromAt(ns: seq<Neuron>, counter: int)
    ensures |SplitFrom(ns, counter)| == |ns|
    ensures forall n :: 0 <= n < |ns| ==> SplitFrom(ns, counter)[n] == counter + InputsSum(ns[..n + 1]) - 1
    decreases |ns|
  {
    if |ns| > 0 {
      SplitFromAt(ns[1..], counter + ns[0].numInputs);
      forall n | 0 <= n < |ns|
        ensures SplitFrom(ns, counter)[n] == counter + InputsSum(ns[..n + 1]) - 1
      {
        assert ns[..n + 1][0] == ns[0];
        assert ns[..n + 1][1..] == ns[1..][..n];
        if n > 0 {
          assert ns[1..][..n] == ns[1..][..(n - 1) + 1];
        }
      }
    }
  }

  /**
   * The `k`-th input weight of neuron `n` sits at the neuron's offset (the
   * inputs of the neurons before it) plus `k` in the flat vector.
   */
  lemma {:induction false} FlatWeightsAt(ns: seq<Neuron>, n: nat, k: nat)
    requires AllValid(ns) && n < |ns| && k < ns[n].numInputs
    ensures InputsSum(ns[..n]) + k < |FlatWeights(ns)|
    ensures FlatWeights(ns)[InputsSum(ns[..n]) + k] == ns[n].weights[k]
    decreases n
  {
    FlatWeightsLength(ns);
    InputsSumConcat(ns[..n], ns[n..]);
    assert ns[..n] + ns[n..] == ns;
    assert InputsSum(ns[n..]) >= ns[n].numInputs by {
      assert ns[n..][0] == ns[n];
    }
    if n == 0 {
      assert ns[..0] == [];
    } else {
      FlatWeightsAt(ns[1..], n - 1, k);
      assert ns[1..][..n - 1] == ns[..n][1..];
      assert ns[..n][0] == ns[0];
    }
  }

  /** Writing a vector and reading it back gives the written prefix. */
  lemma {:induction false} FlatPut(ns: seq<Neuron>, w: seq<real>, pos: nat)
    requires AllValid(ns) && pos + InputsSum(ns) <= |w|
    ensures FlatWeights(PutNeurons(ns, w, pos)) == w[pos..pos + InputsSum(ns)]
    decreases |ns|
  {
    if |ns| > 0 {
      var k := ns[0].numInputs;
      FlatPut(ns[1..], w, pos + k);
      var r := PutNeurons(ns, w, pos);
      assert r[0].weights[..k] == w[pos..pos + k];
      assert w[pos..pos + InputsSum(ns)] == w[pos..pos + k] + w[pos + k..pos + k + InputsSum(ns[1..])];
    }
  }

  /** Writing back the weights a neuron sequence already has changes nothing. */
  lemma {:induction false} PutFlat(ns: seq<Neuron>, w: seq<real>, pos: nat)
    requires AllValid(ns) && pos + InputsSum(ns) <= |w|
    requires w[pos..pos + InputsSum(ns)] == FlatWeights(ns)
    ensures PutNeurons(ns, w, pos) == ns
    decreases |ns|
  {
    if |ns| > 0 {
      var k := ns[0].numInputs;
      FlatWeightsLength(ns[1..]);
      assert w[pos..pos + k] == w[pos..pos + InputsSum(ns)][..k];
      assert w[pos + k..pos + k + InputsSum(ns[1..])] == w[pos..pos + InputsSum(ns)][k..];
      PutFlat(ns[1..], w, pos + k);
      assert ns[0].weights[..k] + ns[0].weights[k..] == ns[0].weights;
      assert [ns[0]] + ns[1..] == ns;
    }
  }

  /** Writing back the weights the layers already have changes nothing. */
  lemma PutLayersFlat(layers: seq<NeuronLayer>, w: seq<real>, pos: nat)
    requires AllValid(AllNeurons(layers)) && pos + InputsSum(AllNeurons(layers)) <= |w|
    requires w[pos..pos + InputsSum(AllNeurons(layers))] == FlatWeights(AllNeurons(layers))
    ensures PutLayers(layers, w, pos) == layers
  {
    PutFlat(AllNeurons(layers), w, pos);
    RegroupOwn(layers);
  }

  /** `PutWeights(GetWeights())` leaves the network as it was. */
  lemma PutWeightsOfGetWeights(net: Net)
    requires net.Valid()
    ensures PutWeights(net, GetWeights(net)) == Some(net)
  {
    var w := GetWeights(net);
    assert w[0..0 + NumberOfWeights(net)] == w;
    PutLayersFlat(net.layers, w, 0);
  }

  /** `GetWeights` lists neuron `n`'s `k`-th weight at the neuron's offset plus `k`. */
  lemma GetWeightsAt(net: Net, n: nat, k: nat)
    requires net.Valid() && n < |AllNeurons(net.layers)| && k < AllNeurons(net.layers)[n].numInputs
    ensures InputsSum(AllNeurons(net.layers)[..n]) + k < |GetWeights(net)|
    ensures GetWeights(net)[InputsSum(AllNeurons(net.layers)[..n]) + k] == AllNeurons(net.layers)[n].weights[k]
  {
    FlatWeightsAt(AllNeurons(net.layers), n, k);
  }

  /**
   * The split points rise strictly when every neuron has an input, and the
   * last one is the index of the last weight.
   */
  lemma {:induction false} SplitPointsIncreasing(net: Net)
    requires net.Valid()
    requires forall n :: 0 <= n < |AllNeurons(net.layers)| ==> AllNeurons(net.layers)[n].numInputs >= 1
    ensures var sp := CalculateSplitPoints(net);
      (forall a, b :: 0 <= a < b < |sp| ==> sp[a] < sp[b])
      && (|sp| > 0 ==> sp[|sp| - 1] == NumberOfWeights(net) - 1)
      && (|sp| > 0 ==> sp[0] >= 0)
  {
    var ns := AllNeurons(net.layers);
    var sp := CalculateSplitPoints(net);
    forall a, b | 0 <= a < b < |sp|
      ensures sp[a] < sp[b]
    {
      InputsSumConcat(ns[..a + 1], ns[a + 1..b + 1]);
      assert ns[..a + 1] + ns[a + 1..b + 1] == ns[..b + 1];
      assert ns[a + 1..b + 1][0] == ns[a + 1];
    }
    if |sp| > 0 {
      assert ns[..|sp|] == ns;
      assert ns[..1] == [ns[0]];
    }
  }

  /** The weight count of a freshly built network, layer by layer. */
  lemma NumberOfWeightsOfNewNet(numInputs: nat, numOutputs: nat, numHiddenLayers: nat, neuronsPerHiddenLayer: nat, g: Rng)
    requires g.Valid()
    ensures var net := NewNet(numInputs, numOutputs, numHiddenLayers, neuronsPerHiddenLayer, g).0;
      NumberOfWeights(net) ==
        if numHiddenLayers > 0 then
          neuronsPerHiddenLayer * numInputs
          + (numHiddenLayers - 1) * (neuronsPerHiddenLayer * neuronsPerHiddenLayer)
          + numOutputs * neuronsPerHiddenLayer
        else numOutputs * numInputs
  {
    var net := NewNet(numInputs, numOutputs, numHiddenLayers, neuronsPerHiddenLayer, g).0;
    ShapedInputsSum(net.layers, numInputs, numOutputs, numHiddenLayers, neuronsPerHiddenLayer);
  }

  lemma {:induction false} ShapedInputsSum(layers: seq<NeuronLayer>, numInputs: nat, numOutputs: nat, numHiddenLayers: nat, perHidden: nat)
    requires |layers| == numHiddenLayers + 1
    requires forall i :: 0 <= i <= numHiddenLayers ==>
      Shaped(layers[i], if i == numHiddenLayers then numOutputs else perHidden, if i == 0 then numInputs else perHidden)
    ensures InputsSum(AllNeurons(layers)) ==
      if numHiddenLayers > 0 then
        perHidden * numInputs + (numHiddenLayers - 1) * (perHidden * perHidden) + numOutputs * perHidden
      else numOutputs * numInputs
    decreases numHiddenLayers
  {
    var a := layers[0].neurons;
    InputsSumConcat(a, AllNeurons(layers[1..]));
    if numHiddenLayers == 0 {
      LayerInputsSum(layers[0], numOutputs, numInputs);
      assert layers[1..] == [];
    } else {
      LayerInputsSum(layers[0], perHidden, numInputs);
      HiddenInputsSum(layers[1..], numHiddenLayers - 1, numOutputs, perHidden);
    }
  }

  lemma {:induction false} HiddenInputsSum(layers: seq<NeuronLayer>, hidden: nat, numOutputs: nat, perHidden: nat)
    requires |layers| == hidden + 1
    requires forall i :: 0 <= i <= hidden ==>
      Shaped(layers[i], if i == hidden then numOutputs else perHidden, perHidden)
    ensures InputsSum(AllNeurons(layers)) == hidden * (perHidden * perHidden) + numOutputs * perHidden
    decreases hidden
  {
    InputsSumConcat(layers[0].neurons, AllNeurons(layers[1..]));
    if hidden == 0 {
      LayerInputsSum(layers[0], numOutputs, perHidden);
      assert layers[1..] == [];
    } else {
      LayerInputsSum(layers[0], perHidden, perHidden);
      HiddenInputsSum(layers[1..], hidden - 1, numOutputs, perHidden);
      MulSucc(hidden, perHidden * perHidden);
    }
  }

  lemma {:induction false} LayerInputsSum(layer: NeuronLayer, count: nat, numInputs: nat)
    requires Shaped(layer, count, numInputs)
    ensures InputsSum(layer.neurons) == count * numInputs
    decreases count
  {
    if count > 0 {
      var rest := NeuronLayer(layer.neurons[1..]);
      LayerInputsSum(rest, count - 1, numInputs);
      MulSucc(count, numInputs);
    }
  }

  lemma MulSucc(a: nat, b: nat)
    requires a >= 1
    ensures a * b == (a - 1) * b + b
  {
  }

  // ---------------------------------------------------------------------
  // The forward pass
  // ---------------------------------------------------------------------

  /** `Math.Exp` is a parameter; the model only needs it to be positive. */
  ghost predicate PositiveExp(exp: real -> real) {
    forall x :: exp(x) > 0.0
  }

  /** `Sigmoid(netinput, response) = 1 / (1 + e^(-netinput / response))`. */
  function Sigmoid(netinput: real, response: real, exp: real -> real): (v: real)
    requires response != 0.0 && PositiveExp(exp)
    ensures 0.0 < v < 1.0
    ensures v * (1.0 + exp(-netinput / response)) == 1.0
  {
    var d := 1.0 + exp(-netinput / response);
    ReciprocalBelowOne(d);
    1.0 / d
  }

  lemma ReciprocalBelowOne(d: real)
    requires d > 1.0
    ensures 0.0 < 1.0 / d < 1.0 && (1.0 / d) * d == 1.0
  {
    var q := 1.0 / d;
    assert q * d == 1.0;
  }

  /** Σ_{k < n} w[k] * x[k]. */
  function Dot(w: seq<real>, x: seq<real>, n: nat): real
    requires n <= |w| && n <= |x|
  {
    if n == 0 then 0.0 else Dot(w, x, n - 1) + w[n - 1] * x[n - 1]
  }

  /**
   * A neuron's activation before the sigmoid: its input weights against the
   * first `numInputs` inputs, plus the weight of the LAST input (index
   * `numInputs - 1`, not the extra weight) times the bias.
   */
  function NetInput(nr: Neuron, x: seq<real>, bias: real): real
    requires nr.Valid() && 1 <= nr.numInputs <= |x|
  {
    Dot(nr.weights, x, nr.numInputs) + nr.weights[nr.numInputs - 1] * bias
  }

  /** A neuron can be evaluated on `x` when it has an input and `x` has all its inputs. */
  predicate Evaluable(nr: Neuron, x: seq<real>) {
    1 <= nr.numInputs <= |x|
  }

  /** One layer on inputs `x`: the activations before and after the sigmoid. */
  function LayerOutput(ns: seq<Neuron>, x: seq<real>, bias: real, response: real, exp: real -> real): (r: Option<(seq<real>, seq<real>)>)
    requires AllValid(ns) && response != 0.0 && PositiveExp(exp)
    ensures r.Some? <==> forall j :: 0 <= j < |ns| ==> Evaluable(ns[j], x)
    ensures r.Some? ==> |r.value.0| == |ns| && |r.value.1| == |ns|
    ensures r.Some? ==> forall j :: 0 <= j < |ns| ==>
      r.value.0[j] == NetInput(ns[j], x, bias) && r.value.1[j] == Sigmoid(r.value.0[j], response, exp)
    decreases |ns|
  {
    if |ns| == 0 then Some(([], []))
    else if !Evaluable(ns[|ns| - 1], x) then None
    else
      var init := LayerOutput(ns[..|ns| - 1], x, bias, response, exp);
      if init.None? then None
      else
        var pre := NetInput(ns[|ns| - 1], x, bias);
        Some((init.value.0 + [pre], init.value.1 + [Sigmoid(pre, response, exp)]))
  }

  /** All layers in turn, each fed the previous layer's outputs; the last layer's activations. */
  function FeedForward(layers: seq<NeuronLayer>, x: seq<real>, bias: real, response: real, exp: real -> real): (r: Option<(seq<real>, seq<real>)>)
    requires |layers| >= 1 && AllValid(AllNeurons(layers)) && response != 0.0 && PositiveExp(exp)
    ensures r.Some? ==> |r.value.0| == |r.value.1| == |layers[|layers| - 1].neurons|
    ensures r.Some? ==> forall j :: 0 <= j < |r.value.1| ==>
      0.0 < r.value.1[j] < 1.0 && r.value.1[j] == Sigmoid(r.value.0[j], response, exp)
    decreases |layers|
  {
    AllValidSplit(layers[0].neurons, AllNeurons(layers[1..]));
    var here := LayerOutput(layers[0].neurons, x, bias, response, exp);
    if here.None? then None
    else if |layers| == 1 then here
    else FeedForward(layers[1..], here.value.1, bias, response, exp)
  }

  /**
   * `Update(inputs)`: the inputs are recorded first; a list of the wrong
   * length yields an empty output and leaves the last outputs as they were;
   * otherwise the forward pass's outputs are recorded and returned. A
   * neuron without inputs makes the program throw.
   */
  function Update(net: Net, x: seq<real>, bias: real, response: real, exp: real -> real): (r: Result<(Net, seq<real>), NetError>)
    requires net.Valid() && response != 0.0 && PositiveExp(exp)
    ensures r.Success? ==> r.value.0.inputs == x && r.value.0.layers == net.layers && r.value.0.Valid()
    ensures |x| != net.numInputs ==>
      (r.Success? && r.value.1 == []
       && r.value.0.outputs == net.outputs && r.value.0.outputsBeforeSig == net.outputsBeforeSig)
    ensures |x| == net.numInputs && r.Success? ==>
      r.value.0.outputs == r.value.1 && |r.value.1| == |net.layers[net.numHiddenLayers].neurons|
      && |r.value.0.outputsBeforeSig| == |r.value.1|
      && forall j :: 0 <= j < |r.value.1| ==>
        0.0 < r.value.1[j] < 1.0 && r.value.1[j] == Sigmoid(r.value.0.outputsBeforeSig[j], response, exp)
  {
    if |x| != net.numInputs then Success((net.(inputs := x), []))
    else
      var out := FeedForward(net.layers, x, bias, response, exp);
      if out.None? then Failure(MissingInputWeight)
      else Success((net.(inputs := x, outputs := out.value.1, outputsBeforeSig := out.value.0), out.value.1))
  }

  /**
   * The network `net` with the forward pass recorded in `after`: the last
   * inputs and outputs are `after`'s, the shape and the weights `net`'s.
   */
  function Recorded(net: Net, after: Net): (r: Net)
    ensures r.inputs == after.inputs && r.outputs == after.outputs && r.outputsBeforeSig == after.outputsBeforeSig
    ensures r == net.(inputs := r.inputs, outputs := r.outputs, outputsBeforeSig := r.outputsBeforeSig)
  {
    net.(inputs := after.inputs, outputs := after.outputs, outputsBeforeSig := after.outputsBeforeSig)
  }

  /**
   * A forward pass only records: the network after `Update` is the old one
   * with its last inputs and outputs replaced, so its weights and shape,
   * and hence `GetWeights`, are unchanged.
   */
  lemma UpdateOnlyRecords(net: Net, x: seq<real>, bias: real, response: real, exp: real -> real)
    requires net.Valid() && response != 0.0 && PositiveExp(exp)
    ensures var r := Update(net, x, bias, response, exp);
      r.Success? ==> r.value.0 == Recorded(net, r.value.0) && GetWeights(r.value.0) == GetWeights(net)
  {
  }

  /** Each neuron of `layer` has at least one input and no more than `width`. */
  predicate Feeds(layer: NeuronLayer, width: nat) {
    forall j :: 0 <= j < |layer.neurons| ==> 1 <= layer.neurons[j].numInputs <= width
  }

  /** Each layer's neurons have at least one input and no more than the previous layer offers. */
  predicate Chained(layers: seq<NeuronLayer>, width: nat) {
    |layers| >= 1 && Feeds(layers[0], width)
    && forall i :: 1 <= i < |layers| ==> Feeds(layers[i], |layers[i - 1].neurons|)
  }

  lemma ChainedTail(layers: seq<NeuronLayer>, width: nat)
    requires Chained(layers, width) && |layers| > 1
    ensures Chained(layers[1..], |layers[0].neurons|)
  {
    var rest := layers[1..];
    assert Feeds(layers[1], |layers[1 - 1].neurons|);
    forall i | 1 <= i < |rest|
      ensures Feeds(rest[i], |rest[i - 1].neurons|)
    {
      assert rest[i] == layers[i + 1] && rest[i - 1] == layers[i + 1 - 1];
    }
  }

  lemma {:induction false} FeedForwardSucceeds(layers: seq<NeuronLayer>, x: seq<real>, bias: real, response: real, exp: real -> real)
    requires AllValid(AllNeurons(layers)) && response != 0.0 && PositiveExp(exp)
    requires Chained(layers, |x|)
    ensures FeedForward(layers, x, bias, response, exp).Some?
    decreases |layers|
  {
    AllValidSplit(layers[0].neurons, AllNeurons(layers[1..]));
    var here := LayerOutput(layers[0].neurons, x, bias, response, exp);
    assert here.Some? by {
      forall j | 0 <= j < |layers[0].neurons|
        ensures Evaluable(layers[0].neurons[j], x)
      {
      }
    }
    if |layers| > 1 {
      ChainedTail(layers, |x|);
      FeedForwardSucceeds(layers[1..], here.value.1, bias, response, exp);
    }
  }

  /**
   * A network built with at least one input, and at least one neuron per
   * hidden layer when it has hidden layers, answers every input list of the
   * right length with `numOutputs` values in (0, 1).
   */
  lemma NewNetUpdateSucceeds(numInputs: nat, numOutputs: nat, numHiddenLayers: nat, neuronsPerHiddenLayer: nat,
                             g: Rng, x: seq<real>, bias: real, response: real, exp: real -> real)
    requires g.Valid() && response != 0.0 && PositiveExp(exp)
    requires numInputs >= 1 && (numHiddenLayers > 0 ==> neuronsPerHiddenLayer >= 1)
    requires |x| == numInputs
    ensures var net := NewNet(numInputs, numOutputs, numHiddenLayers, neuronsPerHiddenLayer, g).0;
      var r := Update(net, x, bias, response, exp);
      r.Success? && |r.value.1| == numOutputs
      && forall j :: 0 <= j < numOutputs ==> 0.0 < r.value.1[j] < 1.0
  {
    var net := NewNet(numInputs, numOutputs, numHiddenLayers, neuronsPerHiddenLayer, g).0;
    var layers := net.layers;
    assert Chained(layers, |x|) by {
      assert Shaped(layers[0], if 0 == numHiddenLayers then numOutputs else neuronsPerHiddenLayer, numInputs);
      forall i | 1 <= i < |layers|
        ensures Feeds(layers[i], |layers[i - 1].neurons|)
      {
        assert Shaped(layers[i - 1], neuronsPerHiddenLayer, if i - 1 == 0 then numInputs else neuronsPerHiddenLayer);
      }
    }
    FeedForwardSucceeds(layers, x, bias, response, exp);
  }

  /** The two-input network with one hidden layer of two neurons and one output splits at 1, 3 and 5. */
  lemma SplitPointsOfSmallNet(g: Rng)
    requires g.Valid()
    ensures CalculateSplitPoints(NewNet(2, 1, 1, 2, g).0) == [1, 3, 5]
  {
    var net := NewNet(2, 1, 1, 2, g).0;
    var ls := net.layers;
    var ns := AllNeurons(ls);
    assert AllNeurons(ls[1..][1..]) == [];
    assert AllNeurons(ls[1..]) == ls[1].neurons;
    assert ns == ls[0].neurons + ls[1].neurons;
    var sp := CalculateSplitPoints(net);
    assert |ns| == 3 && ns[0].numInputs == 2 && ns[1].numInputs == 2 && ns[2].numInputs == 2;
    assert ns[..1] == [ns[0]];
    assert ns[..2] == [ns[0], ns[1]];
    assert ns[..3] == [ns[0], ns[1], ns[2]];
    assert InputsSum([ns[2]]) == 2;
    assert InputsSum([ns[1], ns[2]]) == 4 by {
      assert [ns[1], ns[2]][1..] == [ns[2]];
    }
    assert InputsSum([ns[0], ns[1], ns[2]]) == 6 by {
      assert [ns[0], ns[1], ns[2]][1..] == [ns[1], ns[2]];
    }
    assert InputsSum([ns[0], ns[1]]) == 4 by {
      assert [ns[0], ns[1]][1..] == [ns[1]];
    }
    assert sp[0] == 1 && sp[1] == 3 && sp[2] == 5;
  }
}
