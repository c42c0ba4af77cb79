/**
 * The range stack of include/cdv/elem/range_stack.hpp: input ranges stacked
 * on top of each other, each layer holding, per position, the pair (lower,
 * upper) of the band that range occupies in the stack. A layer's lower
 * values are the previous layer's upper values; the layers are named by keys.
 */
module RangeStack {
  import opened Wrappers
  import opened Seqs

  /** One layer: per position, the (lower, upper) pair. */
  type Layer = seq<(int, int)>

  function MinNat(a: nat, b: nat): nat { if a <= b then a else b }

  /**
   * The layer stacked on prev with the values x (the zip_with of
   * detail::add_layers): as long as the shorter of the two, each pair
   * running from prev's upper value to that plus the value of x.
   */
  function Next(prev: Layer, x: seq<int>): (l: Layer)
    ensures |l| == MinNat(|prev|, |x|)
    ensures forall i :: 0 <= i < |l| ==> l[i] == (prev[i].1, prev[i].1 + x[i])
  {
    if |prev| == 0 || |x| == 0 then []
    else [(prev[0].1, prev[0].1 + x[0])] + Next(prev[1..], x[1..])
  }

  /**
   * The layers detail::add_layers appends on top of prev, one per input
   * range, each stacked on the one before.
   */
  function Stack(prev: Layer, inputs: seq<seq<int>>): (ls: seq<Layer>)
    ensures |ls| == |inputs|
    decreases |inputs|
  {
    if |inputs| == 0 then []
    else
      var l := Next(prev, inputs[0]);
      [l] + Stack(l, inputs[1..])
  }

  /** The layer a stack ends with: prev when nothing was stacked on it. */
  function Top(prev: Layer, ls: seq<Layer>): Layer
  {
    if |ls| == 0 then prev else ls[|ls| - 1]
  }

  /** Every stacked layer lies on the layer below it, the first on prev. */
  lemma {:induction false} StackChain(prev: Layer, inputs: seq<seq<int>>, j: nat)
    requires j < |inputs|
    ensures Stack(prev, inputs)[j] == Next(if j == 0 then prev else Stack(prev, inputs)[j - 1], inputs[j])
    decreases |inputs|
  {
    if j > 0 {
      var l := Next(prev, inputs[0]);
      assert Stack(prev, inputs) == [l] + Stack(l, inputs[1..]);
      StackChain(l, inputs[1..], j - 1);
    }
  }

  /** Stacking one more range appends one layer, stacked on the last. */
  lemma {:induction false} StackSnoc(prev: Layer, inputs: seq<seq<int>>, x: seq<int>)
    ensures Stack(prev, inputs + [x]) == Stack(prev, inputs) + [Next(Top(prev, Stack(prev, inputs)), x)]
    decreases |inputs|
  {
    if |inputs| == 0 {
      assert inputs + [x] == [x];
    } else {
      var l := Next(prev, inputs[0]);
      assert (inputs + [x])[1..] == inputs[1..] + [x];
      StackSnoc(l, inputs[1..], x);
    }
  }

  /** The value of s at i, or zero past its end. */
  function At(s: seq<int>, i: nat): int
  {
    if i < |s| then s[i] else 0
  }

  /** The sum of the first j inputs' values at position i. */
  function ColumnSum(inputs: seq<seq<int>>, j: nat, i: nat): int
    requires j <= |inputs|
    decreases j
  {
    if j == 0 then 0 else At(inputs[0], i) + ColumnSum(inputs[1..], j - 1, i)
  }

  /** The narrowest of a width w and the lengths of the first j inputs. */
  function Narrowest(w: nat, inputs: seq<seq<int>>, j: nat): (n: nat)
    requires j <= |inputs|
    ensures n <= w
    ensures forall m :: 0 <= m < j ==> n <= |inputs[m]|
    ensures n == w || exists m :: 0 <= m < j && n == |inputs[m]|
    decreases j
  {
    if j == 0 then w
    else
      var rest := Narrowest(MinNat(w, |inputs[0]|), inputs[1..], j - 1);
      assert forall m :: 1 <= m < j ==> inputs[1..][m - 1] == inputs[m];
      rest
  }

  /** The stacked layer j is as long as the narrowest of prev and the input ranges up to j. */
  lemma {:induction false} StackWidth(prev: Layer, inputs: seq<seq<int>>, j: nat)
    requires j < |inputs|
    ensures |Stack(prev, inputs)[j]| == Narrowest(|prev|, inputs, j + 1)
    decreases |inputs|
  {
    var l := Next(prev, inputs[0]);
    assert Stack(prev, inputs) == [l] + Stack(l, inputs[1..]);
    assert Narrowest(|prev|, inputs, j + 1) == Narrowest(|l|, inputs[1..], j);
    if j > 0 {
      StackWidth(l, inputs[1..], j - 1);
    }
  }

  /**
   * At each of its positions, the stacked layer j runs from prev's upper
   * value plus the input ranges before j to that plus the ranges up to j.
   */
  lemma {:induction false} StackColumn(prev: Layer, inputs: seq<seq<int>>, j: nat, i: nat)
    requires j < |inputs| && i < |Stack(prev, inputs)[j]| && i < |prev|
    ensures Stack(prev, inputs)[j][i] == (prev[i].1 + ColumnSum(inputs, j, i), prev[i].1 + ColumnSum(inputs, j + 1, i))
    decreases |inputs|
  {
    var l := Next(prev, inputs[0]);
    var rest := Stack(l, inputs[1..]);
    if j == 0 {
      assert Stack(prev, inputs)[0] == l by {
        assert Stack(prev, inputs) == [l] + rest;
      }
      assert ColumnSum(inputs, 1, i) == At(inputs[0], i) + ColumnSum(inputs[1..], 0, i);
    } else {
      assert Stack(prev, inputs)[j] == rest[j - 1] by {
        assert Stack(prev, inputs) == [l] + rest;
      }
      assert i < |l| && i < |inputs[0]| by {
        StackWidth(l, inputs[1..], j - 1);
      }
      StackColumn(l, inputs[1..], j - 1, i);
      assert l[i].1 == prev[i].1 + inputs[0][i];
      assert ColumnSum(inputs, j, i) == inputs[0][i] + ColumnSum(inputs[1..], j - 1, i);
      assert ColumnSum(inputs, j + 1, i) == inputs[0][i] + ColumnSum(inputs[1..], j, i);
    }
  }

  /** The first layer of a stack with a base value: the base paired with each value of r0. */
  function BaseLayer(base: int, r0: seq<int>): (l: Layer)
    ensures |l| == |r0|
    ensures forall i :: 0 <= i < |l| ==> l[i] == (base, r0[i])
  {
    seq(|r0|, i requires 0 <= i < |r0| => (base, r0[i]))
  }

  /** The first layer of a stack without a base value: r0 and r0 plus r1, as long as the shorter. */
  function FirstLayer(r0: seq<int>, r1: seq<int>): (l: Layer)
    ensures |l| == MinNat(|r0|, |r1|)
    ensures forall i :: 0 <= i < |l| ==> l[i] == (r0[i], r0[i] + r1[i])
  {
    seq(MinNat(|r0|, |r1|), i requires 0 <= i < MinNat(|r0|, |r1|) => (r0[i], r0[i] + r1[i]))
  }

  /** All layers of the stack with a base value. */
  function LayersWithBase(ranges: seq<seq<int>>, base: int): (ls: seq<Layer>)
    requires |ranges| >= 1
    ensures |ls| == |ranges|
  {
    [BaseLayer(base, ranges[0])] + Stack(BaseLayer(base, ranges[0]), ranges[1..])
  }

  /** All layers of the stack without a base value. */
  function LayersWithoutBase(ranges: seq<seq<int>>): (ls: seq<Layer>)
    requires |ranges| >= 2
    ensures |ls| == |ranges| - 1
  {
    [FirstLayer(ranges[0], ranges[1])] + Stack(FirstLayer(ranges[0], ranges[1]), ranges[2..])
  }

  /**
   * With a base value, layer k is as long as the shortest of the first k + 1
   * ranges; layer 0 runs from the base to r0, and each later layer k runs
   * from the sum of the first k ranges to the sum of the first k + 1.
   */
  lemma LayersWithBaseAreSums(ranges: seq<seq<int>>, base: int, k: nat)
    requires k < |ranges|
    ensures |LayersWithBase(ranges, base)[k]| == Narrowest(|ranges[0]|, ranges[1..], k)
    ensures forall i :: 0 <= i < |LayersWithBase(ranges, base)[k]| ==>
              LayersWithBase(ranges, base)[k][i]
              == (if k == 0 then base else ColumnSum(ranges, k, i), ColumnSum(ranges, k + 1, i))
  {
    if k > 0 {
      StackWidth(BaseLayer(base, ranges[0]), ranges[1..], k - 1);
    }
    forall i | 0 <= i < |LayersWithBase(ranges, base)[k]|
      ensures LayersWithBase(ranges, base)[k][i]
              == (if k == 0 then base else ColumnSum(ranges, k, i), ColumnSum(ranges, k + 1, i))
    {
      LayerWithBaseAt(ranges, base, k, i);
    }
  }

  /** Position i of layer k with a base value: the column sums of the first k and k + 1 ranges. */
  lemma LayerWithBaseAt(ranges: seq<seq<int>>, base: int, k: nat, i: nat)
    requires k < |ranges| && i < |LayersWithBase(ranges, base)[k]|
    ensures LayersWithBase(ranges, base)[k][i]
            == (if k == 0 then base else ColumnSum(ranges, k, i), ColumnSum(ranges, k + 1, i))
  {
    var b := BaseLayer(base, ranges[0]);
    assert i < |ranges[0]| by {
      if k > 0 {
        StackWidth(b, ranges[1..], k - 1);
      }
    }
    if k > 0 {
      StackColumn(b, ranges[1..], k - 1, i);
      assert ColumnSum(ranges, k, i) == ranges[0][i] + ColumnSum(ranges[1..], k - 1, i);
      assert ColumnSum(ranges, k + 1, i) == ranges[0][i] + ColumnSum(ranges[1..], k, i);
    } else {
      assert ColumnSum(ranges, 1, i) == At(ranges[0], i) + ColumnSum(ranges[1..], 0, i);
    }
  }

  /**
   * Without a base value the layers are those of the stack with any base
   * value, its first layer (the base paired with r0) left out.
   */
  lemma WithoutBaseDropsBaseLayer(ranges: seq<seq<int>>, base: int)
    requires |ranges| >= 2
    ensures LayersWithoutBase(ranges) == LayersWithBase(ranges, base)[1..]
  {
    var b := BaseLayer(base, ranges[0]);
    assert FirstLayer(ranges[0], ranges[1]) == Next(b, ranges[1]);
    assert ranges[1..][1..] == ranges[2..];
    assert Stack(b, ranges[1..]) == [Next(b, ranges[1])] + Stack(Next(b, ranges[1]), ranges[2..]);
  }

  class RangeStack<K(==)> {
    const keys: seq<K>
    var layers: seq<Layer>

    /** One layer per key. */
    predicate Valid()
      reads this
    {
      |layers| == |keys|
    }

    /** A stack holding its keys and only its first layer. */
    constructor (keys: seq<K>, first: Layer)
      ensures this.keys == keys && layers == [first]
    {
      this.keys := keys;
      layers := [first];
    }

    /**
     * detail::add_layers: each input range in turn is stacked on the last
     * layer, so the layers grow by Stack of the inputs on the old last layer.
     */
    method AddLayers(inputs: seq<seq<int>>)
      requires |layers| > 0
      modifies this
      ensures layers == old(layers) + Stack(old(layers)[|old(layers)| - 1], inputs)
    {
      ghost var prev := layers[|layers| - 1];
      ghost var start := layers;
      for k := 0 to |inputs|
        invariant layers == start + Stack(prev, inputs[..k])
        invariant layers[|layers| - 1] == Top(prev, Stack(prev, inputs[..k]))
      {
        StackSnoc(prev, inputs[..k], inputs[k]);
        assert inputs[..k + 1] == inputs[..k] + [inputs[k]];
        layers := layers + [Next(layers[|layers| - 1], inputs[k])];
      }
      assert inputs[..|inputs|] == inputs;
    }

    /**
     * The constructor without a base value: fewer than two ranges, or a key
     * count other than one less than the range count, is an invalid
     * argument; otherwise the layers are LayersWithoutBase.
     */
    static method WithoutBase(ranges: seq<seq<int>>, keys: seq<K>) returns (r: Result<RangeStack<K>>)
      ensures r.Err? <==> |ranges| < 2 || |keys| + 1 != |ranges|
      ensures r.Err? ==> r.error == InvalidArgument
      ensures r.Ok? ==> fresh(r.value) && r.value.Valid() && r.value.keys == keys
                        && r.value.layers == LayersWithoutBase(ranges)
    {
      if |ranges| < 2 || |keys| + 1 != |ranges| {
        return Err(InvalidArgument);
      }
      var s := new RangeStack(keys, FirstLayer(ranges[0], ranges[1]));
      s.AddLayers(ranges[2..]);
      r := Ok(s);
    }

    /**
     * The constructor with a base value: no ranges, or a key count other
     * than the range count, is an invalid argument; otherwise the layers are
     * LayersWithBase.
     */
    static method WithBase(ranges: seq<seq<int>>, keys: seq<K>, base: int) returns (r: Result<RangeStack<K>>)
      ensures r.Err? <==> |ranges| < 1 || |keys| != |ranges|
      ensures r.Err? ==> r.error == InvalidArgument
      ensures r.Ok? ==> fresh(r.value) && r.value.Valid() && r.value.keys == keys
                        && r.value.layers == LayersWithBase(ranges, base)
    {
      if |ranges| < 1 || |keys| != |ranges| {
        return Err(InvalidArgument);
      }
      var s := new RangeStack(keys, BaseLayer(base, ranges[0]));
      s.AddLayers(ranges[1..]);
      r := Ok(s);
    }

    /**
     * range_stack::layer: the layer at the key's first position; a key the
     * stack does not have is an invalid argument.
     */
    function Layer(key: K): (r: Result<Layer>)
      requires Valid()
      reads this
      ensures r.Err? <==> key !in keys
      ensures r.Err? ==> r.error == InvalidArgument
      ensures r.Ok? ==> exists i :: 0 <= i < |keys| && keys[i] == key && key !in keys[..i] && r.value == layers[i]
    {
      var i := Find(keys, key);
      if i == |keys| then Err(InvalidArgument)
      else
        assert key !in keys[..i] by {
          assert forall j :: 0 <= j < i ==> keys[..i][j] == keys[j];
        }
        Ok(layers[i])
    }
  }

  /**
   * The stack of the ranges 1 2 3 4, 5 2 8 3 and 8 3 5 3 without a base:
   * the layers are (1, 6) (2, 4) (3, 11) (4, 7) and (6, 14) (4, 7) (11, 16)
   * (7, 10).
   */
  lemma StackWithoutBaseExample(ranges: seq<seq<int>>)
    requires ranges == [[1, 2, 3, 4], [5, 2, 8, 3], [8, 3, 5, 3]]
    ensures LayersWithoutBase(ranges) == [[(1, 6), (2, 4), (3, 11), (4, 7)], [(6, 14), (4, 7), (11, 16), (7, 10)]]
  {
    var first := FirstLayer(ranges[0], ranges[1]);
    assert first == [(1, 6), (2, 4), (3, 11), (4, 7)];
    assert ranges[2..] == [ranges[2]];
    assert Stack(first, ranges[2..]) == [Next(first, ranges[2])] + Stack(Next(first, ranges[2]), []);
    assert Next(first, ranges[2]) == [(6, 14), (4, 7), (11, 16), (7, 10)];
  }

  /**
   * The same ranges stacked on the base value 0: the base layer (0, 1)
   * (0, 2) (0, 3) (0, 4) under the two layers of the stack without a base.
   */
  lemma StackWithBaseExample(ranges: seq<seq<int>>)
    requires ranges == [[1, 2, 3, 4], [5, 2, 8, 3], [8, 3, 5, 3]]
    ensures LayersWithBase(ranges, 0)
         == [[(0, 1), (0, 2), (0, 3), (0, 4)], [(1, 6), (2, 4), (3, 11), (4, 7)], [(6, 14), (4, 7), (11, 16), (7, 10)]]
  {
    WithoutBaseDropsBaseLayer(ranges, 0);
    StackWithoutBaseExample(ranges);
    assert BaseLayer(0, ranges[0]) == [(0, 1), (0, 2), (0, 3), (0, 4)];
  }
}
