/** Expansion of a hierarchy layer into the categories it shows: layer k
    stands for the categories of layers 0 through k. The layer map itself
    comes from parsing a text reply and is an input here. */
module CategoryLayers {
  import opened Wrappers

  /** Layer number to the categories assigned to that layer. */
  type LayerMap = map<int, seq<string>>

  /** The categories of layers 0..k in layer order, a missing layer
      contributing nothing; empty for a negative k. */
  function LayersUpTo(layers: LayerMap, k: int): (cats: seq<string>)
    ensures k < 0 ==> cats == []
    ensures forall c :: c in cats ==> exists i :: 0 <= i <= k && i in layers && c in layers[i]
    decreases k
  {
    if k < 0 then []
    else
      var front := LayersUpTo(layers, k - 1);
      var here := if k in layers then layers[k] else [];
      assert forall c :: c in front + here ==> c in front || c in here;
      front + here
  }

  /** Walk the layers 0..selectedLayer, appending each present one. No
      layer selected gives no categories. */
  method GetCategoriesForLayer(layers: LayerMap, selectedLayer: Option<int>) returns (categories: seq<string>)
    ensures selectedLayer.None? ==> categories == []
    ensures selectedLayer.Some? ==> categories == LayersUpTo(layers, selectedLayer.value)
    ensures selectedLayer.Some? && selectedLayer.value < 0 ==> categories == []
  {
    categories := [];
    if selectedLayer.None? {
      return;
    }
    var last := selectedLayer.value;
    var i := 0;
    while i <= last
      invariant 0 <= i && (last >= 0 ==> i <= last + 1) && (last < 0 ==> i == 0)
      invariant categories == LayersUpTo(layers, i - 1)
      decreases last + 1 - i
    {
      if i in layers {
        categories := categories + layers[i];
      }
      i := i + 1;
    }
    assert last < 0 ==> i == 0 && LayersUpTo(layers, last) == [];
  }

  /** Selecting a deeper layer only appends: the categories of layer j
      come first, unchanged, in those of any layer k >= j. */
  lemma {:induction false} LayersPrefix(layers: LayerMap, j: int, k: int)
    requires j <= k
    ensures |LayersUpTo(layers, j)| <= |LayersUpTo(layers, k)|
    ensures LayersUpTo(layers, k)[..|LayersUpTo(layers, j)|] == LayersUpTo(layers, j)
    decreases k - j
  {
    if j < k {
      LayersPrefix(layers, j, k - 1);
      var a, b := LayersUpTo(layers, j), LayersUpTo(layers, k - 1);
      assert LayersUpTo(layers, k)[..|b|] == b;
      assert b[..|a|] == a;
    }
  }

  /** A category is shown for layer k exactly when some present layer
      0..k lists it. */
  lemma {:induction false} LayersMembership(layers: LayerMap, k: int, c: string)
    ensures c in LayersUpTo(layers, k) <==> exists i :: 0 <= i <= k && i in layers && c in layers[i]
    decreases k
  {
    if k >= 0 {
      LayersMembership(layers, k - 1, c);
      var front, here := LayersUpTo(layers, k - 1), if k in layers then layers[k] else [];
      assert LayersUpTo(layers, k) == front + here;
      assert c in front + here <==> c in front || c in here;
      if c in here {
        assert k in layers && c in layers[k];
      }
    }
  }

  /** A missing layer adds nothing: the result equals that of the layer
      before it. */
  lemma MissingLayerSkipped(layers: LayerMap, k: int)
    requires k !in layers
    ensures LayersUpTo(layers, k) == LayersUpTo(layers, k - 1)
  {
  }
}
