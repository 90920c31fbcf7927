/** How caches lie in memory: llama.cpp's flat tensor and vLLM's pages. */
module TensorLayout {
  import opened Arithmetic
  import opened Wrappers
  import opened KvCaches

  // ---------- Mixed-radix positions ----------

  /** Digit `r` in base `base` behind the higher digits `q`. */
  function Put(q: nat, base: nat, r: nat): nat {
    Product(q, base) + r
  }

  function Product(a: nat, b: nat): nat {
    a * b
  }

  lemma PutDigit(q: nat, n: nat, base: nat, r: nat)
    requires q < n && r < base
    ensures Put(q, base, r) < Product(n, base)
    ensures Put(q, base, r) / base == q && Put(q, base, r) % base == r
  {
    var i := Put(q, base, r);
    Times(q + 1, n, base);
    Times(i / base + 1, q, base);
    Times(q + 1, i / base, base);
  }

  lemma SplitDigit(i: nat, n: nat, base: nat)
    requires i < Product(n, base)
    ensures base > 0 && i / base < n && i % base < base && Put(i / base, base, i % base) == i
  {
    if base > 0 {
      Times(n, i / base, base);
    }
  }

  // ---------- llama.cpp ----------

  datatype Dims = Dims(layers: nat, heads: nat, positions: nat, headDim: nat)

  /** Half 0 of a layer holds its keys, half 1 its values. */
  datatype Place = Place(layer: nat, half: nat, head: nat, position: nat, coordinate: nat)

  predicate Inside(dims: Dims, p: Place) {
    && p.layer < dims.layers && p.half < 2 && p.head < dims.heads
    && p.position < dims.positions && p.coordinate < dims.headDim
  }

  /** The length of the flat tensor. */
  function Size(dims: Dims): nat {
    Product(Product(Product(Product(dims.layers, 2), dims.heads), dims.positions), dims.headDim)
  }

  /** Where llama.cpp keeps an element: layer, half, head, position, coordinate, the last one fastest. */
  function Offset(dims: Dims, p: Place): nat {
    Put(Put(Put(Put(p.layer, 2, p.half), dims.heads, p.head), dims.positions, p.position), dims.headDim, p.coordinate)
  }

  /** Which element lies at an offset. */
  function PlaceOf(dims: Dims, i: nat): (p: Place)
    requires i < Size(dims)
    ensures Inside(dims, p) && Offset(dims, p) == i
  {
    var halves := Product(dims.layers, 2);
    var rows := Product(halves, dims.heads);
    var vectors := Product(rows, dims.positions);
    SplitDigit(i, vectors, dims.headDim);
    var vector := i / dims.headDim;
    SplitDigit(vector, rows, dims.positions);
    var row := vector / dims.positions;
    SplitDigit(row, halves, dims.heads);
    var half := row / dims.heads;
    SplitDigit(half, dims.layers, 2);
    Place(half / 2, half % 2, row % dims.heads, vector % dims.positions, i % dims.headDim)
  }

  /** Places and offsets are in one-to-one correspondence. */
  lemma OffsetDeterminesPlace(dims: Dims, p: Place)
    requires Inside(dims, p)
    ensures Offset(dims, p) < Size(dims) && PlaceOf(dims, Offset(dims, p)) == p
  {
    var halves := Product(dims.layers, 2);
    var rows := Product(halves, dims.heads);
    var half := Put(p.layer, 2, p.half);
    var row := Put(half, dims.heads, p.head);
    var vector := Put(row, dims.positions, p.position);
    PutDigit(p.layer, dims.layers, 2, p.half);
    PutDigit(half, halves, dims.heads, p.head);
    PutDigit(row, rows, dims.positions, p.position);
    PutDigit(vector, Product(rows, dims.positions), dims.headDim, p.coordinate);
  }

  function FlatElement(dims: Dims, flat: seq<real>, p: Place): real
    requires |flat| == Size(dims) && Inside(dims, p)
  {
    OffsetDeterminesPlace(dims, p);
    flat[Offset(dims, p)]
  }

  /** One half of one layer, with the position axis brought before the head axis. */
  function LayerHalf(dims: Dims, flat: seq<real>, layer: nat, half: nat): Tensor
    requires |flat| == Size(dims) && layer < dims.layers && half < 2
  {
    seq(dims.positions, position requires 0 <= position < dims.positions =>
      seq(dims.heads, head requires 0 <= head < dims.heads =>
        seq(dims.headDim, coordinate requires 0 <= coordinate < dims.headDim =>
          FlatElement(dims, flat, Place(layer, half, head, position, coordinate)))))
  }

  function Halves(dims: Dims, flat: seq<real>, half: nat): seq<Tensor>
    requires |flat| == Size(dims) && half < 2
  {
    seq(dims.layers, layer requires 0 <= layer < dims.layers => LayerHalf(dims, flat, layer, half))
  }

  predicate ShapedLayer(dims: Dims, t: Tensor) {
    && |t| == dims.positions
    && (forall position :: 0 <= position < |t| ==> |t[position]| == dims.heads)
    && (forall position, head :: 0 <= position < |t| && 0 <= head < |t[position]| ==> |t[position][head]| == dims.headDim)
  }

  predicate Shaped(dims: Dims, layers: seq<Tensor>) {
    |layers| == dims.layers && forall i :: 0 <= i < |layers| ==> ShapedLayer(dims, layers[i])
  }

  function Element(dims: Dims, keys: seq<Tensor>, values: seq<Tensor>, p: Place): real
    requires Shaped(dims, keys) && Shaped(dims, values) && Inside(dims, p)
  {
    if p.half == 0 then keys[p.layer][p.position][p.head][p.coordinate]
    else values[p.layer][p.position][p.head][p.coordinate]
  }

  /** The flat tensor that holds the given layers. */
  function Stacked(dims: Dims, keys: seq<Tensor>, values: seq<Tensor>): seq<real>
    requires Shaped(dims, keys) && Shaped(dims, values)
  {
    seq(Size(dims), i requires 0 <= i < Size(dims) => Element(dims, keys, values, PlaceOf(dims, i)))
  }

  /** The layers taken out of a flat tensor have the cache's shape. */
  lemma HalvesAreShaped(dims: Dims, flat: seq<real>)
    requires |flat| == Size(dims)
    ensures Shaped(dims, Halves(dims, flat, 0)) && Shaped(dims, Halves(dims, flat, 1))
  {
  }

  /** The axes, slowest first: layer, keys before values, head, position, coordinate. */
  lemma OffsetIsRowMajor(dims: Dims, p: Place)
    ensures Offset(dims, p)
         == (((p.layer * 2 + p.half) * dims.heads + p.head) * dims.positions + p.position) * dims.headDim + p.coordinate
    ensures Size(dims) == dims.layers * 2 * dims.heads * dims.positions * dims.headDim
  {
  }

  /** So a key, and the value that belongs to it, stand in the cache by position and head, and in the flat
      tensor at these indices. */
  lemma KeyAndValueAt(dims: Dims, flat: seq<real>, layer: nat, position: nat, head: nat, coordinate: nat)
    requires |flat| == dims.layers * 2 * dims.heads * dims.positions * dims.headDim
    requires layer < dims.layers && position < dims.positions && head < dims.heads && coordinate < dims.headDim
    ensures |flat| == Size(dims)
    ensures var k := (((layer * 2) * dims.heads + head) * dims.positions + position) * dims.headDim + coordinate;
            var v := (((layer * 2 + 1) * dims.heads + head) * dims.positions + position) * dims.headDim + coordinate;
            && 0 <= k < |flat| && 0 <= v < |flat|
            && Halves(dims, flat, 0)[layer][position][head][coordinate] == flat[k]
            && Halves(dims, flat, 1)[layer][position][head][coordinate] == flat[v]
  {
    var p, q := Place(layer, 0, head, position, coordinate), Place(layer, 1, head, position, coordinate);
    OffsetIsRowMajor(dims, p);
    OffsetIsRowMajor(dims, q);
    OffsetDeterminesPlace(dims, p);
    OffsetDeterminesPlace(dims, q);
    HalfAt(dims, flat, p);
    HalfAt(dims, flat, q);
    hide *;
  }

  lemma HalfAt(dims: Dims, flat: seq<real>, p: Place)
    requires |flat| == Size(dims) && Inside(dims, p)
    ensures Offset(dims, p) < |flat|
    ensures Halves(dims, flat, p.half)[p.layer][p.position][p.head][p.coordinate] == flat[Offset(dims, p)]
  {
    OffsetDeterminesPlace(dims, p);
    assert Halves(dims, flat, p.half)[p.layer] == LayerHalf(dims, flat, p.layer, p.half);
    assert LayerHalf(dims, flat, p.layer, p.half)[p.position][p.head][p.coordinate] == FlatElement(dims, flat, p);
  }

  /** Taking a flat tensor apart and stacking the layers again gives the flat tensor. */
  lemma StackUndoesSplit(dims: Dims, flat: seq<real>)
    requires |flat| == Size(dims)
    ensures Shaped(dims, Halves(dims, flat, 0)) && Shaped(dims, Halves(dims, flat, 1))
    ensures Stacked(dims, Halves(dims, flat, 0), Halves(dims, flat, 1)) == flat
  {
    HalvesAreShaped(dims, flat);
    forall i: nat | i < Size(dims)
      ensures Stacked(dims, Halves(dims, flat, 0), Halves(dims, flat, 1))[i] == flat[i]
    {
      var p := PlaceOf(dims, i);
      assert Halves(dims, flat, p.half)[p.layer] == LayerHalf(dims, flat, p.layer, p.half);
      assert Element(dims, Halves(dims, flat, 0), Halves(dims, flat, 1), p) == FlatElement(dims, flat, p);
    }
  }

  /** Stacking layers and taking the flat tensor apart gives the layers. */
  lemma SplitUndoesStack(dims: Dims, keys: seq<Tensor>, values: seq<Tensor>)
    requires Shaped(dims, keys) && Shaped(dims, values)
    ensures Halves(dims, Stacked(dims, keys, values), 0) == keys
    ensures Halves(dims, Stacked(dims, keys, values), 1) == values
  {
    forall layer: nat | layer < dims.layers
      ensures LayerHalf(dims, Stacked(dims, keys, values), layer, 0) == keys[layer]
      ensures LayerHalf(dims, Stacked(dims, keys, values), layer, 1) == values[layer]
    {
      LayerUndoesStack(dims, keys, values, layer, 0);
      LayerUndoesStack(dims, keys, values, layer, 1);
    }
  }

  lemma LayerUndoesStack(dims: Dims, keys: seq<Tensor>, values: seq<Tensor>, layer: nat, half: nat)
    requires Shaped(dims, keys) && Shaped(dims, values) && layer < dims.layers && half < 2
    ensures LayerHalf(dims, Stacked(dims, keys, values), layer, half) == if half == 0 then keys[layer] else values[layer]
  {
    var t := LayerHalf(dims, Stacked(dims, keys, values), layer, half);
    var expected := if half == 0 then keys[layer] else values[layer];
    assert ShapedLayer(dims, expected);
    forall position: nat | position < dims.positions
      ensures t[position] == expected[position]
    {
      forall head: nat | head < dims.heads
        ensures t[position][head] == expected[position][head]
      {
        forall coordinate: nat | coordinate < dims.headDim
          ensures t[position][head][coordinate] == expected[position][head][coordinate]
        {
          OffsetDeterminesPlace(dims, Place(layer, half, head, position, coordinate));
        }
      }
    }
  }

  /** What `encode` does with the flat tensor. */
  method Deinterleave(dims: Dims, flat: seq<real>) returns (keys: seq<Tensor>, values: seq<Tensor>)
    requires |flat| == Size(dims)
    ensures keys == Halves(dims, flat, 0) && values == Halves(dims, flat, 1)
  {
    keys, values := [], [];
    for layer := 0 to dims.layers
      invariant |keys| == |values| == layer
      invariant forall i :: 0 <= i < layer ==> keys[i] == LayerHalf(dims, flat, i, 0) && values[i] == LayerHalf(dims, flat, i, 1)
    {
      keys := keys + [LayerHalf(dims, flat, layer, 0)];
      values := values + [LayerHalf(dims, flat, layer, 1)];
    }
  }

  /** The memory of a five-dimensional array, the last index fastest. */
  function RowMajor(dims: Dims, a: array5<real>): seq<real>
    requires Fits(dims, a)
    reads a
  {
    seq(Size(dims), i requires 0 <= i < Size(dims) && Fits(dims, a) reads a => At(dims, a, PlaceOf(dims, i)))
  }

  predicate Fits(dims: Dims, a: array5<real>) {
    a.Length0 == dims.layers && a.Length1 == 2 && a.Length2 == dims.heads && a.Length3 == dims.positions && a.Length4 == dims.headDim
  }

  function At(dims: Dims, a: array5<real>, p: Place): real
    requires Fits(dims, a) && Inside(dims, p)
    reads a
  {
    a[p.layer, p.half, p.head, p.position, p.coordinate]
  }

  /** Stacking layer by layer, with the head axis brought back before the position axis. */
  method Restack(dims: Dims, keys: seq<Tensor>, values: seq<Tensor>) returns (flat: array5<real>)
    requires Shaped(dims, keys) && Shaped(dims, values)
    ensures fresh(flat) && Fits(dims, flat) && RowMajor(dims, flat) == Stacked(dims, keys, values)
  {
    flat := new real[dims.layers, 2, dims.heads, dims.positions, dims.headDim]((_, _, _, _, _) => 0.0);
    for layer := 0 to dims.layers
      invariant Fits(dims, flat)
      invariant forall p :: Inside(dims, p) && p.layer < layer ==> At(dims, flat, p) == Element(dims, keys, values, p)
    {
      forall head, position, coordinate
        | 0 <= head < dims.heads && 0 <= position < dims.positions && 0 <= coordinate < dims.headDim
      {
        flat[layer, 0, head, position, coordinate] := keys[layer][position][head][coordinate];
      }
      forall head, position, coordinate
        | 0 <= head < dims.heads && 0 <= position < dims.positions && 0 <= coordinate < dims.headDim
      {
        flat[layer, 1, head, position, coordinate] := values[layer][position][head][coordinate];
      }
    }
  }

  // ---------- Layer adjustment on the way in ----------

  /** What `decode` makes of a cache's layers before stacking them. */
  function Adjusted(layers: seq<Tensor>, n: nat): Option<seq<Tensor>> {
    if |layers| >= n then Some(layers[..n])
    else if layers == [] then None
    else Some(layers + Padding(layers, n))
  }

  method Adjust(layers: seq<Tensor>, n: nat) returns (adjusted: Option<seq<Tensor>>)
    ensures adjusted == Adjusted(layers, n)
  {
    var cut := if |layers| > n then layers[..n] else layers;
    ghost var kept := if |layers| > n then n else |layers|;
    while |cut| < n
      invariant kept <= |cut| <= n && kept <= |layers| && cut[..kept] == layers[..kept]
      invariant layers == [] ==> cut == []
      invariant layers != [] ==> forall i :: kept <= i < |cut| ==> cut[i] == ZerosLike(layers[0])
    {
      if cut == [] {
        return None;
      }
      cut := cut + [ZerosLike(cut[0])];
    }
    if |layers| < n {
      assert cut == layers + Padding(layers, n);
    } else {
      assert cut == layers[..n];
    }
    adjusted := Some(cut);
  }

  /** Adjusting while stacking and transferring the cache first come to the same layers, and fail on
      the same caches. */
  lemma AdjustIsTransfer(cache: KVCache, target: Target, keepMetadata: bool)
    requires cache.WellFormed() && SameHeadLayout(cache, target)
    ensures var r := Transfer(cache, target, keepMetadata);
            && Adjusted(cache.keys, target.layers) == (match r case Ok(c) => Some(c.keys) case Err(_) => None)
            && Adjusted(cache.values, target.layers) == (match r case Ok(c) => Some(c.values) case Err(_) => None)
  {
    TransferContents(cache, target, keepMetadata);
    if cache.sourceLayerCount == target.layers {
      assert cache.keys[..target.layers] == cache.keys && cache.values[..target.layers] == cache.values;
    }
  }

  // ---------- Assignment with broadcasting ----------

  /** An array goes into a larger one if it agrees with it, or has length 1, along each axis. */
  predicate Spreads(dims: Dims, t: Tensor) {
    && (|t| == dims.positions || |t| == 1)
    && (forall p :: 0 <= p < |t| ==> |t[p]| == dims.heads || |t[p]| == 1)
    && (forall p, h :: 0 <= p < |t| && 0 <= h < |t[p]| ==> |t[p][h]| == dims.headDim || |t[p][h]| == 1)
  }

  /** The index into an axis of length `n`, which is repeated if it is 1. */
  function Along(i: nat, n: nat): nat {
    if n == 1 then 0 else i
  }

  function SpreadRow(row: seq<real>, n: nat): (r: seq<real>)
    requires |row| == n || |row| == 1
    ensures |r| == n && (|row| == n ==> r == row)
  {
    seq(n, i requires 0 <= i < n => row[Along(i, |row|)])
  }

  function SpreadRows(rows: seq<seq<real>>, n: nat, m: nat): (r: seq<seq<real>>)
    requires |rows| == n || |rows| == 1
    requires forall h :: 0 <= h < |rows| ==> |rows[h]| == m || |rows[h]| == 1
    ensures |r| == n && forall h :: 0 <= h < n ==> |r[h]| == m
    ensures |rows| == n && (forall h :: 0 <= h < n ==> |rows[h]| == m) ==> r == rows
  {
    seq(n, h requires 0 <= h < n => SpreadRow(rows[Along(h, |rows|)], m))
  }

  /** The array in the full shape: equal to it if it has that shape, and otherwise repeated. */
  function Spread(dims: Dims, t: Tensor): (r: Tensor)
    requires Spreads(dims, t)
    ensures ShapedLayer(dims, r) && (ShapedLayer(dims, t) ==> r == t)
  {
    seq(dims.positions, p requires 0 <= p < dims.positions => SpreadRows(t[Along(p, |t|)], dims.heads, dims.headDim))
  }

  /** What stands where: along an axis of length 1 the same everywhere, along a full one each its own. */
  lemma SpreadAt(dims: Dims, t: Tensor, position: nat, head: nat, coordinate: nat)
    requires Spreads(dims, t) && position < dims.positions && head < dims.heads && coordinate < dims.headDim
    ensures var rows := t[if |t| == 1 then 0 else position];
            var row := rows[if |rows| == 1 then 0 else head];
            Spread(dims, t)[position][head][coordinate] == row[if |row| == 1 then 0 else coordinate]
  {
    var rows := t[Along(position, |t|)];
    assert Spread(dims, t)[position] == SpreadRows(rows, dims.heads, dims.headDim);
    assert SpreadRows(rows, dims.heads, dims.headDim)[head] == SpreadRow(rows[Along(head, |rows|)], dims.headDim);
  }

  predicate AllSpread(dims: Dims, layers: seq<Tensor>) {
    forall i :: 0 <= i < |layers| ==> Spreads(dims, layers[i])
  }

  function SpreadAll(dims: Dims, layers: seq<Tensor>): (spread: seq<Tensor>)
    requires AllSpread(dims, layers)
    ensures |layers| == dims.layers ==> Shaped(dims, spread)
    ensures Shaped(dims, layers) ==> spread == layers
  {
    seq(|layers|, i requires 0 <= i < |layers| => Spread(dims, layers[i]))
  }

  /** Padding or truncating inline and stacking puts into memory what transferring the cache first and
      stacking the result does, smaller arrays repeated along their axes of length 1. There is no tensor
      exactly if the transfer fails, which includes another head layout, or a layer does not fit. */
  method Inject(dims: Dims, cache: KVCache, keepMetadata: bool) returns (flat: Option<array5<real>>)
    requires cache.WellFormed()
    ensures match Transfer(cache, Target(dims.layers, dims.heads, dims.headDim), keepMetadata)
            case Err(_) => flat.None?
            case Ok(c) =>
              && |c.keys| == |c.values| == dims.layers
              && (flat.Some? <==> AllSpread(dims, c.keys) && AllSpread(dims, c.values))
              && (flat.Some? ==>
                    && Fits(dims, flat.value)
                    && RowMajor(dims, flat.value) == Stacked(dims, SpreadAll(dims, c.keys), SpreadAll(dims, c.values)))
  {
    if !SameHeadLayout(cache, Target(dims.layers, dims.heads, dims.headDim)) {
      return None;
    }
    TransferContents(cache, Target(dims.layers, dims.heads, dims.headDim), keepMetadata);
    AdjustIsTransfer(cache, Target(dims.layers, dims.heads, dims.headDim), keepMetadata);
    var keys := Adjust(cache.keys, dims.layers);
    var values := Adjust(cache.values, dims.layers);
    if keys == None || values == None {
      return None;
    }
    if !AllSpread(dims, keys.value) || !AllSpread(dims, values.value) {
      return None;
    }
    var stacked := Restack(dims, SpreadAll(dims, keys.value), SpreadAll(dims, values.value));
    flat := Some(stacked);
  }

  // ---------- vLLM ----------

  /** What a page holds for each of its positions: keys or values by head and coordinate. */
  type Row = seq<seq<real>>
  type Page = seq<Row>

  ghost predicate PagesOf(pages: seq<Page>, table: seq<nat>, pageSize: nat) {
    && (forall b :: 0 <= b < |pages| ==> |pages[b]| == pageSize)
    && (forall k :: 0 <= k < |table| ==> table[k] < |pages|)
  }

  /** The pages of a block table, one after the other, cut to the sequence length. */
  function Gathered(pages: seq<Page>, table: seq<nat>, pageSize: nat, length: nat): Tensor
    requires PagesOf(pages, table, pageSize)
  {
    var all := Joined(pages, table, pageSize);
    if |all| > length then all[..length] else all
  }

  function Joined(pages: seq<Page>, table: seq<nat>, pageSize: nat): Tensor
    requires PagesOf(pages, table, pageSize)
  {
    if table == [] then [] else Joined(pages, table[..|table| - 1], pageSize) + pages[table[|table| - 1]]
  }

  lemma OneMorePage(k: nat, pageSize: nat)
    ensures Product(k + 1, pageSize) == Product(k, pageSize) + pageSize && Product(0, pageSize) == 0
  {
  }

  lemma {:induction false} JoinedLength(pages: seq<Page>, table: seq<nat>, pageSize: nat)
    requires PagesOf(pages, table, pageSize)
    ensures |Joined(pages, table, pageSize)| == Product(|table|, pageSize)
  {
    hide Product;
    OneMorePage(if table == [] then 0 else |table| - 1, pageSize);
    if table != [] {
      JoinedLength(pages, table[..|table| - 1], pageSize);
    }
  }

  lemma {:induction false} JoinedAt(pages: seq<Page>, table: seq<nat>, pageSize: nat, p: nat)
    requires PagesOf(pages, table, pageSize) && p < |Joined(pages, table, pageSize)|
    ensures pageSize > 0 && p / pageSize < |table|
    ensures Joined(pages, table, pageSize)[p] == pages[table[p / pageSize]][p % pageSize]
  {
    var k := |table| - 1;
    var front := table[..k];
    JoinedLength(pages, front, pageSize);
    if p < Product(k, pageSize) {
      JoinedAt(pages, front, pageSize, p);
    } else {
      PutDigit(k, |table|, pageSize, p - Product(k, pageSize));
      hide Product;
    }
  }

  /** Position `p` of the gathered cache is row `p % pageSize` of the page that the block table names at
      `p / pageSize`, for every position below the sequence length that the table covers. */
  lemma GatheredAt(pages: seq<Page>, table: seq<nat>, pageSize: nat, length: nat, p: nat)
    requires PagesOf(pages, table, pageSize)
    ensures |Gathered(pages, table, pageSize, length)|
         == if length < |table| * pageSize then length else |table| * pageSize
    ensures p < |Gathered(pages, table, pageSize, length)| ==>
              && pageSize > 0 && p / pageSize < |table|
              && Gathered(pages, table, pageSize, length)[p] == pages[table[p / pageSize]][p % pageSize]
  {
    JoinedLength(pages, table, pageSize);
    assert Product(|table|, pageSize) == |table| * pageSize;
    hide Product, PagesOf, Joined;
    if p < |Gathered(pages, table, pageSize, length)| {
      JoinedAt(pages, table, pageSize, p);
    }
  }

  /** The physical cache of one layer: the pages of its keys and of its values. */
  type PhysicalLayer = (seq<Page>, seq<Page>)

  /** What `encode` collects; with an empty block table there is nothing to concatenate. */
  method Gather(gpu: seq<PhysicalLayer>, table: seq<nat>, pageSize: nat, length: nat)
    returns (r: Option<(seq<Tensor>, seq<Tensor>)>)
    requires forall layer :: 0 <= layer < |gpu| ==>
               PagesOf(gpu[layer].0, table, pageSize) && PagesOf(gpu[layer].1, table, pageSize)
    ensures r.None? <==> table == [] && gpu != []
    ensures r.Some? ==>
              && |r.value.0| == |r.value.1| == |gpu|
              && forall layer :: 0 <= layer < |gpu| ==>
                   && r.value.0[layer] == Gathered(gpu[layer].0, table, pageSize, length)
                   && r.value.1[layer] == Gathered(gpu[layer].1, table, pageSize, length)
  {
    var keys: seq<Tensor>, values: seq<Tensor> := [], [];
    for layer := 0 to |gpu|
      invariant |keys| == |values| == layer && (layer > 0 ==> table != [])
      invariant forall i :: 0 <= i < layer ==>
                  && keys[i] == Gathered(gpu[i].0, table, pageSize, length)
                  && values[i] == Gathered(gpu[i].1, table, pageSize, length)
    {
      hide PagesOf;
      var layerKeys, layerValues := CollectPages(gpu[layer].0, gpu[layer].1, table, pageSize);
      if table == [] {
        return None;
      }
      keys := keys + [if |layerKeys| > length then layerKeys[..length] else layerKeys];
      values := values + [if |layerValues| > length then layerValues[..length] else layerValues];
    }
    r := Some((keys, values));
  }

  method CollectPages(keyPages: seq<Page>, valuePages: seq<Page>, table: seq<nat>, pageSize: nat)
    returns (layerKeys: Tensor, layerValues: Tensor)
    requires PagesOf(keyPages, table, pageSize) && PagesOf(valuePages, table, pageSize)
    ensures layerKeys == Joined(keyPages, table, pageSize) && layerValues == Joined(valuePages, table, pageSize)
  {
    layerKeys, layerValues := [], [];
    for k := 0 to |table|
      invariant layerKeys == Joined(keyPages, table[..k], pageSize)
      invariant layerValues == Joined(valuePages, table[..k], pageSize)
    {
      layerKeys := layerKeys + keyPages[table[k]];
      layerValues := layerValues + valuePages[table[k]];
      assert table[..k + 1][..k] == table[..k];
    }
    assert table[..|table|] == table;
  }
}
