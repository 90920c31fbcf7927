/** The KV-cache record that experts hand to each other, and the layer adjustment
    that the three tensor backends apply to a cache made by another model. */
module KvCaches {
  import opened Wrappers

  /** One layer's keys or values, indexed by position, head and coordinate. */
  type Tensor = seq<seq<seq<real>>>

  datatype MetaValue = LayerCountMismatch(declared: nat, actual: nat) | Other(tag: string)

  datatype KVCache = KVCache(
    keys: seq<Tensor>,
    values: seq<Tensor>,
    sourceModel: string,
    sourceLayerCount: nat,
    sourceHiddenSize: nat,
    sourceNHeads: nat,
    sourceText: string,
    lastTokenId: int,
    position: int,
    metadata: map<string, MetaValue>)
  {
    /** What construction establishes: one layer count, whatever was declared. */
    predicate WellFormed() {
      |keys| == |values| == sourceLayerCount
    }
  }

  datatype CacheError = LayerCountsDiffer | Incompatible | NoLayerToCopyShapeFrom

  /** Construction: the declared layer count is corrected to the real one, and the
      correction is noted in the metadata. */
  function Construct(declared: KVCache): (r: Result<KVCache, CacheError>)
    ensures r.Ok? <==> |declared.keys| == |declared.values|
    ensures r.Ok? ==> r.value.WellFormed() && r.value.sourceText == declared.sourceText
    ensures r.Ok? && declared.WellFormed() ==> r.value == declared
    ensures r.Ok? && !declared.WellFormed() ==> "layer_count_mismatch" in r.value.metadata
  {
    if |declared.keys| != |declared.values| then
      Err(LayerCountsDiffer)
    else if declared.sourceLayerCount != |declared.keys| then
      var note := LayerCountMismatch(declared.sourceLayerCount, |declared.keys|);
      Ok(declared.(metadata := declared.metadata["layer_count_mismatch" := note],
                   sourceLayerCount := |declared.keys|))
    else
      Ok(declared)
  }

  /** What the correction changes: the count, and a note of both counts beside the metadata there was. */
  lemma CorrectionIsNoted(declared: KVCache)
    requires |declared.keys| == |declared.values| != declared.sourceLayerCount
    ensures var r := Construct(declared);
            && r.Ok? && r.value == declared.(metadata := r.value.metadata, sourceLayerCount := |declared.keys|)
            && "layer_count_mismatch" in r.value.metadata
            && r.value.metadata["layer_count_mismatch"] == LayerCountMismatch(declared.sourceLayerCount, |declared.keys|)
            && r.value.metadata - {"layer_count_mismatch"} == declared.metadata - {"layer_count_mismatch"}
  {
  }

  /** A tensor of zeros of the same shape. */
  function ZerosLike(t: Tensor): Tensor {
    seq(|t|, i requires 0 <= i < |t| =>
      seq(|t[i]|, j requires 0 <= j < |t[i]| => seq(|t[i][j]|, _ => 0.0)))
  }

  /** The shape stays and every element is 0. */
  lemma ZerosLikeIsZero(t: Tensor, i: nat, j: nat, k: nat)
    requires i < |t| && j < |t[i]| && k < |t[i][j]|
    ensures var z := ZerosLike(t);
            |z| == |t| && |z[i]| == |t[i]| && |z[i][j]| == |t[i][j]| && z[i][j][k] == 0.0
  {
  }

  /** The zero layers put behind `layers` to reach `n` of them. */
  function Padding(layers: seq<Tensor>, n: nat): seq<Tensor>
    requires 0 < |layers| <= n
  {
    seq(n - |layers|, _ => ZerosLike(layers[0]))
  }

  /** The shape of the model that receives a cache. */
  datatype Target = Target(layers: nat, heads: nat, headDim: nat)

  predicate SameHeadLayout(cache: KVCache, target: Target) {
    cache.sourceNHeads == target.heads && cache.sourceHiddenSize == target.heads * target.headDim
  }

  /** `transfer_cache` of the llama.cpp, vLLM and Hugging Face backends; the last one
      does not carry the metadata of a cache it has to adjust. */
  function Transfer(cache: KVCache, target: Target, keepMetadata: bool): (r: Result<KVCache, CacheError>)
    requires cache.WellFormed()
  {
    var metadata := if keepMetadata then cache.metadata else map[];
    if !SameHeadLayout(cache, target) then
      Err(Incompatible)
    else if cache.sourceLayerCount == target.layers then
      Ok(cache)
    else if cache.sourceLayerCount > target.layers then
      Construct(cache.(keys := cache.keys[..target.layers], values := cache.values[..target.layers],
                       sourceLayerCount := target.layers, metadata := metadata))
    else if cache.keys == [] then
      Err(NoLayerToCopyShapeFrom)
    else
      Construct(cache.(keys := cache.keys + Padding(cache.keys, target.layers),
                       values := cache.values + Padding(cache.values, target.layers),
                       sourceLayerCount := target.layers, metadata := metadata))
  }

  /** Layer `i` of a stack, with zero layers behind its end. */
  function LayerOrZero(layers: seq<Tensor>, i: nat): Tensor
    requires layers != []
  {
    if i < |layers| then layers[i] else ZerosLike(layers[0])
  }

  /** A transfer succeeds exactly on a matching head layout with a layer to take the pad's shape
      from; the receiver then sees the source's layers first and zeros behind them, with the
      provenance, and so the fallback text, of the original. */
  lemma TransferContents(cache: KVCache, target: Target, keepMetadata: bool)
    requires cache.WellFormed()
    ensures Transfer(cache, target, keepMetadata).Ok?
       <==> cache.sourceNHeads == target.heads && cache.sourceHiddenSize == target.heads * target.headDim
            && (cache.keys == [] ==> target.layers == 0)
    ensures var r := Transfer(cache, target, keepMetadata);
            r.Ok? ==>
              && r.value.WellFormed() && r.value.sourceLayerCount == target.layers
              && SameHeadLayout(r.value, target)
              && (forall i :: 0 <= i < target.layers ==>
                    && r.value.keys[i] == LayerOrZero(cache.keys, i)
                    && r.value.values[i] == LayerOrZero(cache.values, i))
              && r.value.sourceText == cache.sourceText && r.value.sourceModel == cache.sourceModel
              && r.value.lastTokenId == cache.lastTokenId && r.value.position == cache.position
              && (keepMetadata ==> r.value.metadata == cache.metadata)
  {
  }

  /** The layers both ends of a transfer can hold. */
  function Shared(a: KVCache, end: Target): nat {
    if a.sourceLayerCount < end.layers then a.sourceLayerCount else end.layers
  }

  /** The layers an intermediate model drops, and a direct transfer would have kept, are zero. */
  ghost predicate DropsOnlyZeros(a: KVCache, mid: Target, end: Target)
    requires a.WellFormed()
  {
    forall i :: mid.layers <= i < Shared(a, end) ==>
      a.keys[i] == ZerosLike(a.keys[0]) && a.values[i] == ZerosLike(a.values[0])
  }

  /** Going through an intermediate model is the same as going directly exactly when the
      intermediate one has room for every layer both ends can hold, or the layers it drops
      were zero anyway. In particular padding and then truncating is the identity. Only the
      metadata may differ, and only with a backend that does not carry it. */
  lemma TransferComposes(a: KVCache, mid: Target, end: Target, keepMetadata: bool)
    requires a.WellFormed() && a.keys != []
    requires SameHeadLayout(a, mid) && SameHeadLayout(a, end)
    ensures var b := Transfer(a, mid, keepMetadata);
            var direct := Transfer(a, end, keepMetadata);
            b.Ok? && direct.Ok? &&
            var via := Transfer(b.value, end, keepMetadata);
            && (via.Ok? <==> mid.layers > 0 || end.layers == 0)
            && (via.Ok? ==>
                  && (via.value.(metadata := map[]) == direct.value.(metadata := map[])
                      <==> mid.layers >= Shared(a, end) || DropsOnlyZeros(a, mid, end))
                  && (keepMetadata ==> via.value.metadata == direct.value.metadata))
  {
    TransferContents(a, mid, keepMetadata);
    TransferContents(a, end, keepMetadata);
    var b := Transfer(a, mid, keepMetadata).value;
    var direct := Transfer(a, end, keepMetadata).value;
    TransferContents(b, end, keepMetadata);
    if mid.layers > 0 {
      var via := Transfer(b, end, keepMetadata).value;
      assert b.keys[0] == a.keys[0] && b.values[0] == a.values[0];
      if mid.layers >= Shared(a, end) || DropsOnlyZeros(a, mid, end) {
        assert via.keys == direct.keys;
        assert via.values == direct.values;
      } else if via.keys == direct.keys && via.values == direct.values {
        forall i | mid.layers <= i < Shared(a, end)
          ensures a.keys[i] == ZerosLike(a.keys[0]) && a.values[i] == ZerosLike(a.values[0])
        {
          assert direct.keys[i] == a.keys[i] && via.keys[i] == ZerosLike(b.keys[0]);
          assert direct.values[i] == a.values[i] && via.values[i] == ZerosLike(b.values[0]);
        }
      }
    }
  }
}
