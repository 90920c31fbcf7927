/** One expert: a role and a backend, invoked on a text prompt or on a handed-over cache. */
module Experts {
  import opened Wrappers
  import opened KvCaches

  datatype Role = Analyst | Reasoner | Synthesizer | Coder | Router | Translator | Generalist

  /** What a transfer comes to: an exception, no cache, or a cache for this backend. */
  datatype Transferred = Raises | Nothing | Moved(cache: KVCache)

  /** An inference backend as the functions its methods compute. None is a raised exception;
      for `countTokens` it is also a backend without that method. */
  datatype Backend = Backend(
    supportsKvCache: bool,
    paramsM: int,
    generate: (string, int) -> Option<string>,
    encode: string -> Option<KVCache>,
    decode: (KVCache, int) -> Option<string>,
    transferCache: KVCache -> Transferred,
    countTokens: string -> Option<nat>)

  datatype Expert = Expert(name: string, role: Role, backend: Backend)

  /** What the hand-off relies on: a cache remembers the text it was encoded from. */
  ghost predicate KeepsText(b: Backend) {
    && (forall text :: b.encode(text).Some? ==> b.encode(text).value.sourceText == text)
    && (forall c :: b.transferCache(c).Moved? ==> b.transferCache(c).cache.sourceText == c.sourceText)
  }

  /** The clock readings around one invocation, in milliseconds. */
  datatype Timing = Timing(latencyMs: real, transferMs: real)

  datatype ExpertMetrics = ExpertMetrics(
    expertName: string,
    role: Role,
    paramsM: int,
    inputTokens: nat,
    outputTokens: nat,
    latencyMs: real,
    cacheTransferMs: real,
    usedKvCache: bool,
    cacheTransferSucceeded: bool)

  /** The last one is a bare `raise` with no exception at hand. */
  datatype InvokeError = NoInput | BackendRaised | UnknownExpert | NothingToRaise

  /** The result of one invocation; `accounted` is the prompt its input tokens are counted on. */
  datatype Invocation = Invocation(
    output: string, cache: Option<KVCache>, metrics: ExpertMetrics, accounted: string)

  // ---------- What an invocation means ----------

  /** The cache counts as used: the backend can use one and the transfer does not raise. */
  predicate UsesCache(b: Backend, cache: Option<KVCache>) {
    cache.Some? && b.supportsKvCache && !b.transferCache(cache.value).Raises?
  }

  /** The cache takes part: the transfer also comes up with one. */
  predicate DecodesCache(b: Backend, cache: Option<KVCache>) {
    cache.Some? && b.supportsKvCache && b.transferCache(cache.value).Moved?
  }

  predicate TransferFails(b: Backend, cache: Option<KVCache>) {
    cache.Some? && b.supportsKvCache && b.transferCache(cache.value).Raises?
  }

  /** The text an invocation stands for: a cache, usable or not, wins over the prompt. */
  function EffectivePrompt(prompt: Option<string>, cache: Option<KVCache>): string {
    if cache.Some? then cache.value.sourceText else prompt.GetOr("")
  }

  function OutputText(b: Backend, prompt: Option<string>, cache: Option<KVCache>, budget: int): Option<string> {
    if DecodesCache(b, cache)
    then b.decode(b.transferCache(cache.value).cache, budget)
    else b.generate(EffectivePrompt(prompt, cache), budget)
  }

  /** The cache offered to the next expert, over input and output together. */
  function OutputCache(b: Backend, effective: string, output: string): Option<KVCache> {
    if b.supportsKvCache then b.encode(effective + "\n" + output) else None
  }

  /** Four characters to a token, never none. */
  function Estimate(text: string): nat {
    if |text| / 4 < 1 then 1 else |text| / 4
  }

  /** Input and output tokens: the backend's own count, or the estimate for both texts. */
  function TokenCounts(b: Backend, effective: string, output: string): (nat, nat) {
    var i, o := b.countTokens(effective), b.countTokens(output);
    if i.Some? && o.Some? then (i.value, o.value) else (Estimate(effective), Estimate(output))
  }

  function MetricsOf(e: Expert, cache: Option<KVCache>, effective: string, output: string, t: Timing): ExpertMetrics {
    var (i, o) := TokenCounts(e.backend, effective, output);
    ExpertMetrics(e.name, e.role, e.backend.paramsM, i, o, t.latencyMs,
                  if cache.Some? && e.backend.supportsKvCache then t.transferMs else 0.0,
                  UsesCache(e.backend, cache), !TransferFails(e.backend, cache))
  }

  function Invoked(e: Expert, prompt: Option<string>, cache: Option<KVCache>, budget: int, t: Timing)
    : (r: Result<Invocation, InvokeError>)
  {
    var effective := EffectivePrompt(prompt, cache);
    if prompt.None? && cache.None? then
      Err(NoInput)
    else match OutputText(e.backend, prompt, cache, budget)
      case None => Err(BackendRaised)
      case Some(output) =>
        Ok(Invocation(output, OutputCache(e.backend, effective, output),
                      MetricsOf(e, cache, effective, output, t), effective))
  }

  // ---------- How it is computed ----------

  /** `Expert.invoke`: inputs, cache and flags are reassigned along the exception paths. */
  method Invoke(e: Expert, prompt: Option<string>, cache: Option<KVCache>, budget: int, t: Timing)
    returns (r: Result<Invocation, InvokeError>)
    ensures r == Invoked(e, prompt, cache, budget, t)
  {
    var prompt', cache' := prompt, cache;
    if prompt'.None? && cache'.None? {
      return Err(NoInput);
    }
    if cache'.Some? && !e.backend.supportsKvCache {
      prompt' := Some(cache'.value.sourceText);
      cache' := None;
    }
    var effective := if cache'.Some? then cache'.value.sourceText else prompt'.GetOr("");
    var usedKv := cache'.Some?;
    var transferMs := 0.0;
    var transferSucceeded := true;
    var transferred := cache';
    if cache'.Some? {
      match e.backend.transferCache(cache'.value) {
        case Raises =>
          transferSucceeded := false;
          transferred := None;
          effective := cache'.value.sourceText;
          usedKv := false;
        case Nothing =>
          transferred := None;
        case Moved(c) =>
          transferred := Some(c);
      }
      transferMs := t.transferMs;
    }

    var produced;
    if usedKv && transferred.Some? {
      produced := e.backend.decode(transferred.value, budget);
    } else {
      produced := e.backend.generate(effective, budget);
    }
    if produced.None? {
      return Err(BackendRaised);
    }
    var output := produced.value;

    var outputCache: Option<KVCache> := None;
    if e.backend.supportsKvCache {
      var combined := effective + "\n" + output;
      outputCache := e.backend.encode(combined);
    }

    var inTok, outTok := Estimate(effective), Estimate(output);
    var counted := e.backend.countTokens(effective);
    if counted.Some? {
      var countedOut := e.backend.countTokens(output);
      if countedOut.Some? {
        inTok, outTok := counted.value, countedOut.value;
      }
    }
    var metrics := ExpertMetrics(e.name, e.role, e.backend.paramsM, inTok, outTok,
                                 t.latencyMs, transferMs, usedKv, transferSucceeded);
    r := Ok(Invocation(output, outputCache, metrics, effective));
  }

  // ---------- Consequences ----------

  /** A failed transfer is recorded as not having used the cache, so no record can both use
      a cache and report a failed transfer. */
  lemma UsedImpliesSucceeded(e: Expert, prompt: Option<string>, cache: Option<KVCache>, budget: int, t: Timing)
    ensures var r := Invoked(e, prompt, cache, budget, t);
            r.Ok? && r.value.metrics.usedKvCache ==> r.value.metrics.cacheTransferSucceeded
  {
  }

  /** When the cache does not take part, because the backend has no caches or because the
      transfer raises or comes up with none, output and next cache are those of the same expert prompted with the
      text of the cache. */
  lemma UnusedCacheIsItsText(e: Expert, prompt: Option<string>, c: KVCache, budget: int, t: Timing)
    requires !DecodesCache(e.backend, Some(c))
    ensures var byCache := Invoked(e, prompt, Some(c), budget, t);
            var byText := Invoked(e, Some(c.sourceText), None, budget, t);
            && (byCache.Ok? <==> byText.Ok?)
            && (byCache.Ok? ==> byCache.value.output == byText.value.output
                                && byCache.value.cache == byText.value.cache
                                && byCache.value.accounted == byText.value.accounted)
  {
  }

  // ---------- Who answers ----------

  /** The invocation says what the backend said, or raises with it. */
  ghost predicate Says(r: Result<Invocation, InvokeError>, answer: Option<string>) {
    match answer
    case None => r == Err(BackendRaised)
    case Some(output) => r.Ok? && r.value.output == output
  }

  /** The record of an invocation, by how it came about. */
  ghost predicate Notes(r: Result<Invocation, InvokeError>, accounted: string, used: bool, succeeded: bool, transferMs: real) {
    r.Ok? ==>
      && r.value.accounted == accounted && r.value.metrics.usedKvCache == used
      && r.value.metrics.cacheTransferSucceeded == succeeded && r.value.metrics.cacheTransferMs == transferMs
  }

  /** The decision tree, leaf by leaf: who answers, on what the answer is accounted and what the record
      says. A cache is decoded as the transfer left it, and any other answer is generated from text. */
  lemma AnswerComesFrom(e: Expert, prompt: Option<string>, cache: Option<KVCache>, budget: int, t: Timing)
    ensures var b, r := e.backend, Invoked(e, prompt, cache, budget, t);
            match cache
            case None =>
              (match prompt
               case None => r == Err(NoInput)
               case Some(text) => Says(r, b.generate(text, budget)) && Notes(r, text, false, true, 0.0))
            case Some(c) =>
              if !b.supportsKvCache then
                Says(r, b.generate(c.sourceText, budget)) && Notes(r, c.sourceText, false, true, 0.0)
              else
                match b.transferCache(c)
                case Moved(moved) => Says(r, b.decode(moved, budget)) && Notes(r, c.sourceText, true, true, t.transferMs)
                case Nothing => Says(r, b.generate(c.sourceText, budget)) && Notes(r, c.sourceText, true, true, t.transferMs)
                case Raises => Says(r, b.generate(c.sourceText, budget)) && Notes(r, c.sourceText, false, false, t.transferMs)
  {
  }

  /** The next cache and the rest of the record, from the answer. Tokens are the backend's own count of
      both texts, or for both a quarter of the characters, rounded down, and never none. */
  lemma AnswerIsFollowedUp(e: Expert, prompt: Option<string>, cache: Option<KVCache>, budget: int, t: Timing)
    requires Invoked(e, prompt, cache, budget, t).Ok?
    ensures var b, r := e.backend, Invoked(e, prompt, cache, budget, t).value;
            var counts := (b.countTokens(r.accounted), b.countTokens(r.output));
            && r.cache == (if b.supportsKvCache then b.encode(r.accounted + "\n" + r.output) else None)
            && r.metrics.expertName == e.name && r.metrics.role == e.role && r.metrics.paramsM == b.paramsM
            && r.metrics.latencyMs == t.latencyMs
            && (if counts.0.Some? && counts.1.Some?
                then r.metrics.inputTokens == counts.0.value && r.metrics.outputTokens == counts.1.value
                else Quarter(r.metrics.inputTokens, r.accounted) && Quarter(r.metrics.outputTokens, r.output))
  {
  }

  ghost predicate Quarter(tokens: nat, text: string) {
    tokens >= 1 && (tokens * 4 <= |text| < tokens * 4 + 4 || (tokens == 1 && |text| < 4))
  }

  /** Only caches that a transfer yields are ever decoded: a backend that decodes all others differently
      answers every invocation the same. */
  lemma DecodesOnlyTransferred(e: Expert, other: (KVCache, int) -> Option<string>,
                               prompt: Option<string>, cache: Option<KVCache>, budget: int, t: Timing)
    requires forall x, c, n :: e.backend.transferCache(x) == Moved(c) ==> other(c, n) == e.backend.decode(c, n)
    ensures Invoked(e.(backend := e.backend.(decode := other)), prompt, cache, budget, t)
         == Invoked(e, prompt, cache, budget, t)
  {
  }

  /** With the tensor backends' transfer what is decoded has the receiver's own layers and head layout,
      whatever was handed over. */
  lemma DecodedCacheIsOwn(e: Expert, own: Target, keepMetadata: bool, c: KVCache, budget: int, t: Timing)
    requires e.backend.supportsKvCache && forall x :: e.backend.transferCache(x) == TensorTransfer(own, keepMetadata, x)
    ensures var r := Invoked(e, None, Some(c), budget, t);
            r.Ok? && r.value.metrics.usedKvCache ==>
              exists d: KVCache :: d.WellFormed() && d.sourceLayerCount == own.layers && SameHeadLayout(d, own)
                     && d.sourceText == c.sourceText && e.backend.decode(d, budget) == Some(r.value.output)
  {
    AnswerComesFrom(e, None, Some(c), budget, t);
    var r := Invoked(e, None, Some(c), budget, t);
    if r.Ok? && r.value.metrics.usedKvCache {
      TransferContents(c, own, keepMetadata);
      var d := e.backend.transferCache(c).cache;
      assert e.backend.decode(d, budget) == Some(r.value.output);
    }
  }

  // ---------- The backend contract has witnesses ----------

  /** The deterministic backend of the tests: a cache of its own shape passes through, any
      other is re-encoded from its text. `hidden` stands for its hashed tensors. */
  function MockTransfer(own: Target, encode: string -> Option<KVCache>, c: KVCache): Transferred {
    if c.sourceLayerCount == own.layers && SameHeadLayout(c, own) then Moved(c)
    else match encode(c.sourceText)
      case Some(again) => Moved(again)
      case None => Raises
  }

  /** The layer-adjusting transfer of the tensor backends. */
  function TensorTransfer(own: Target, keepMetadata: bool, c: KVCache): Transferred {
    if !c.WellFormed() then Raises
    else match Transfer(c, own, keepMetadata)
      case Ok(r) => Moved(r)
      case Err(_) => Raises
  }

  /** The test backend hands a cache of its own shape through as it is; any other it makes anew from the
      text, in whatever shape its own encoding has. */
  lemma MockTransferIs(own: Target, encode: string -> Option<KVCache>, c: KVCache)
    ensures var same := c.sourceLayerCount == own.layers && c.sourceNHeads == own.heads && c.sourceHiddenSize == own.heads * own.headDim;
            && (same ==> MockTransfer(own, encode, c) == Moved(c))
            && (!same && encode(c.sourceText).Some? ==> MockTransfer(own, encode, c) == Moved(encode(c.sourceText).value))
            && (!same && encode(c.sourceText).None? ==> MockTransfer(own, encode, c) == Raises)
  {
  }

  /** Both transfer functions of the repository keep the hand-off contract. */
  lemma BackendsKeepText(b: Backend, own: Target, keepMetadata: bool)
    requires forall text :: b.encode(text).Some? ==> b.encode(text).value.sourceText == text
    requires || (forall c :: b.transferCache(c) == MockTransfer(own, b.encode, c))
             || (forall c :: b.transferCache(c) == TensorTransfer(own, keepMetadata, c))
    ensures KeepsText(b)
  {
    forall c | b.transferCache(c).Moved?
      ensures b.transferCache(c).cache.sourceText == c.sourceText
    {
      if b.transferCache(c) == TensorTransfer(own, keepMetadata, c) && c.WellFormed() {
        TransferContents(c, own, keepMetadata);
      }
    }
  }
}
