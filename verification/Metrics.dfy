/** Token cost and the running totals of a pipeline. */
module Metrics {
  import opened Experts

  /** USD rates; `perMParamsPerK` prices a million loaded parameters per thousand tokens. */
  datatype CostModel = CostModel(inputPer1M: real, outputPer1M: real, perMParamsPerK: real)
  {
    function CostFor(inputTokens: nat, outputTokens: nat, paramsM: int, includeParamTax: bool): real {
      var cost := inputTokens as real / 1000000.0 * inputPer1M + outputTokens as real / 1000000.0 * outputPer1M;
      if includeParamTax && paramsM > 0
      then cost + paramsM as real * ((inputTokens + outputTokens) as real / 1000.0) * perMParamsPerK
      else cost
    }
  }

  // ---------- Sums over records ----------

  datatype Totals = Totals(inputTokens: nat, outputTokens: nat, latencyMs: real, paramsM: int,
                           transfers: nat, failures: nat, costUsd: real)

  /** The totals of a list of records: each field summed in order. */
  function TotalsOf(c: CostModel, ms: seq<ExpertMetrics>): Totals {
    if ms == [] then Totals(0, 0, 0.0, 0, 0, 0, 0.0)
    else
      var t, m := TotalsOf(c, ms[..|ms| - 1]), ms[|ms| - 1];
      Totals(t.inputTokens + m.inputTokens, t.outputTokens + m.outputTokens,
             t.latencyMs + (m.latencyMs + m.cacheTransferMs), t.paramsM + m.paramsM,
             t.transfers + (if m.usedKvCache then 1 else 0),
             t.failures + (if m.usedKvCache && !m.cacheTransferSucceeded then 1 else 0),
             t.costUsd + c.CostFor(m.inputTokens, m.outputTokens, m.paramsM, false))
  }

  /** Sum of the parameters of the experts `finalize` is given. */
  function ParamsOf(es: seq<Expert>): int {
    if |es| == 0 then 0 else ParamsOf(es[..|es| - 1]) + es[|es| - 1].backend.paramsM
  }

  // ---------- The aggregate ----------

  class AggregateMetrics {
    const cost: CostModel
    var expertMetrics: seq<ExpertMetrics>
    var totalInputTokens: nat
    var totalOutputTokens: nat
    var totalLatencyMs: real
    var totalParamsInvokedM: int
    var distinctParamsInvokedM: int
    var totalCostUsd: real
    var kvCacheTransfers: nat
    var kvCacheFailures: nat
    var latentNuanceScore: real
    var memoryEntriesRead: nat
    var memoryEntriesWritten: nat

    ghost function Current(): Totals
      reads this
    {
      Totals(totalInputTokens, totalOutputTokens, totalLatencyMs, totalParamsInvokedM,
             kvCacheTransfers, kvCacheFailures, totalCostUsd)
    }

    /** Every total is the sum over the records in order. */
    ghost predicate Valid()
      reads this
    {
      Current() == TotalsOf(cost, expertMetrics)
    }

    constructor (cost: CostModel)
      ensures Valid() && this.cost == cost && expertMetrics == []
      ensures memoryEntriesRead == memoryEntriesWritten == distinctParamsInvokedM == 0
      ensures latentNuanceScore == 0.0
    {
      this.cost := cost;
      expertMetrics, totalInputTokens, totalOutputTokens, totalLatencyMs := [], 0, 0, 0.0;
      totalParamsInvokedM, distinctParamsInvokedM, totalCostUsd := 0, 0, 0.0;
      kvCacheTransfers, kvCacheFailures, latentNuanceScore := 0, 0, 0.0;
      memoryEntriesRead, memoryEntriesWritten := 0, 0;
    }

    method Add(m: ExpertMetrics)
      requires Valid()
      modifies this
      ensures Valid() && expertMetrics == old(expertMetrics) + [m]
      ensures unchanged(`distinctParamsInvokedM, `latentNuanceScore, `memoryEntriesRead, `memoryEntriesWritten)
    {
      assert (expertMetrics + [m])[..|expertMetrics|] == expertMetrics;
      expertMetrics := expertMetrics + [m];
      totalInputTokens := totalInputTokens + m.inputTokens;
      totalOutputTokens := totalOutputTokens + m.outputTokens;
      totalLatencyMs := totalLatencyMs + (m.latencyMs + m.cacheTransferMs);
      totalParamsInvokedM := totalParamsInvokedM + m.paramsM;
      if m.usedKvCache {
        kvCacheTransfers := kvCacheTransfers + 1;
        if !m.cacheTransferSucceeded {
          kvCacheFailures := kvCacheFailures + 1;
        }
      }
      totalCostUsd := totalCostUsd + cost.CostFor(m.inputTokens, m.outputTokens, m.paramsM, false);
    }

    method Finalize(distinctExperts: seq<Expert>)
      requires Valid()
      modifies `distinctParamsInvokedM, `latentNuanceScore
      ensures Valid()
      ensures distinctParamsInvokedM == ParamsOf(distinctExperts)
      ensures latentNuanceScore == NuanceScore(TotalsOf(cost, expertMetrics), old(latentNuanceScore))
    {
      var total := 0;
      for i := 0 to |distinctExperts|
        invariant total == ParamsOf(distinctExperts[..i])
      {
        assert distinctExperts[..i + 1][..i] == distinctExperts[..i];
        total := total + distinctExperts[i].backend.paramsM;
      }
      assert distinctExperts[..|distinctExperts|] == distinctExperts;
      distinctParamsInvokedM := total;

      var used, ok := 0, 0;
      for i := 0 to |expertMetrics|
        invariant used == TotalsOf(cost, expertMetrics[..i]).transfers
        invariant used - ok == TotalsOf(cost, expertMetrics[..i]).failures
      {
        assert expertMetrics[..i + 1][..i] == expertMetrics[..i];
        if expertMetrics[i].usedKvCache {
          used := used + 1;
          if expertMetrics[i].cacheTransferSucceeded {
            ok := ok + 1;
          }
        }
      }
      assert expertMetrics[..|expertMetrics|] == expertMetrics;
      if used > 0 {
        latentNuanceScore := ok as real / used as real;
      }
    }

    function TotalTokens(): nat
      reads this
    {
      totalInputTokens + totalOutputTokens
    }

    function CostPer1MTokens(): real
      reads this
    {
      if TotalTokens() == 0 then 0.0 else totalCostUsd / TotalTokens() as real * 1000000.0
    }

    function Epu(): real
      reads this
    {
      if totalParamsInvokedM == 0 then 0.0 else distinctParamsInvokedM as real / totalParamsInvokedM as real
    }
  }

  /** Share of cache uses that did not fail; `before` if no cache was used. */
  function NuanceScore(t: Totals, before: real): real {
    if t.transfers == 0 then before else (t.transfers - t.failures) as real / t.transfers as real
  }

  // ---------- Consequences ----------

  function Plus(s: Totals, t: Totals): Totals {
    Totals(s.inputTokens + t.inputTokens, s.outputTokens + t.outputTokens, s.latencyMs + t.latencyMs,
           s.paramsM + t.paramsM, s.transfers + t.transfers, s.failures + t.failures, s.costUsd + t.costUsd)
  }

  /** Totals of consecutive stretches of records add up. */
  lemma {:induction false} TotalsAdd(c: CostModel, ms: seq<ExpertMetrics>, ns: seq<ExpertMetrics>)
    ensures TotalsOf(c, ms + ns) == Plus(TotalsOf(c, ms), TotalsOf(c, ns))
  {
    if ns == [] {
      assert ms + ns == ms;
    } else {
      var front, last := ns[..|ns| - 1], ns[|ns| - 1];
      assert ns == front + [last] && ms + ns == ms + front + [last];
      TotalsAdd(c, ms, front);
      TotalsOneMore(c, ms + front, last);
      TotalsOneMore(c, front, last);
      hide TotalsOf;
    }
  }

  lemma TotalsOneMore(c: CostModel, ms: seq<ExpertMetrics>, m: ExpertMetrics)
    ensures TotalsOf(c, ms + [m]) == Plus(TotalsOf(c, ms), TotalsOf(c, [m]))
  {
    assert (ms + [m])[..|ms|] == ms && [m][..0] == [];
    hide CostModel.CostFor;
  }

  /** One record counts in full: its tokens, both its times, its parameters, and a transfer if it used a
      cache, which is a failure as well if that did not succeed. */
  lemma OneRecordCounts(c: CostModel, m: ExpertMetrics)
    ensures var t := TotalsOf(c, [m]);
            && t.inputTokens == m.inputTokens && t.outputTokens == m.outputTokens && t.paramsM == m.paramsM
            && t.latencyMs == m.latencyMs + m.cacheTransferMs
            && (m.usedKvCache ==> t.transfers == 1 && t.failures == if m.cacheTransferSucceeded then 0 else 1)
            && (!m.usedKvCache ==> t.transfers == t.failures == 0)
  {
    assert [m][..0] == [];
  }

  /** A million tokens cost their rate, and the parameter tax is what is paid on top. */
  lemma PriceList(c: CostModel, i: nat, o: nat, p: int)
    ensures c.CostFor(1000000, 0, p, false) == c.inputPer1M && c.CostFor(0, 1000000, p, false) == c.outputPer1M
    ensures c.CostFor(i, o, p, true) - c.CostFor(i, o, p, false)
         == if p > 0 then p as real * ((i + o) as real / 1000.0) * c.perMParamsPerK else 0.0
  {
  }

  /** The nuance score is the share of transfers that did not fail. */
  lemma NuanceIsShare(t: Totals, before: real)
    requires t.failures <= t.transfers
    ensures NuanceScore(t, before) * t.transfers as real == (t.transfers - t.failures) as real
    ensures t.transfers == 0 ==> NuanceScore(t, before) == before
  {
  }

  /** Adding up per-invocation costs gives the cost of the token totals: the price is linear. */
  lemma {:induction false} CostIsLinear(c: CostModel, ms: seq<ExpertMetrics>)
    ensures var t := TotalsOf(c, ms); t.costUsd == c.CostFor(t.inputTokens, t.outputTokens, t.paramsM, false)
  {
    if ms != [] {
      var front, last := TotalsOf(c, ms[..|ms| - 1]), ms[|ms| - 1];
      CostIsLinear(c, ms[..|ms| - 1]);
      CostAdds(c, front.inputTokens, front.outputTokens, front.paramsM, last.inputTokens, last.outputTokens, last.paramsM,
               front.paramsM + last.paramsM);
      hide CostModel.CostFor;
    } else {
      assert c.CostFor(0, 0, 0, false) == 0.0;
    }
  }

  /** Without the parameter tax costs add up, and parameters do not matter. */
  lemma CostAdds(c: CostModel, i: nat, o: nat, p: int, i': nat, o': nat, p': int, q: int)
    ensures c.CostFor(i + i', o + o', q, false) == c.CostFor(i, o, p, false) + c.CostFor(i', o', p', false)
  {
    PriceAdds(i, i', c.inputPer1M);
    PriceAdds(o, o', c.outputPer1M);
  }

  lemma PriceAdds(m: nat, n: nat, rate: real)
    ensures (m + n) as real / 1000000.0 * rate == m as real / 1000000.0 * rate + n as real / 1000000.0 * rate
  {
    assert (m + n) as real / 1000000.0 == m as real / 1000000.0 + n as real / 1000000.0;
  }

  /** Once tokens were counted, the price per million tokens is a weighted mean of the two
      rates, so it never leaves the interval between them. */
  lemma CostPerMillionIsAMean(m: AggregateMetrics)
    requires m.Valid() && m.TotalTokens() > 0
    ensures var lo, hi := m.cost.inputPer1M, m.cost.outputPer1M;
            if lo <= hi then lo <= m.CostPer1MTokens() <= hi else hi <= m.CostPer1MTokens() <= lo
    ensures m.CostPer1MTokens() * m.TotalTokens() as real
         == m.totalInputTokens as real * m.cost.inputPer1M + m.totalOutputTokens as real * m.cost.outputPer1M
  {
    CostIsLinear(m.cost, m.expertMetrics);
    var i, o := m.totalInputTokens as real, m.totalOutputTokens as real;
    var x, y := m.cost.inputPer1M, m.cost.outputPer1M;
    var perM := m.CostPer1MTokens();
    Rescale(m.totalCostUsd, i, o, x, y);
    assert perM * (i + o) == i * x + o * y;
    MeanBounds(i, o, x, y, perM);
  }

  lemma Rescale(cost: real, i: real, o: real, x: real, y: real)
    requires i + o > 0.0
    requires cost == i / 1000000.0 * x + o / 1000000.0 * y
    ensures cost / (i + o) * 1000000.0 * (i + o) == i * x + o * y
  {
    var q := cost / (i + o);
    assert q * (i + o) == cost;
    assert cost * 1000000.0 == i * x + o * y by {
      assert i / 1000000.0 * x * 1000000.0 == i * x;
      assert o / 1000000.0 * y * 1000000.0 == o * y;
    }
    assert q * 1000000.0 * (i + o) == q * (i + o) * 1000000.0;
  }

  lemma MeanBounds(i: real, o: real, x: real, y: real, mean: real)
    requires i >= 0.0 && o >= 0.0 && i + o > 0.0
    requires mean * (i + o) == i * x + o * y
    ensures if x <= y then x <= mean <= y else y <= mean <= x
  {
    Balance(i, o, x, y, mean);
    if x <= y {
      SameSign(i, x - mean, o, y - mean);
    } else {
      SameSign(o, y - mean, i, x - mean);
    }
  }

  /** The mean is where the weighted differences cancel. */
  lemma Balance(i: real, o: real, x: real, y: real, mean: real)
    requires mean * (i + o) == i * x + o * y
    ensures i * (x - mean) + o * (y - mean) == 0.0
  {
    assert i * (x - mean) == i * x - i * mean;
    assert o * (y - mean) == o * y - o * mean;
    assert mean * (i + o) == i * mean + o * mean;
  }

  /** If weighted differences cancel, the smaller is not positive and the larger not negative. */
  lemma SameSign(i: real, d: real, o: real, e: real)
    requires i >= 0.0 && o >= 0.0 && i + o > 0.0 && d <= e
    requires i * d + o * e == 0.0
    ensures d <= 0.0 <= e
  {
    if d > 0.0 {
      Positive(i, d, o, e);
    } else if e < 0.0 {
      assert i * d == -(i * -d) && o * e == -(o * -e);
      Positive(i, -d, o, -e);
    }
  }

  lemma Positive(i: real, d: real, o: real, e: real)
    requires i >= 0.0 && o >= 0.0 && i + o > 0.0 && d > 0.0 && e > 0.0
    ensures i * d + o * e > 0.0
  {
    if i > 0.0 {
      assert i * d > 0.0 && o * e >= 0.0;
    } else {
      assert i * d == 0.0 && o * e > 0.0;
    }
  }

  /** While no record both uses a cache and reports a failed transfer, which is all `invoke`
      produces, nothing is ever counted as failed. */
  lemma {:induction false} NoFailureIsCounted(c: CostModel, ms: seq<ExpertMetrics>)
    requires forall m :: m in ms && m.usedKvCache ==> m.cacheTransferSucceeded
    ensures TotalsOf(c, ms).failures == 0
  {
    if ms != [] {
      NoFailureIsCounted(c, ms[..|ms| - 1]);
      assert ms[|ms| - 1] in ms;
    }
  }

  /** So the nuance score only tells whether any cache was used. */
  lemma NuanceIsAllOrNothing(t: Totals)
    requires t.failures == 0
    ensures NuanceScore(t, 0.0) == if t.transfers > 0 then 1.0 else 0.0
  {
    if t.transfers > 0 {
      QuotientOfItself(t.transfers as real);
    }
  }

  lemma QuotientOfItself(x: real)
    requires x != 0.0
    ensures x / x == 1.0
  {
  }
}
