/** What every run keeps: the two hand-off channels tell the same story, and each record
    belongs to the expert, prompt and output of its step. */
module HandoffAccounts {
  import opened Wrappers
  import opened KvCaches
  import opened Experts
  import opened Metrics
  import opened Handoff

  // ---------- Records ----------

  /** Record `m` is what running `e` on `accounted` with answer `output` must leave behind. */
  ghost predicate RecordFits(e: Expert, m: ExpertMetrics, accounted: string, output: string) {
    && m.expertName == e.name && m.role == e.role && m.paramsM == e.backend.paramsM
    && (m.inputTokens, m.outputTokens) == TokenCounts(e.backend, accounted, output)
    && (m.usedKvCache ==> m.cacheTransferSucceeded && e.backend.supportsKvCache)
  }

  /** After `n` steps there is one output, one accounted prompt and one fitting record for each. */
  ghost predicate Explained(g: Garage, names: seq<string>, n: nat, st: RunState) {
    && n <= |names|
    && |st.outputs| == |st.accounted| == |st.records| == n
    && (forall k :: 0 <= k < n ==>
          names[k] in g && RecordFits(g[names[k]], st.records[k], st.accounted[k], st.outputs[k]))
  }

  /** A broken-off run is explained as far as it got, a finished one to the end. */
  ghost predicate ExplainedOutcome(g: Garage, names: seq<string>, r: Outcome) {
    Explained(g, names, |r.state.records|, r.state) && (r.Running? ==> |r.state.records| == |names|)
  }

  /** `st'` is `st` with one more step by `e`. */
  ghost predicate Appended(e: Expert, st: RunState, st': RunState) {
    && |st'.accounted| > 0 && |st'.records| > 0
    && st'.outputs == st.outputs + [st'.text]
    && st'.accounted == st.accounted + [st'.accounted[|st'.accounted| - 1]]
    && st'.records == st.records + [st'.records[|st'.records| - 1]]
    && RecordFits(e, st'.records[|st'.records| - 1], st'.accounted[|st'.accounted| - 1], st'.text)
  }

  lemma InvocationFits(e: Expert, prompt: Option<string>, cache: Option<KVCache>, budget: int, t: Timing)
    ensures var r := Invoked(e, prompt, cache, budget, t);
            r.Ok? ==> RecordFits(e, r.value.metrics, r.value.accounted, r.value.output)
  {
  }

  lemma CascadeStepAppends(s: Settings, e: Expert, i: nat, last: bool, st: RunState, k: nat)
    ensures var r := CascadeStep(s, e, i, last, st, k);
            if r.Running? then Appended(e, st, r.state) else r.state == st
  {
    InvocationFits(e, Some(Augmented(s, st.memory, st.text, k)), None, Budget(s, i), s.clock(i));
  }

  lemma HandoffStepAppends(s: Settings, e: Expert, i: nat, last: bool, st: RunState)
    ensures var r := HandoffStep(s, e, i, last, st);
            if r.Running? then Appended(e, st, r.state) else r.state == st
  {
    InvocationFits(e, Some(st.text), None, Budget(s, i), s.clock(i));
    InvocationFits(e, None, st.cache, Budget(s, i), s.clock(i));
  }

  lemma FirstStepsAppend(s: Settings, e: Expert, last: bool, st: RunState)
    ensures var two := FirstStep2(s, e, last, st);
            if two.Running? then Appended(e, st, two.state) else two.state == st
    ensures var three := FirstStep3(s, e, last, st);
            if three.Running? then Appended(e, st, three.state) else three.state == st
  {
    FirstStep2Appends(s, e, last, st);
    FirstStep3Appends(s, e, last, st);
  }

  lemma FirstStep2Appends(s: Settings, e: Expert, last: bool, st: RunState)
    ensures var r := FirstStep2(s, e, last, st);
            if r.Running? then Appended(e, st, r.state) else r.state == st
  {
    match FirstRequest2(s, e, st)
    case OnText(text) => InvocationFits(e, Some(text), None, Budget(s, 0), s.clock(0));
    case OnCache(c) => InvocationFits(e, None, Some(c), Budget(s, 0), s.clock(0));
  }

  lemma FirstStep3Appends(s: Settings, e: Expert, last: bool, st: RunState)
    ensures var r := FirstStep3(s, e, last, st);
            if r.Running? then Appended(e, st, r.state) else r.state == st
  {
    InvocationFits(e, Some(Augmented(s, st.memory, st.text, s.retrieveK)), None, Budget(s, 0), s.clock(0));
    match FirstRequest3(s, e, st)
    case OnText(_) =>
    case OnCache(c) => InvocationFits(e, None, Some(c), Budget(s, 0), s.clock(0));
  }

  lemma AppendedExplained(g: Garage, names: seq<string>, n: nat, st: RunState, st': RunState)
    requires Explained(g, names, n, st) && n < |names| && names[n] in g && Appended(g[names[n]], st, st')
    ensures Explained(g, names, n + 1, st')
  {
  }

  lemma {:induction false} CascadeExplained(s: Settings, g: Garage, names: seq<string>, i: nat, st: RunState, ks: nat -> nat)
    requires i <= |names| && Explained(g, names, i, st)
    ensures ExplainedOutcome(g, names, Cascade(s, g, names, i, st, ks))
    decreases |names| - i
  {
    if i < |names| && names[i] in g {
      var step := CascadeStep(s, g[names[i]], i, i == |names| - 1, st, ks(i));
      CascadeStepAppends(s, g[names[i]], i, i == |names| - 1, st, ks(i));
      if step.Running? {
        AppendedExplained(g, names, i, st, step.state);
        CascadeExplained(s, g, names, i + 1, step.state, ks);
      }
    }
  }

  lemma {:induction false} StepsExplained(p: Phase, s: Settings, g: Garage, names: seq<string>, i: nat, st: RunState)
    requires 0 < i <= |names| && Explained(g, names, i, st)
    ensures ExplainedOutcome(g, names, Steps(p, s, g, names, i, st))
    decreases |names| - i
  {
    if i < |names| && names[i] in g {
      var step := HandoffStep(s, g[names[i]], i, i == |names| - 1, st);
      HandoffStepAppends(s, g[names[i]], i, i == |names| - 1, st);
      if step.Running? {
        AppendedExplained(g, names, i, st, step.state);
        StepsExplained(p, s, g, names, i + 1, step.state);
      }
    }
  }

  /** Every phase, finished or broken off, leaves one fitting record for each step it took. */
  lemma PhasesExplained(s: Settings, g: Garage, names: seq<string>, textHandoff: bool, prompt: string, memory: seq<MemoryNote>)
    ensures ExplainedOutcome(g, names, Phase1(s, g, names, prompt, memory))
    ensures ExplainedOutcome(g, names, Phase2(s, g, names, prompt, memory))
    ensures ExplainedOutcome(g, names, Phase3(s, g, names, textHandoff, prompt, memory))
  {
    CascadeExplained(s, g, names, 0, Start(s, prompt, memory, false), Always(s.retrieveK));
    if names != [] && names[0] in g {
      FirstStepExplained(KVPass, s, g, names, Start(s, prompt, memory, false));
      FirstStepExplained(Routing, s, g, names, Start(s, prompt, memory, textHandoff));
    }
  }

  lemma FirstStepExplained(p: Phase, s: Settings, g: Garage, names: seq<string>, st: RunState)
    requires names != [] && names[0] in g && Explained(g, names, 0, st)
    ensures ExplainedOutcome(g, names, Steps(p, s, g, names, 0, st))
  {
    var e, last := g[names[0]], |names| == 1;
    FirstStepsAppend(s, e, last, st);
    var step := Step(p, s, e, 0, last, st);
    if step.Running? {
      AppendedExplained(g, names, 0, st, step.state);
      StepsExplained(p, s, g, names, 1, step.state);
    }
  }

  /** The experts a finished run invoked, in order and with repeats. */
  function InvokedExperts(g: Garage, names: seq<string>): seq<Expert>
    requires forall n :: n in names ==> n in g
  {
    seq(|names|, i requires 0 <= i < |names| => g[names[i]])
  }

  /** Since the sequence is summed with its repeats, the "distinct" parameters of a finished run
      are the invoked ones, no cache failure was counted, and the nuance score is 0 or 1. */
  lemma FinishedRunTotals(c: CostModel, g: Garage, names: seq<string>, st: RunState)
    requires Explained(g, names, |names|, st)
    ensures forall n :: n in names ==> n in g
    ensures var t := TotalsOf(c, st.records);
            && ParamsOf(InvokedExperts(g, names)) == t.paramsM
            && t.failures == 0
            && NuanceScore(t, 0.0) == if t.transfers > 0 then 1.0 else 0.0
  {
    assert forall n :: n in names ==> exists k :: 0 <= k < |names| && names[k] == n;
    SumsAgree(c, InvokedExperts(g, names), st.records);
    NoFailureIsCounted(c, st.records);
    NuanceIsAllOrNothing(TotalsOf(c, st.records));
  }

  lemma {:induction false} SumsAgree(c: CostModel, es: seq<Expert>, ms: seq<ExpertMetrics>)
    requires |es| == |ms| && forall k :: 0 <= k < |es| ==> ms[k].paramsM == es[k].backend.paramsM
    ensures ParamsOf(es) == TotalsOf(c, ms).paramsM
  {
    if |es| > 0 {
      SumsAgree(c, es[..|es| - 1], ms[..|ms| - 1]);
    }
  }

  // ---------- Channels ----------

  ghost predicate AllKeepText(g: Garage) {
    forall n :: n in g ==> KeepsText(g[n].backend)
  }

  /** A cache in hand stands for the last accounted prompt, a newline and the current text. */
  ghost predicate CacheMatchesText(st: RunState) {
    && st.accounted != []
    && (st.cache.Some? ==> st.cache.value.sourceText == st.accounted[|st.accounted| - 1] + "\n" + st.text)
  }

  /** Step `k` was accounted either on the text before it, or on the whole conversation that the
      cache before it stands for; the latter whenever a cache was used. */
  ghost predicate OneStory(st: RunState, k: nat)
    requires 0 < k < |st.outputs| && |st.outputs| == |st.accounted| == |st.records|
  {
    var before := st.accounted[k - 1] + "\n" + st.outputs[k - 1];
    && (st.accounted[k] == before || st.accounted[k] == st.outputs[k - 1])
    && (st.records[k].usedKvCache ==> st.accounted[k] == before)
  }

  /** The invariant of the cache hand-off. */
  ghost predicate Coupled(st: RunState) {
    && |st.outputs| == |st.accounted| == |st.records| > 0
    && st.text == st.outputs[|st.outputs| - 1]
    && CacheMatchesText(st)
    && (forall k {:trigger OneStory(st, k)} :: 0 < k < |st.outputs| ==> OneStory(st, k))
  }

  /** What one invocation does to the two channels. */
  lemma InvocationCouples(e: Expert, prompt: Option<string>, cache: Option<KVCache>, budget: int, t: Timing)
    requires KeepsText(e.backend)
    ensures var r := Invoked(e, prompt, cache, budget, t);
            r.Ok? ==>
              && (r.value.cache.Some? ==>
                    r.value.cache.value.sourceText == r.value.accounted + "\n" + r.value.output)
              && (cache.Some? ==> r.value.accounted == cache.value.sourceText)
              && (cache.None? ==> r.value.accounted == prompt.GetOr("") && !r.value.metrics.usedKvCache)
  {
  }

  lemma StepKeepsCoupled(s: Settings, e: Expert, i: nat, last: bool, st: RunState)
    requires KeepsText(e.backend) && Coupled(st)
    ensures var r := HandoffStep(s, e, i, last, st); r.Running? ==> Coupled(r.state)
  {
    var r := HandoffStep(s, e, i, last, st);
    HandoffStepAppends(s, e, i, last, st);
    InvocationCouples(e, Some(st.text), None, Budget(s, i), s.clock(i));
    InvocationCouples(e, None, st.cache, Budget(s, i), s.clock(i));
    if r.Running? {
      assert OneStory(r.state, |st.outputs|);
      forall k | 0 < k < |st.outputs|
        ensures OneStory(r.state, k)
      {
        assert OneStory(st, k);
      }
    }
  }

  lemma {:induction false} StepsKeepCoupled(p: Phase, s: Settings, g: Garage, names: seq<string>, i: nat, st: RunState)
    requires 0 < i <= |names| && AllKeepText(g) && Coupled(st)
    ensures Coupled(Steps(p, s, g, names, i, st).state)
    decreases |names| - i
  {
    if i < |names| && names[i] in g {
      var step := HandoffStep(s, g[names[i]], i, i == |names| - 1, st);
      StepKeepsCoupled(s, g[names[i]], i, i == |names| - 1, st);
      HandoffStepAppends(s, g[names[i]], i, i == |names| - 1, st);
      if step.Running? {
        StepsKeepCoupled(p, s, g, names, i + 1, step.state);
      }
    }
  }

  lemma FirstStepsCouple(s: Settings, e: Expert, last: bool, st: RunState)
    requires KeepsText(e.backend) && st.outputs == st.accounted == [] && st.records == []
    ensures var two := FirstStep2(s, e, last, st); two.Running? ==> Coupled(two.state)
    ensures var three := FirstStep3(s, e, last, st); three.Running? ==> Coupled(three.state)
  {
    FirstStepsAppend(s, e, last, st);
    forall text { InvocationCouples(e, Some(text), None, Budget(s, 0), s.clock(0)); }
    forall c { InvocationCouples(e, None, Some(c), Budget(s, 0), s.clock(0)); }
  }

  /** In phases 2 and 3 the text channel and the cache channel never diverge. */
  lemma ChannelsNeverDiverge(s: Settings, g: Garage, names: seq<string>, textHandoff: bool, prompt: string, memory: seq<MemoryNote>)
    requires AllKeepText(g)
    ensures var two := Phase2(s, g, names, prompt, memory).state; two.outputs == [] || Coupled(two)
    ensures var three := Phase3(s, g, names, textHandoff, prompt, memory).state; three.outputs == [] || Coupled(three)
  {
    if names != [] && names[0] in g {
      var e := g[names[0]];
      var st2, st3 := Start(s, prompt, memory, false), Start(s, prompt, memory, textHandoff);
      FirstStepsAppend(s, e, |names| == 1, st2);
      FirstStepsAppend(s, e, |names| == 1, st3);
      FirstStepsCouple(s, e, |names| == 1, st2);
      FirstStepsCouple(s, e, |names| == 1, st3);
      if FirstStep2(s, e, |names| == 1, st2).Running? {
        StepsKeepCoupled(KVPass, s, g, names, 1, FirstStep2(s, e, |names| == 1, st2).state);
      }
      if FirstStep3(s, e, |names| == 1, st3).Running? {
        StepsKeepCoupled(Routing, s, g, names, 1, FirstStep3(s, e, |names| == 1, st3).state);
      }
    }
  }

  /** A prompt followed by answers, one to a line. */
  function Transcript(prompt: string, outputs: seq<string>): string {
    if outputs == [] then prompt
    else Transcript(prompt, outputs[..|outputs| - 1]) + "\n" + outputs[|outputs| - 1]
  }

  /** If every expert used the cache, expert `k` is accounted on the opening prompt and all
      answers before its own. */
  lemma {:induction false} AllCachedIsTranscript(st: RunState, k: nat)
    requires Coupled(st) && k < |st.outputs|
    requires forall m :: m in st.records ==> m.usedKvCache
    ensures st.accounted[k] == Transcript(st.accounted[0], st.outputs[..k])
  {
    if k > 0 {
      AllCachedIsTranscript(st, k - 1);
      assert OneStory(st, k) && st.records[k] in st.records;
      assert st.outputs[..k][..k - 1] == st.outputs[..k - 1];
    }
  }

  /** The same for a whole run of phase 2 without memory, whose opening prompt is the user's. */
  lemma AllCachedRun(s: Settings, g: Garage, names: seq<string>, prompt: string, memory: seq<MemoryNote>, k: nat)
    requires AllKeepText(g) && s.retrieveK == 0
    requires var r := Phase2(s, g, names, prompt, memory).state;
             k < |r.outputs| && forall m :: m in r.records ==> m.usedKvCache
    ensures var r := Phase2(s, g, names, prompt, memory).state;
            && ExplainedOutcome(g, names, Phase2(s, g, names, prompt, memory))
            && r.accounted[k] == Transcript(prompt, r.outputs[..k])
            && r.records[k].inputTokens
               == TokenCounts(g[names[k]].backend, Transcript(prompt, r.outputs[..k]), r.outputs[k]).0
  {
    var r := Phase2(s, g, names, prompt, memory).state;
    ChannelsNeverDiverge(s, g, names, false, prompt, memory);
    PhasesExplained(s, g, names, false, prompt, memory);
    AllCachedIsTranscript(r, k);
    FirstAccounted(s, g, names, prompt, memory);
  }

  /** Without memory phase 2 opens with the user's prompt, as text or as a cache of it. */
  lemma FirstAccounted(s: Settings, g: Garage, names: seq<string>, prompt: string, memory: seq<MemoryNote>)
    requires AllKeepText(g) && s.retrieveK == 0
    requires Phase2(s, g, names, prompt, memory).state.outputs != []
    ensures [prompt] <= Phase2(s, g, names, prompt, memory).state.accounted
  {
    var e, st := g[names[0]], Start(s, prompt, memory, false);
    assert KeepsText(e.backend);
    var step := FirstStep2(s, e, |names| == 1, st);
    InvocationCouples(e, Some(prompt), None, Budget(s, 0), s.clock(0));
    forall c { InvocationCouples(e, None, Some(c), Budget(s, 0), s.clock(0)); }
    assert step.state.accounted == [prompt];
    AccountedGrows(KVPass, s, g, names, 1, step.state);
  }

  /** A run never rewrites what it has accounted. */
  lemma {:induction false} AccountedGrows(p: Phase, s: Settings, g: Garage, names: seq<string>, i: nat, st: RunState)
    requires 0 < i <= |names|
    ensures st.accounted <= Steps(p, s, g, names, i, st).state.accounted
    decreases |names| - i
  {
    if i < |names| && names[i] in g {
      HandoffStepAppends(s, g[names[i]], i, i == |names| - 1, st);
      var step := HandoffStep(s, g[names[i]], i, i == |names| - 1, st);
      if step.Running? {
        AccountedGrows(p, s, g, names, i + 1, step.state);
      }
    }
  }
}
