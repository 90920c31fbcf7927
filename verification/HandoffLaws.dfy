/** How the three phases relate to each other, for every pattern of backend failures. */
module HandoffLaws {
  import opened Experts
  import opened Handoff

  // ---------- Falling back is cascading ----------

  /** The observable trail of a run: what was said, on what it was accounted, and the records. */
  ghost predicate SameTrail(a: RunState, b: RunState) {
    a.text == b.text && a.outputs == b.outputs && a.accounted == b.accounted && a.records == b.records
  }

  ghost predicate SameOutcome(a: Outcome, b: Outcome) {
    && SameTrail(a.state, b.state)
    && (a.Running? <==> b.Running?)
    && (a.Raised? ==> a.error == b.error)
  }

  /** In text mode the rest of a run is a cascade without memory, and the mode stays on. */
  lemma {:induction false} TextModeCascades(p: Phase, s: Settings, g: Garage, names: seq<string>, i: nat,
                                            st: RunState, plain: RunState, ks: nat -> nat)
    requires 0 < i <= |names| && st.textMode && SameTrail(st, plain)
    requires forall j :: i <= j < |names| ==> ks(j) == 0
    ensures SameOutcome(Steps(p, s, g, names, i, st), Cascade(s, g, names, i, plain, ks))
    ensures Steps(p, s, g, names, i, st).state.textMode
    decreases |names| - i
  {
    if i < |names| && names[i] in g {
      var last := i == |names| - 1;
      var step := HandoffStep(s, g[names[i]], i, last, st);
      var step' := CascadeStep(s, g[names[i]], i, last, plain, 0);
      if step.Running? {
        TextModeCascades(p, s, g, names, i + 1, step.state, step'.state, ks);
      }
    }
  }

  /** Where a cache transfer fails, the rest of the run is a memory-less cascade from that expert
      on, started on the previous output. The first attempt, on the text of the cache, must not
      raise: its result is thrown away, but its exception is not. With falling back switched off
      the run ends there. */
  lemma FallbackIsCascade(p: Phase, s: Settings, g: Garage, names: seq<string>, i: nat, st: RunState)
    requires 0 < i < |names| && names[i] in g
    requires !st.textMode && TransferFails(g[names[i]].backend, st.cache)
    ensures var attempt := g[names[i]].backend.generate(st.cache.value.sourceText, Budget(s, i));
            var rest := Steps(p, s, g, names, i, st);
            if attempt.None? then rest == Raised(st, BackendRaised)
            else if !s.fallbackToText then rest == Raised(st, NothingToRaise)
            else SameOutcome(rest, Cascade(s, g, names, i, st, Never())) && (rest.Running? ==> rest.state.textMode)
  {
    var e := g[names[i]];
    var last := i == |names| - 1;
    if e.backend.generate(st.cache.value.sourceText, Budget(s, i)).Some? && s.fallbackToText {
      var step := HandoffStep(s, e, i, last, st);
      var step' := CascadeStep(s, e, i, last, st, 0);
      if step.Running? {
        TextModeCascades(p, s, g, names, i + 1, step.state, step'.state, Never());
      }
    }
  }

  /** The run after its first `j` steps. */
  function After(p: Phase, s: Settings, g: Garage, names: seq<string>, j: nat, st: RunState): Outcome
    requires j <= |names|
  {
    if j == 0 then Running(st)
    else match After(p, s, g, names, j - 1, st)
      case Raised(st', error) => Raised(st', error)
      case Running(st') =>
        if names[j - 1] !in g then Raised(st', UnknownExpert)
        else Step(p, s, g[names[j - 1]], j - 1, j == |names|, st')
  }

  /** A run is its first `j` steps and the steps from there. */
  lemma {:induction false} RunSplits(p: Phase, s: Settings, g: Garage, names: seq<string>, j: nat, st: RunState)
    requires j <= |names| && After(p, s, g, names, j, st).Running?
    ensures Steps(p, s, g, names, 0, st) == Steps(p, s, g, names, j, After(p, s, g, names, j, st).state)
  {
    hide Step;
    if j > 0 {
      RunSplits(p, s, g, names, j - 1, st);
    }
  }

  lemma StepKeepsTextMode(p: Phase, s: Settings, e: Expert, i: nat, last: bool, st: RunState)
    requires i > 0 && st.textMode
    ensures Step(p, s, e, i, last, st).state.textMode
  {
  }

  /** Once the text mode is on, it is on for the rest of the run. */
  lemma {:induction false} TextModeIsSticky(p: Phase, s: Settings, g: Garage, names: seq<string>, j: nat, k: nat, st: RunState)
    requires 0 < j <= k <= |names|
    requires After(p, s, g, names, j, st).Running? && After(p, s, g, names, k, st).Running?
    requires After(p, s, g, names, j, st).state.textMode
    ensures After(p, s, g, names, k, st).state.textMode
  {
    hide Step;
    if j < k {
      TextModeIsSticky(p, s, g, names, j, k - 1, st);
      StepKeepsTextMode(p, s, g[names[k - 1]], k - 1, k == |names|, After(p, s, g, names, k - 1, st).state);
    }
  }

  /** Over a whole run: whichever transfer fails first, at expert `j`, what the run says from there
      on is a memory-less cascade over the remaining experts, opened with the previous output. */
  lemma FailedTransferTurnsRunIntoCascade(p: Phase, s: Settings, g: Garage, names: seq<string>, j: nat, st: RunState)
    requires 0 < j < |names| && names[j] in g && After(p, s, g, names, j, st).Running?
    requires var before := After(p, s, g, names, j, st).state;
             && !before.textMode && TransferFails(g[names[j]].backend, before.cache)
             && g[names[j]].backend.generate(before.cache.value.sourceText, Budget(s, j)).Some?
    ensures var before := After(p, s, g, names, j, st).state;
            if s.fallbackToText
            then SameOutcome(Steps(p, s, g, names, 0, st), Cascade(s, g, names, j, before, Never()))
            else Steps(p, s, g, names, 0, st) == Raised(before, NothingToRaise)
  {
    RunSplits(p, s, g, names, j, st);
    FallbackIsCascade(p, s, g, names, j, After(p, s, g, names, j, st).state);
  }

  /** Cascades depend on the values of the retrieval counts only. */
  lemma {:induction false} SameCounts(s: Settings, g: Garage, names: seq<string>, i: nat, st: RunState,
                                      ks: nat -> nat, ks': nat -> nat)
    requires i <= |names|
    requires forall j :: i <= j < |names| ==> ks(j) == ks'(j)
    ensures Cascade(s, g, names, i, st, ks) == Cascade(s, g, names, i, st, ks')
    decreases |names| - i
  {
    if i < |names| && names[i] in g {
      var step := CascadeStep(s, g[names[i]], i, i == |names| - 1, st, ks(i));
      if step.Running? {
        SameCounts(s, g, names, i + 1, step.state, ks, ks');
      }
    }
  }

  /** A first expert that cannot make a cache of the prompt makes phase 2 a cascade without
      memory, whatever the retrieval count; a garage without caches is the plainest case. */
  lemma NoFirstCacheIsCascade(s: Settings, g: Garage, names: seq<string>, prompt: string, memory: seq<MemoryNote>)
    requires names != [] && names[0] in g
    requires var b := g[names[0]].backend; b.supportsKvCache ==> b.encode(prompt).None?
    ensures SameOutcome(Phase2(s, g, names, prompt, memory),
                        Phase1(s.(retrieveK := 0), g, names, prompt, memory))
  {
    var plain := s.(retrieveK := 0);
    var st := Start(s, prompt, memory, false);
    var last := |names| == 1;
    var step := FirstStep2(s, g[names[0]], last, st);
    var step' := CascadeStep(plain, g[names[0]], 0, last, st, 0);
    if step.Running? {
      TextModeCascades(KVPass, s, g, names, 1, step.state, step'.state, Never());
      OtherCount(s, plain, g, names, 1, step'.state, Never(), Always(plain.retrieveK));
    }
  }

  /** The same for settings that differ in the retrieval count alone. */
  lemma {:induction false} OtherCount(s: Settings, s': Settings, g: Garage, names: seq<string>, i: nat, st: RunState,
                                      ks: nat -> nat, ks': nat -> nat)
    requires i <= |names| && s' == s.(retrieveK := s'.retrieveK)
    requires forall j :: i <= j < |names| ==> ks(j) == ks'(j) == 0
    ensures Cascade(s, g, names, i, st, ks) == Cascade(s', g, names, i, st, ks')
    decreases |names| - i
  {
    if i < |names| && names[i] in g {
      var step := CascadeStep(s, g[names[i]], i, i == |names| - 1, st, 0);
      if step.Running? {
        OtherCount(s, s', g, names, i + 1, step.state, ks, ks');
      }
    }
  }

  // ---------- Phase 3 against phases 1 and 2 ----------

  /** Text hand-off in phase 3 is the cascade that consults memory for the first expert only;
      without memory it is phase 1. */
  lemma Phase3OnTextIsCascade(s: Settings, g: Garage, names: seq<string>, prompt: string, memory: seq<MemoryNote>)
    ensures SameOutcome(Phase3(s, g, names, true, prompt, memory),
                        Cascade(s, g, names, 0, Start(s, prompt, memory, false), FirstOnly(s.retrieveK)))
    ensures s.retrieveK == 0 || |names| <= 1 ==>
              SameOutcome(Phase3(s, g, names, true, prompt, memory), Phase1(s, g, names, prompt, memory))
  {
    var ks := FirstOnly(s.retrieveK);
    var st := Start(s, prompt, memory, false);
    if names != [] && names[0] in g {
      var last := |names| == 1;
      var step := FirstStep3(s, g[names[0]], last, Start(s, prompt, memory, true));
      var step' := CascadeStep(s, g[names[0]], 0, last, st, s.retrieveK);
      if step.Running? {
        TextModeCascades(Routing, s, g, names, 1, step.state, step'.state, ks);
      }
    }
    assert SameOutcome(Phase3(s, g, names, true, prompt, memory), Cascade(s, g, names, 0, st, ks));
    if s.retrieveK == 0 || |names| <= 1 {
      SameCounts(s, g, names, 0, st, ks, Always(s.retrieveK));
    }
  }

  /** Memory adds nothing to the prompt, or the first expert can encode it with and without. */
  predicate FirstAgrees(s: Settings, e: Expert, st: RunState) {
    var augmented := Augmented(s, st.memory, st.text, s.retrieveK);
    || augmented == st.text
    || (e.backend.supportsKvCache && e.backend.encode(st.text).Some? && e.backend.encode(augmented).Some?)
  }

  /** Phases 2 and 3 give their first expert the same thing under exactly this condition. */
  lemma FirstRequestsAgreeIff(s: Settings, e: Expert, st: RunState)
    requires !st.textMode
    ensures FirstRequest2(s, e, st) == FirstRequest3(s, e, st) <==> FirstAgrees(s, e, st)
  {
  }

  /** The one difference left: phase 3 recovers where the first expert raises on its own cache. */
  predicate FirstCacheRaises(s: Settings, e: Expert, st: RunState) {
    match FirstRequest2(s, e, st)
    case OnText(_) => false
    case OnCache(c) => InvokedOnCache(s, e, 0, c).Err?
  }

  /** Phase 3 with cache hand-off is phase 2 on the routed sequence, state for state, in every
      run in which the first requests agree and the first expert does not raise on its cache.
      Where it does raise, phase 2 gives up, and phase 3 goes on as a cascade that consulted
      memory once. */
  lemma Phase3RefinesPhase2(s: Settings, g: Garage, names: seq<string>, prompt: string, memory: seq<MemoryNote>)
    requires names != [] && names[0] in g
    requires FirstAgrees(s, g[names[0]], Start(s, prompt, memory, false))
    ensures var e, st := g[names[0]], Start(s, prompt, memory, false);
            var two, three := Phase2(s, g, names, prompt, memory), Phase3(s, g, names, false, prompt, memory);
            if FirstCacheRaises(s, e, st)
            then && two == Raised(st, BackendRaised)
                 && SameOutcome(three, Cascade(s, g, names, 0, st, FirstOnly(s.retrieveK)))
            else three == two
  {
    var e, st := g[names[0]], Start(s, prompt, memory, false);
    var last := |names| == 1;
    FirstRequestsAgreeIff(s, e, st);
    AugmentedOnlyByNotes(s, st.memory, st.text, s.retrieveK);
    if FirstCacheRaises(s, e, st) {
      var ks := FirstOnly(s.retrieveK);
      var step := FirstStep3(s, e, last, st);
      var step' := CascadeStep(s, e, 0, last, st, s.retrieveK);
      if step.Running? {
        TextModeCascades(Routing, s, g, names, 1, step.state, step'.state, ks);
      }
    } else if FirstStep2(s, e, last, st).Running? {
      LaterStepsAgree(KVPass, Routing, s, g, names, 1, FirstStep2(s, e, last, st).state);
    }
  }

  /** Retrieved notes always lengthen the prompt. */
  lemma AugmentedOnlyByNotes(s: Settings, memory: seq<MemoryNote>, prompt: string, k: nat)
    ensures Augmented(s, memory, prompt, k) == prompt <==> Retrieved(s, memory, prompt, k) == []
  {
    if Retrieved(s, memory, prompt, k) != [] {
      assert |Augmented(s, memory, prompt, k)| > |prompt|;
    }
  }
}
