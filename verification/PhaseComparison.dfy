/** Exactly when phase 3 with cache hand-off and phase 2 show the same run. */
module PhaseComparison {
  import opened Wrappers
  import opened Experts
  import opened Handoff
  import opened HandoffLaws
  import opened HandoffAccounts

  /** The prompt the first expert is accounted on. */
  function Opening(r: Request): string {
    match r
    case OnText(text) => text
    case OnCache(c) => c.sourceText
  }

  /** The first steps account the first expert on what they request; phase 3 does so even where it has to
      repeat the request as text. */
  lemma FirstStepsAccount(s: Settings, e: Expert, last: bool, st: RunState)
    requires KeepsText(e.backend) && !st.textMode && st.accounted == []
    ensures var two := FirstStep2(s, e, last, st);
            two.Running? ==> two.state.accounted == [Opening(FirstRequest2(s, e, st))]
    ensures var three := FirstStep3(s, e, last, st);
            three.Running? ==> three.state.accounted == [Augmented(s, st.memory, st.text, s.retrieveK)]
  {
    forall text { InvocationCouples(e, Some(text), None, Budget(s, 0), s.clock(0)); }
    forall c { InvocationCouples(e, None, Some(c), Budget(s, 0), s.clock(0)); }
  }

  /** A run that got past its first step keeps what it accounted there. */
  lemma OpeningStays(p: Phase, s: Settings, g: Garage, names: seq<string>, st: RunState)
    requires names != [] && names[0] in g
    ensures var step := Step(p, s, g[names[0]], 0, |names| == 1, st);
            if step.Running? then step.state.accounted <= Steps(p, s, g, names, 0, st).state.accounted
            else Steps(p, s, g, names, 0, st) == step
  {
    var step := Step(p, s, g[names[0]], 0, |names| == 1, st);
    if step.Running? {
      AccountedGrows(p, s, g, names, 1, step.state);
    }
  }

  /** Disagreeing first requests account the first expert on different prompts. */
  lemma DisagreeingOpenings(s: Settings, e: Expert, st: RunState)
    requires KeepsText(e.backend) && !FirstAgrees(s, e, st)
    ensures Opening(FirstRequest2(s, e, st)) == st.text != Augmented(s, st.memory, st.text, s.retrieveK)
  {
  }

  /** Where the first expert of phase 2 answers, the two runs show the same if and only if the first
      requests agree; where it raises, if and only if phase 3's raises as well. */
  lemma PhasesCoincideIff(s: Settings, g: Garage, names: seq<string>, prompt: string, memory: seq<MemoryNote>)
    requires names != [] && names[0] in g && AllKeepText(g)
    ensures var e, st, last := g[names[0]], Start(s, prompt, memory, false), |names| == 1;
            SameOutcome(Phase2(s, g, names, prompt, memory), Phase3(s, g, names, false, prompt, memory))
            <==> if FirstStep2(s, e, last, st).Running? then FirstAgrees(s, e, st)
                 else FirstStep3(s, e, last, st).Raised?
  {
    var e, st, last := g[names[0]], Start(s, prompt, memory, false), |names| == 1;
    FirstStepsAccount(s, e, last, st);
    FirstStepsAppend(s, e, last, st);
    OpeningStays(KVPass, s, g, names, st);
    OpeningStays(Routing, s, g, names, st);
    if FirstAgrees(s, e, st) {
      FirstRaises(s, e, last, st);
      Phase3RefinesPhase2(s, g, names, prompt, memory);
    } else {
      DisagreeingOpenings(s, e, st);
      FirstRaises(s, e, last, st);
    }
    hide Step, Steps, FirstStep2, FirstStep3, FirstRequest2, FirstAgrees, Augmented;
  }

  /** A first step can only raise what a backend raised, and leaves no trail. */
  lemma FirstRaises(s: Settings, e: Expert, last: bool, st: RunState)
    ensures var two := FirstStep2(s, e, last, st);
            && (two.Raised? ==> two == Raised(st, BackendRaised))
            && (two.Raised? <==> FirstCacheRaises(s, e, st)
                                 || (FirstRequest2(s, e, st).OnText? && e.backend.generate(st.text, Budget(s, 0)).None?))
    ensures var three := FirstStep3(s, e, last, st); three.Raised? ==> three == Raised(st, BackendRaised)
  {
  }

  // ---------- A run they show differently ----------

  function Echo(): Expert {
    Expert("echo", Synthesizer, Backend(false, 0, (text, _) => Some(text), _ => None, (_, _) => None, _ => Raises, _ => None))
  }

  /** One note is always retrieved. */
  function OneNote(): Settings {
    Settings(256, None, false, true, 1, (_, _, _) => [MemoryNote("note", "user", "user", 1.0)],
             _ => Timing(0.0, 0.0))
  }

  /** A text-only first expert gets the retrieved note in phase 3 and not in phase 2. */
  lemma PhasesCanDiffer(prompt: string)
    ensures var g := map["echo" := Echo()];
            && AllKeepText(g)
            && !SameOutcome(Phase2(OneNote(), g, ["echo"], prompt, []), Phase3(OneNote(), g, ["echo"], false, prompt, []))
  {
    var g, s := map["echo" := Echo()], OneNote();
    var st := Start(s, prompt, [], false);
    AugmentedOnlyByNotes(s, st.memory, prompt, 1);
    assert g["echo"] == Echo() && FirstStep2(s, Echo(), true, st).Running?;
    PhasesCoincideIff(s, g, ["echo"], prompt, []);
  }
}
