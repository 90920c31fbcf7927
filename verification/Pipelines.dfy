/** The three pipelines as objects: loops that reassign text, cache, mode and metrics, each
    proved to compute what Handoff says. */
module Pipelines {
  import opened Wrappers
  import opened KvCaches
  import opened Experts
  import opened Metrics
  import opened Handoff
  import opened HandoffAccounts

  datatype ConfigError = NoExperts | UnknownNames(names: seq<string>)

  /** Experts by name; of two with the same name the later one is kept. */
  function GarageOf(experts: seq<Expert>): Garage {
    if |experts| == 0 then map[]
    else
      var last := experts[|experts| - 1];
      GarageOf(experts[..|experts| - 1])[last.name := last]
  }

  function Names(experts: seq<Expert>): seq<string> {
    seq(|experts|, i requires 0 <= i < |experts| => experts[i].name)
  }

  function Missing(g: Garage, names: seq<string>): seq<string> {
    if names == [] then []
    else (if names[0] in g then [] else [names[0]]) + Missing(g, names[1..])
  }

  /** The configured sequence, by default every expert in order, if all its names are known. */
  function ResolveSequence(experts: seq<Expert>, names: seq<string>): Result<seq<string>, ConfigError> {
    var wanted := if names == [] then Names(experts) else names;
    if |experts| == 0 then Err(NoExperts)
    else if Missing(GarageOf(experts), wanted) != [] then Err(UnknownNames(Missing(GarageOf(experts), wanted)))
    else Ok(wanted)
  }

  lemma {:induction false} MissingIsUnknown(g: Garage, names: seq<string>)
    ensures Missing(g, names) == [] <==> forall n :: n in names ==> n in g
  {
    if names != [] {
      MissingIsUnknown(g, names[1..]);
      assert names == [names[0]] + names[1..];
    }
  }

  lemma {:induction false} GarageHoldsNames(experts: seq<Expert>)
    ensures forall i :: 0 <= i < |experts| ==> experts[i].name in GarageOf(experts)
    ensures forall n :: n in GarageOf(experts) ==>
              exists i :: 0 <= i < |experts| && experts[i] == GarageOf(experts)[n] && experts[i].name == n
  {
    if |experts| > 0 {
      GarageHoldsNames(experts[..|experts| - 1]);
    }
  }

  /** Under a name stands the last expert that has it. */
  lemma {:induction false} LastOfNameIsKept(experts: seq<Expert>, n: string)
    requires n in GarageOf(experts)
    ensures exists i :: 0 <= i < |experts| && experts[i] == GarageOf(experts)[n] && experts[i].name == n
                   && forall j :: i < j < |experts| ==> experts[j].name != n
  {
    var k := |experts| - 1;
    if experts[k].name != n {
      LastOfNameIsKept(experts[..k], n);
      var i :| 0 <= i < k && experts[..k][i] == GarageOf(experts[..k])[n] && experts[..k][i].name == n
               && forall j :: i < j < k ==> experts[..k][j].name != n;
      assert experts[i] == GarageOf(experts)[n];
      forall j | i < j < |experts|
        ensures experts[j].name != n
      {
        if j < k {
          assert experts[j] == experts[..k][j];
        }
      }
    }
  }

  /** What a sequence is rejected for are exactly its unknown names. */
  lemma {:induction false} MissingAre(g: Garage, names: seq<string>, n: string)
    ensures multiset(Missing(g, names))[n] == if n in g then 0 else multiset(names)[n]
  {
    if names != [] {
      MissingAre(g, names[1..], n);
      assert names == [names[0]] + names[1..];
      assert multiset(names) == multiset{names[0]} + multiset(names[1..]);
    }
  }

  /** A resolved sequence is never empty and names only known experts; the default one always resolves. */
  lemma SequenceResolves(experts: seq<Expert>, names: seq<string>)
    ensures var r := ResolveSequence(experts, names);
            && (r.Ok? ==> r.value != [] && forall n :: n in r.value ==> n in GarageOf(experts))
            && (names == [] && |experts| > 0 ==>
                  r.Ok? && |r.value| == |experts| && forall i :: 0 <= i < |experts| ==> r.value[i] == experts[i].name)
            && (names != [] && r.Ok? ==> r.value == names)
            && (r == Err(NoExperts) <==> |experts| == 0)
  {
    MissingIsUnknown(GarageOf(experts), if names == [] then Names(experts) else names);
    GarageHoldsNames(experts);
  }

  // ---------- Results ----------

  datatype PipelineResult = PipelineResult(
    output: string,
    metrics: AggregateMetrics,
    perExpert: seq<ExpertMetrics>,
    selectedExperts: seq<string>,
    textModeFallback: bool)

  /** The result tells the run: its last text, its records, and totals over exactly those records. */
  ghost predicate Reports(p: PipelineResult, g: Garage, names: seq<string>, st: RunState)
    reads p.metrics
  {
    && p.output == st.text && p.perExpert == st.records && p.selectedExperts == names
    && p.textModeFallback == st.textMode
    && p.metrics.Valid() && p.metrics.expertMetrics == st.records
    && p.metrics.memoryEntriesRead == st.read && p.metrics.memoryEntriesWritten == st.written
    && p.metrics.kvCacheFailures == 0
    && p.metrics.distinctParamsInvokedM == p.metrics.totalParamsInvokedM
    && p.metrics.latentNuanceScore == (if p.metrics.kvCacheTransfers > 0 then 1.0 else 0.0)
  }

  /** So the parameter utilization of a finished run is 1, or 0 without parameters, however often experts
      are invoked again. */
  lemma UtilizationIsOneOrZero(p: PipelineResult, g: Garage, names: seq<string>, st: RunState)
    requires Reports(p, g, names, st)
    ensures p.metrics.Epu() == if p.metrics.totalParamsInvokedM == 0 then 0.0 else 1.0
  {
    if p.metrics.totalParamsInvokedM != 0 {
      QuotientOfItself(p.metrics.totalParamsInvokedM as real);
    }
  }

  /** The metrics of a run in progress. */
  ghost predicate Tracks(m: AggregateMetrics, cost: CostModel, st: RunState)
    reads m
  {
    && m.Valid() && m.cost == cost && m.expertMetrics == st.records
    && m.memoryEntriesRead == st.read && m.memoryEntriesWritten == st.written
    && m.latentNuanceScore == 0.0
  }

  /** The step is what accepting the invocation, with its given cache, mode and read count, leads to. */
  ghost predicate Realizes(step: Outcome, s: Settings, e: Expert, last: bool, st: RunState, given: Option<KVCache>,
                           textMode: bool, read: nat, invoked: Result<Invocation, InvokeError>)
  {
    match invoked
    case Err(error) => step == Raised(st, error)
    case Ok(inv) => step == Running(Accept(s, e, last, st.(read := read), given, inv, textMode))
  }

  /** The same for a step of the cascade. */
  ghost predicate RealizesText(step: Outcome, s: Settings, e: Expert, last: bool, st: RunState,
                               invoked: Result<Invocation, InvokeError>)
  {
    match invoked
    case Err(error) => step == Raised(st, error)
    case Ok(inv) => step == Running(AcceptText(s, e, last, st, inv, s.retrieveK))
  }

  /** One accepted record goes into the totals, a written note and retrieved notes into their counters. */
  method Book(metrics: AggregateMetrics, cost: CostModel, m: ExpertMetrics, wrote: bool, retrieved: nat,
              ghost st: RunState, ghost st': RunState)
    requires Tracks(metrics, cost, st)
    requires st'.records == st.records + [m] && st'.read == st.read + retrieved
    requires st'.written == st.written + if wrote then 1 else 0
    modifies metrics
    ensures Tracks(metrics, cost, st')
  {
    metrics.Add(m);
    if wrote {
      metrics.memoryEntriesWritten := metrics.memoryEntriesWritten + 1;
    }
    if retrieved > 0 {
      metrics.memoryEntriesRead := metrics.memoryEntriesRead + retrieved;
    }
  }

  /** The locals of a run in progress are its state. */
  ghost predicate Carries(st: RunState, cache: Option<KVCache>, text: string, textMode: bool,
                          perExpert: seq<ExpertMetrics>, memory: seq<MemoryNote>)
  {
    && cache == st.cache && text == st.text && textMode == st.textMode
    && perExpert == st.records && memory == st.memory
  }

  /** Closing the books of a finished run. */
  method Finish(metrics: AggregateMetrics, g: Garage, names: seq<string>, cost: CostModel, text: string,
                perExpert: seq<ExpertMetrics>, textMode: bool, ghost st: RunState)
    returns (r: PipelineResult)
    requires Tracks(metrics, cost, st) && Explained(g, names, |names|, st)
    requires text == st.text && perExpert == st.records && textMode == st.textMode
    modifies metrics
    ensures r.metrics == metrics && metrics.cost == cost && Reports(r, g, names, st)
  {
    FinishedRunTotals(cost, g, names, st);
    metrics.Finalize(InvokedExperts(g, names));
    r := PipelineResult(text, metrics, perExpert, names, textMode);
  }

  /** The note an expert's step leaves in the shared memory, if notes are written at all. */
  method WriteNote(s: Settings, memory: seq<MemoryNote>, e: Expert, text: string, isLast: bool)
    returns (memory': seq<MemoryNote>)
    ensures memory' == Note(s, e, text, isLast, memory)
  {
    memory' := memory;
    if s.writeMemory {
      memory' := memory + [MemoryNote(text, RoleValue(e.role), e.name, if !isLast then 0.9 else 1.0)];
    }
  }

  /** `_invoke_expert`: memory is put in front of the prompt before the expert runs. */
  method InvokeExpert(s: Settings, memory: seq<MemoryNote>, e: Expert, prompt: string, maxTokens: int, k: nat, t: Timing)
    returns (r: Result<Invocation, InvokeError>)
    ensures r == Invoked(e, Some(Augmented(s, memory, prompt, k)), None, maxTokens, t)
  {
    var augmented := prompt;
    if k > 0 {
      var entries := s.retrieve(memory, prompt, k);
      if entries != [] {
        var ctx := Lines(entries);
        augmented := "Context from shared memory:\n" + ctx + "\n\n---\n\n" + prompt;
      }
    }
    r := Invoke(e, Some(augmented), None, maxTokens, t);
  }

  // ---------- Phase 1 ----------

  class CascadePipeline {
    const garage: Garage
    const sequence: seq<string>
    const settings: Settings
    const cost: CostModel
    var memory: seq<MemoryNote>

    constructor (experts: seq<Expert>, sequence: seq<string>, settings: Settings, cost: CostModel, memory: seq<MemoryNote>)
      ensures garage == GarageOf(experts) && this.sequence == sequence && this.settings == settings
      ensures this.cost == cost && this.memory == memory
    {
      garage, this.sequence, this.settings := GarageOf(experts), sequence, settings;
      this.cost, this.memory := cost, memory;
    }

    static method Create(experts: seq<Expert>, names: seq<string>, settings: Settings, cost: CostModel, memory: seq<MemoryNote>)
      returns (r: Result<CascadePipeline, ConfigError>)
      ensures match ResolveSequence(experts, names)
              case Err(error) => r == Err(error)
              case Ok(resolved) =>
                && r.Ok? && fresh(r.value) && r.value.garage == GarageOf(experts) && r.value.sequence == resolved
                && r.value.settings == settings && r.value.cost == cost && r.value.memory == memory
    {
      match ResolveSequence(experts, names)
      case Err(error) => return Err(error);
      case Ok(resolved) =>
        var p := new CascadePipeline(experts, resolved, settings, cost, memory);
        return Ok(p);
    }

    /** The step of expert `i`: memory and text so far, and its answer. */
    method Advance(expert: Expert, i: nat, maxTokens: int, currentText: string, ghost last: bool, ghost st: RunState)
      returns (invoked: Result<Invocation, InvokeError>)
      requires st.text == currentText && st.memory == memory && maxTokens == Budget(settings, i)
      ensures RealizesText(CascadeStep(settings, expert, i, last, st, settings.retrieveK), settings, expert, last, st, invoked)
    {
      invoked := InvokeExpert(settings, memory, expert, currentText, maxTokens, settings.retrieveK, settings.clock(i));
    }

    method Run(prompt: string) returns (r: Result<PipelineResult, InvokeError>)
      modifies this`memory
      ensures var outcome := Phase1(settings, garage, sequence, prompt, old(memory));
              && memory == outcome.state.memory
              && match outcome
                 case Raised(_, error) => r == Err(error)
                 case Running(st) => r.Ok? && fresh(r.value.metrics) && r.value.metrics.cost == cost
                                     && Reports(r.value, garage, sequence, st)
    {
      var names := sequence;
      var metrics := new AggregateMetrics(cost);
      var perExpert, currentText := [], prompt;
      var override := settings.maxTokensOverride;
      ghost var before := memory;
      ghost var ks := Always(settings.retrieveK);

      if settings.writeMemory {
        memory := memory + [MemoryNote(prompt, "user", "user", 1.0)];
      }
      ghost var st := Start(settings, prompt, before, false);

      for i := 0 to |names|
        invariant fresh(metrics) && Tracks(metrics, cost, st)
        invariant Carries(st, None, currentText, false, perExpert, memory)
        invariant i > 0 ==> override.None?
        invariant i == 0 ==> override == settings.maxTokensOverride
        invariant Phase1(settings, garage, names, prompt, before) == Cascade(settings, garage, names, i, st, ks)
      {
        if names[i] !in garage {
          return Err(UnknownExpert);
        }
        var expert := garage[names[i]];
        var isLast := i == |names| - 1;
        var maxTokens := override.GetOr(settings.maxTokensPerExpert);
        override := None;

        var invoked := Advance(expert, i, maxTokens, currentText, isLast, st);
        if invoked.Err? {
          return Err(invoked.error);
        }
        var output, m := invoked.value.output, invoked.value.metrics;
        ghost var next := AcceptText(settings, expert, isLast, st, invoked.value, settings.retrieveK);
        Book(metrics, cost, m, settings.writeMemory, settings.retrieveK, st, next);
        perExpert := perExpert + [m];

        memory := WriteNote(settings, memory, expert, output, isLast);
        currentText := output;
        st := next;
      }

      PhasesExplained(settings, garage, names, true, prompt, before);
      var result := Finish(metrics, garage, names, cost, currentText, perExpert, false, st);
      r := Ok(result);
    }
  }

  // ---------- Phase 2 ----------

  class KVPassPipeline {
    const garage: Garage
    const sequence: seq<string>
    const settings: Settings
    const cost: CostModel
    var memory: seq<MemoryNote>

    constructor (experts: seq<Expert>, sequence: seq<string>, settings: Settings, cost: CostModel, memory: seq<MemoryNote>)
      ensures garage == GarageOf(experts) && this.sequence == sequence && this.settings == settings
      ensures this.cost == cost && this.memory == memory
    {
      garage, this.sequence, this.settings := GarageOf(experts), sequence, settings;
      this.cost, this.memory := cost, memory;
    }

    static method Create(experts: seq<Expert>, names: seq<string>, settings: Settings, cost: CostModel, memory: seq<MemoryNote>)
      returns (r: Result<KVPassPipeline, ConfigError>)
      ensures match ResolveSequence(experts, names)
              case Err(error) => r == Err(error)
              case Ok(resolved) =>
                && r.Ok? && fresh(r.value) && r.value.garage == GarageOf(experts) && r.value.sequence == resolved
                && r.value.settings == settings && r.value.cost == cost && r.value.memory == memory
    {
      match ResolveSequence(experts, names)
      case Err(error) => return Err(error);
      case Ok(resolved) =>
        var p := new KVPassPipeline(experts, resolved, settings, cost, memory);
        return Ok(p);
    }

    /** The first expert's step: encode, perhaps encode again with memory, then invoke. */
    method FirstInvocation(expert: Expert, prompt: string, maxTokens: int, metrics: AggregateMetrics,
                           ghost last: bool, ghost st: RunState)
      returns (currentCache: Option<KVCache>, textMode: bool, invoked: Result<Invocation, InvokeError>)
      requires st.text == prompt && st.memory == memory && !st.textMode
      requires maxTokens == Budget(settings, 0) && Tracks(metrics, cost, st)
      modifies metrics`memoryEntriesRead
      ensures var step := FirstStep2(settings, expert, last, st);
              Realizes(step, settings, expert, last, st, currentCache, textMode, metrics.memoryEntriesRead, invoked)
      ensures Tracks(metrics, cost, st.(read := metrics.memoryEntriesRead))
    {
      currentCache, textMode := None, false;
      if !expert.backend.supportsKvCache {
        textMode := true;
      } else {
        currentCache := expert.backend.encode(prompt);
        if currentCache.None? {
          textMode := true;
        }
      }
      var augmented := prompt;
      if settings.retrieveK > 0 && !textMode {
        var entries := settings.retrieve(memory, prompt, settings.retrieveK);
        if entries != [] {
          var ctx := Lines(entries);
          augmented := "Context from shared memory:\n" + ctx + "\n\n---\n\n" + prompt;
          metrics.memoryEntriesRead := metrics.memoryEntriesRead + settings.retrieveK;
        }
        if augmented != prompt && !textMode {
          var again := expert.backend.encode(augmented);
          if again.Some? {
            currentCache := again;
          }
        }
      }
      invoked := Invoke(expert, if textMode then Some(augmented) else None,
                        if !textMode then currentCache else None, maxTokens, settings.clock(0));
    }

    /** Any later step: the cache if there is one, and the text again if its transfer failed. */
    method LaterInvocation(expert: Expert, i: nat, maxTokens: int, currentCache: Option<KVCache>, currentText: string,
                           mode: bool, ghost last: bool, ghost st: RunState)
      returns (textMode: bool, invoked: Result<Invocation, InvokeError>)
      requires st.cache == currentCache && st.text == currentText && st.textMode == mode
      requires maxTokens == Budget(settings, i)
      ensures var step := HandoffStep(settings, expert, i, last, st);
              Realizes(step, settings, expert, last, st, currentCache, textMode, st.read, invoked)
    {
      textMode := mode;
      if textMode || currentCache.None? {
        invoked := InvokeExpert(settings, memory, expert, currentText, maxTokens, 0, settings.clock(i));
      } else {
        invoked := Invoke(expert, None, currentCache, maxTokens, settings.clock(i));
        if invoked.Ok? && !invoked.value.metrics.cacheTransferSucceeded {
          if !settings.fallbackToText {
            return textMode, Err(NothingToRaise);
          }
          invoked := InvokeExpert(settings, memory, expert, currentText, maxTokens, 0, settings.clock(i));
          textMode := true;
        }
      }
    }

    /** The step of expert `i`: what it is given, and what it answers. */
    method Advance(expert: Expert, i: nat, maxTokens: int, cache: Option<KVCache>, currentText: string, mode: bool,
                   metrics: AggregateMetrics, ghost last: bool, ghost st: RunState)
      returns (currentCache: Option<KVCache>, textMode: bool, invoked: Result<Invocation, InvokeError>)
      requires st.cache == cache && st.text == currentText && st.textMode == mode && st.memory == memory
      requires i == 0 ==> mode == false
      requires maxTokens == Budget(settings, i) && Tracks(metrics, cost, st)
      modifies metrics`memoryEntriesRead
      ensures Realizes(Step(KVPass, settings, expert, i, last, st), settings, expert, last, st,
                       currentCache, textMode, metrics.memoryEntriesRead, invoked)
      ensures Tracks(metrics, cost, st.(read := metrics.memoryEntriesRead))
    {
      if i == 0 {
        currentCache, textMode, invoked := FirstInvocation(expert, currentText, maxTokens, metrics, last, st);
      } else {
        currentCache := cache;
        textMode, invoked := LaterInvocation(expert, i, maxTokens, cache, currentText, mode, last, st);
      }
    }

    method Run(prompt: string) returns (r: Result<PipelineResult, InvokeError>)
      modifies this`memory
      ensures var outcome := Phase2(settings, garage, sequence, prompt, old(memory));
              && memory == outcome.state.memory
              && match outcome
                 case Raised(_, error) => r == Err(error)
                 case Running(st) => r.Ok? && fresh(r.value.metrics) && r.value.metrics.cost == cost
                                     && Reports(r.value, garage, sequence, st)
    {
      var names := sequence;
      var metrics := new AggregateMetrics(cost);
      var perExpert := [];
      var currentCache: Option<KVCache>, currentText, textMode := None, prompt, false;
      var override := settings.maxTokensOverride;
      ghost var before := memory;

      if settings.writeMemory {
        memory := memory + [MemoryNote(prompt, "user", "user", 1.0)];
      }
      ghost var st := Start(settings, prompt, before, false);

      for i := 0 to |names|
        invariant fresh(metrics) && Tracks(metrics, cost, st)
        invariant Carries(st, currentCache, currentText, textMode, perExpert, memory)
        invariant i > 0 ==> override.None?
        invariant i == 0 ==> override == settings.maxTokensOverride && !st.textMode
        invariant Phase2(settings, garage, names, prompt, before) == Steps(KVPass, settings, garage, names, i, st)
      {
        if names[i] !in garage {
          return Err(UnknownExpert);
        }
        var expert := garage[names[i]];
        var isLast := i == |names| - 1;
        var maxTokens := override.GetOr(settings.maxTokensPerExpert);
        override := None;

        ghost var step := Step(KVPass, settings, expert, i, isLast, st);
        var invoked;
        currentCache, textMode, invoked :=
          Advance(expert, i, maxTokens, currentCache, currentText, textMode, metrics, isLast, st);
        if invoked.Err? {
          return Err(invoked.error);
        }
        var output, outCache, m := invoked.value.output, invoked.value.cache, invoked.value.metrics;
        Book(metrics, cost, m, settings.writeMemory, 0, st.(read := metrics.memoryEntriesRead), step.state);
        perExpert := perExpert + [m];

        var src := if currentCache.Some? then currentCache.value.sourceText else currentText;
        memory := WriteNote(settings, memory, expert, src, isLast);
        currentCache := outCache;
        currentText := output;
        st := step.state;
      }

      PhasesExplained(settings, garage, names, false, prompt, before);
      var result := Finish(metrics, garage, names, cost, currentText, perExpert, textMode, st);
      r := Ok(result);
    }
  }

  // ---------- Phase 3 ----------

  function FirstOfRole(experts: seq<Expert>, role: Role): Option<string> {
    if |experts| == 0 then None
    else if experts[0].role == role then Some(experts[0].name)
    else FirstOfRole(experts[1..], role)
  }

  /** The routed names, or the first synthesizer, or the first expert. */
  function Selected(routed: seq<string>, experts: seq<Expert>): seq<string>
    requires |experts| > 0
  {
    if routed != [] then routed else [FirstOfRole(experts, Synthesizer).GetOr(experts[0].name)]
  }

  /** An empty route stands for the first synthesizer, or without one for the first expert. */
  lemma {:induction false} FirstOfRoleIs(experts: seq<Expert>, role: Role)
    ensures FirstOfRole(experts, role) == None <==> forall i :: 0 <= i < |experts| ==> experts[i].role != role
    ensures FirstOfRole(experts, role).Some? ==>
              exists i :: 0 <= i < |experts| && experts[i].role == role && Some(experts[i].name) == FirstOfRole(experts, role)
                     && forall j :: 0 <= j < i ==> experts[j].role != role
  {
    if |experts| > 0 && experts[0].role != role {
      var rest := experts[1..];
      FirstOfRoleIs(rest, role);
      assert forall i :: 0 < i < |experts| ==> experts[i] == rest[i - 1];
      if FirstOfRole(rest, role).Some? {
        var i :| 0 <= i < |rest| && rest[i].role == role && Some(rest[i].name) == FirstOfRole(rest, role)
                 && forall j :: 0 <= j < i ==> rest[j].role != role;
        assert experts[i + 1] == rest[i];
      } else {
        assert forall i :: 0 <= i < |rest| ==> rest[i] == experts[i + 1];
      }
    }
  }

  lemma SelectedIs(routed: seq<string>, experts: seq<Expert>)
    requires |experts| > 0
    ensures routed != [] ==> Selected(routed, experts) == routed
    ensures routed == [] ==>
              exists i :: 0 <= i < |experts| && Selected(routed, experts) == [experts[i].name]
                     && (forall j :: 0 <= j < i ==> experts[j].role != Synthesizer)
                     && (experts[i].role == Synthesizer || (i == 0 && forall j :: 0 <= j < |experts| ==> experts[j].role != Synthesizer))
  {
    FirstOfRoleIs(experts, Synthesizer);
    if FirstOfRole(experts, Synthesizer) == None {
      assert Selected([], experts) == [experts[0].name];
    }
  }

  class RoutingPipeline {
    const experts: seq<Expert>
    const garage: Garage
    const route: (string, seq<Expert>) -> seq<string>
    const textHandoff: bool
    const settings: Settings
    const cost: CostModel
    var memory: seq<MemoryNote>

    ghost predicate Valid() {
      |experts| > 0 && garage == GarageOf(experts)
    }

    constructor (experts: seq<Expert>, route: (string, seq<Expert>) -> seq<string>, textHandoff: bool,
                 settings: Settings, cost: CostModel, memory: seq<MemoryNote>)
      requires |experts| > 0
      ensures Valid() && this.experts == experts && this.route == route && this.textHandoff == textHandoff
      ensures this.settings == settings && this.cost == cost && this.memory == memory
    {
      this.experts, garage, this.route, this.textHandoff := experts, GarageOf(experts), route, textHandoff;
      this.settings, this.cost, this.memory := settings, cost, memory;
    }

    static method Create(experts: seq<Expert>, route: (string, seq<Expert>) -> seq<string>, textHandoff: bool,
                         settings: Settings, cost: CostModel, memory: seq<MemoryNote>)
      returns (r: Result<RoutingPipeline, ConfigError>)
      ensures if |experts| == 0 then r == Err(NoExperts)
              else r.Ok? && fresh(r.value) && r.value.Valid() && r.value.experts == experts && r.value.route == route
                   && r.value.textHandoff == textHandoff && r.value.settings == settings && r.value.cost == cost
                   && r.value.memory == memory
    {
      if |experts| == 0 {
        return Err(NoExperts);
      }
      var p := new RoutingPipeline(experts, route, textHandoff, settings, cost, memory);
      r := Ok(p);
    }

    method SelectNames(prompt: string) returns (names: seq<string>)
      requires Valid()
      ensures names == Selected(route(prompt, experts), experts) && names != []
    {
      names := route(prompt, experts);
      if names == [] {
        for j := 0 to |experts|
          invariant names == []
          invariant FirstOfRole(experts, Synthesizer) == FirstOfRole(experts[j..], Synthesizer)
        {
          assert experts[j..][1..] == experts[j + 1..];
          if experts[j].role == Synthesizer {
            names := [experts[j].name];
            break;
          }
        }
        if names == [] {
          names := [experts[0].name];
        }
      }
    }

    /** The first expert's step: with caches, encoding and invoking share one exception handler. */
    method FirstInvocation(expert: Expert, prompt: string, maxTokens: int, metrics: AggregateMetrics,
                           ghost last: bool, ghost st: RunState)
      returns (currentCache: Option<KVCache>, textMode: bool, invoked: Result<Invocation, InvokeError>)
      requires st.text == prompt && st.memory == memory && st.textMode == textHandoff
      requires maxTokens == Budget(settings, 0) && Tracks(metrics, cost, st)
      modifies metrics`memoryEntriesRead
      ensures var step := FirstStep3(settings, expert, last, st);
              Realizes(step, settings, expert, last, st, currentCache, textMode, metrics.memoryEntriesRead, invoked)
      ensures Tracks(metrics, cost, st.(read := metrics.memoryEntriesRead))
    {
      currentCache, textMode := None, textHandoff;
      if !textMode && !expert.backend.supportsKvCache {
        textMode := true;
      }
      if !textMode && expert.backend.supportsKvCache {
        var augmented := prompt;
        if settings.retrieveK > 0 {
          var entries := settings.retrieve(memory, prompt, settings.retrieveK);
          if entries != [] {
            var ctx := Lines(entries);
            augmented := "Context from shared memory:\n" + ctx + "\n\n---\n\n" + prompt;
            metrics.memoryEntriesRead := metrics.memoryEntriesRead + settings.retrieveK;
          }
        }
        currentCache := expert.backend.encode(augmented);
        var failed := currentCache.None?;
        if !failed {
          invoked := Invoke(expert, None, currentCache, maxTokens, settings.clock(0));
          failed := invoked.Err?;
        }
        if failed {
          textMode := true;
          currentCache := None;
          invoked := InvokeExpert(settings, memory, expert, prompt, maxTokens, settings.retrieveK, settings.clock(0));
        }
      } else {
        invoked := InvokeExpert(settings, memory, expert, prompt, maxTokens, settings.retrieveK, settings.clock(0));
      }
    }

    /** Any later step, in the loop of phase 3. */
    method LaterInvocation(expert: Expert, i: nat, maxTokens: int, currentCache: Option<KVCache>, currentText: string,
                           mode: bool, ghost last: bool, ghost st: RunState)
      returns (textMode: bool, invoked: Result<Invocation, InvokeError>)
      requires st.cache == currentCache && st.text == currentText && st.textMode == mode
      requires maxTokens == Budget(settings, i)
      ensures var step := RoutedStep(settings, expert, i, last, st);
              Realizes(step, settings, expert, last, st, currentCache, textMode, st.read, invoked)
    {
      textMode := mode;
      if textMode || currentCache.None? {
        invoked := InvokeExpert(settings, memory, expert, currentText, maxTokens, 0, settings.clock(i));
      } else {
        invoked := Invoke(expert, None, currentCache, maxTokens, settings.clock(i));
        if invoked.Ok? && !invoked.value.metrics.cacheTransferSucceeded {
          if !settings.fallbackToText {
            return textMode, Err(NothingToRaise);
          }
          invoked := InvokeExpert(settings, memory, expert, currentText, maxTokens, 0, settings.clock(i));
          textMode := true;
        }
      }
    }

    /** The step of expert `i`: what it is given, and what it answers. */
    method Advance(expert: Expert, i: nat, maxTokens: int, cache: Option<KVCache>, currentText: string, mode: bool,
                   metrics: AggregateMetrics, ghost last: bool, ghost st: RunState)
      returns (currentCache: Option<KVCache>, textMode: bool, invoked: Result<Invocation, InvokeError>)
      requires st.cache == cache && st.text == currentText && st.textMode == mode && st.memory == memory
      requires i == 0 ==> mode == textHandoff
      requires maxTokens == Budget(settings, i) && Tracks(metrics, cost, st)
      modifies metrics`memoryEntriesRead
      ensures Realizes(Step(Routing, settings, expert, i, last, st), settings, expert, last, st,
                       currentCache, textMode, metrics.memoryEntriesRead, invoked)
      ensures Tracks(metrics, cost, st.(read := metrics.memoryEntriesRead))
    {
      if i == 0 {
        currentCache, textMode, invoked := FirstInvocation(expert, currentText, maxTokens, metrics, last, st);
      } else {
        currentCache := cache;
        textMode, invoked := LaterInvocation(expert, i, maxTokens, cache, currentText, mode, last, st);
      }
    }

    method Run(prompt: string) returns (r: Result<PipelineResult, InvokeError>)
      requires Valid()
      modifies this`memory
      ensures var names := Selected(route(prompt, experts), experts);
              var outcome := Phase3(settings, garage, names, textHandoff, prompt, old(memory));
              && memory == outcome.state.memory
              && match outcome
                 case Raised(_, error) => r == Err(error)
                 case Running(st) => r.Ok? && fresh(r.value.metrics) && r.value.metrics.cost == cost
                                     && Reports(r.value, garage, names, st)
    {
      var names := SelectNames(prompt);
      var metrics := new AggregateMetrics(cost);
      var perExpert := [];
      var currentCache: Option<KVCache>, currentText, textMode := None, prompt, textHandoff;
      var override := settings.maxTokensOverride;
      ghost var before := memory;

      if settings.writeMemory {
        memory := memory + [MemoryNote(prompt, "user", "user", 1.0)];
      }
      ghost var st := Start(settings, prompt, before, textHandoff);

      for i := 0 to |names|
        invariant fresh(metrics) && Tracks(metrics, cost, st)
        invariant Carries(st, currentCache, currentText, textMode, perExpert, memory)
        invariant i > 0 ==> override.None?
        invariant i == 0 ==> override == settings.maxTokensOverride && st.textMode == textHandoff
        invariant Phase3(settings, garage, names, textHandoff, prompt, before)
               == Steps(Routing, settings, garage, names, i, st)
      {
        if names[i] !in garage {
          return Err(UnknownExpert);
        }
        var expert := garage[names[i]];
        var isLast := i == |names| - 1;
        var maxTokens := override.GetOr(settings.maxTokensPerExpert);
        override := None;

        ghost var step := Step(Routing, settings, expert, i, isLast, st);
        var invoked;
        currentCache, textMode, invoked :=
          Advance(expert, i, maxTokens, currentCache, currentText, textMode, metrics, isLast, st);
        if invoked.Err? {
          return Err(invoked.error);
        }
        var output, outCache, m := invoked.value.output, invoked.value.cache, invoked.value.metrics;
        Book(metrics, cost, m, settings.writeMemory, 0, st.(read := metrics.memoryEntriesRead), step.state);
        perExpert := perExpert + [m];

        var src := if currentCache.Some? then currentCache.value.sourceText else currentText;
        memory := WriteNote(settings, memory, expert, src, isLast);
        currentCache := outCache;
        currentText := output;
        st := step.state;
      }

      PhasesExplained(settings, garage, names, textHandoff, prompt, before);
      var result := Finish(metrics, garage, names, cost, currentText, perExpert, textMode, st);
      r := Ok(result);
    }
  }
}
