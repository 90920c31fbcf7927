/** What the three pipelines compute: a run threads text, an optional cache and a sticky
    text-mode flag through a sequence of experts. */
module Handoff {
  import opened Wrappers
  import opened KvCaches
  import opened Experts

  datatype MemoryNote = MemoryNote(text: string, role: string, expertName: string, confidence: real)

  /** Everything a run depends on besides prompt and experts. `retrieve` is the shared memory's
      answer as a function of all notes written so far; `clock(i)` are the readings around the
      invocation whose record is kept at step `i`. */
  datatype Settings = Settings(
    maxTokensPerExpert: int,
    maxTokensOverride: Option<int>,
    writeMemory: bool,
    fallbackToText: bool,
    retrieveK: nat,
    retrieve: (seq<MemoryNote>, string, nat) -> seq<MemoryNote>,
    clock: nat -> Timing)

  type Garage = map<string, Expert>

  /** The loop-carried state, with what the run has shown so far. */
  datatype RunState = RunState(
    cache: Option<KVCache>,
    text: string,
    textMode: bool,
    outputs: seq<string>,
    accounted: seq<string>,
    records: seq<ExpertMetrics>,
    memory: seq<MemoryNote>,
    read: nat,
    written: nat)

  /** A run goes on, or an exception leaves it with the memory written so far. */
  datatype Outcome = Running(state: RunState) | Raised(state: RunState, error: InvokeError)

  function RoleValue(r: Role): string {
    match r
    case Analyst => "analyst"
    case Reasoner => "reasoner"
    case Synthesizer => "synthesizer"
    case Coder => "coder"
    case Router => "router"
    case Translator => "translator"
    case Generalist => "generalist"
  }

  function Lines(notes: seq<MemoryNote>): string {
    if notes == [] then ""
    else
      var line := "- [" + notes[0].role + "] " + notes[0].text;
      if |notes| == 1 then line else line + "\n" + Lines(notes[1..])
  }

  /** The token budget of step `i`: the caller's override is popped, so only the first step sees it. */
  function Budget(s: Settings, i: nat): int {
    if i == 0 then s.maxTokensOverride.GetOr(s.maxTokensPerExpert) else s.maxTokensPerExpert
  }

  function Retrieved(s: Settings, memory: seq<MemoryNote>, prompt: string, k: nat): seq<MemoryNote> {
    if k > 0 then s.retrieve(memory, prompt, k) else []
  }

  /** The prompt with retrieved notes put in front of it, if there are any. */
  function Augmented(s: Settings, memory: seq<MemoryNote>, prompt: string, k: nat): string {
    var notes := Retrieved(s, memory, prompt, k);
    if notes == [] then prompt
    else "Context from shared memory:\n" + Lines(notes) + "\n\n---\n\n" + prompt
  }

  function Start(s: Settings, prompt: string, memory: seq<MemoryNote>, textMode: bool): RunState {
    var memory' := if s.writeMemory then memory + [MemoryNote(prompt, "user", "user", 1.0)] else memory;
    RunState(None, prompt, textMode, [], [], [], memory', 0, 0)
  }

  function Note(s: Settings, e: Expert, text: string, last: bool, memory: seq<MemoryNote>): seq<MemoryNote> {
    if s.writeMemory
    then memory + [MemoryNote(text, RoleValue(e.role), e.name, if last then 1.0 else 0.9)]
    else memory
  }

  function Wrote(s: Settings): nat {
    if s.writeMemory then 1 else 0
  }

  // ---------- Text hand-off ----------

  /** The state after an answer is accepted; the note keeps the answer. */
  function AcceptText(s: Settings, e: Expert, last: bool, st: RunState, inv: Invocation, k: nat): RunState {
    st.(text := inv.output, outputs := st.outputs + [inv.output],
        accounted := st.accounted + [inv.accounted], records := st.records + [inv.metrics],
        memory := Note(s, e, inv.output, last, st.memory),
        read := st.read + k, written := st.written + Wrote(s))
  }

  /** One step of the cascade: the expert is prompted with the text so far. */
  function CascadeStep(s: Settings, e: Expert, i: nat, last: bool, st: RunState, k: nat): Outcome {
    match Invoked(e, Some(Augmented(s, st.memory, st.text, k)), None, Budget(s, i), s.clock(i))
    case Err(error) => Raised(st, error)
    case Ok(inv) => Running(AcceptText(s, e, last, st, inv, k))
  }

  // How many notes are retrieved at each step.
  function Never(): nat -> nat { _ => 0 }
  function Always(k: nat): nat -> nat { _ => k }
  function FirstOnly(k: nat): nat -> nat { j => if j == 0 then k else 0 }

  /** A cascade from step `i` on, with `ks(j)` notes retrieved at step `j`. */
  function Cascade(s: Settings, g: Garage, names: seq<string>, i: nat, st: RunState, ks: nat -> nat): Outcome
    requires i <= |names|
    decreases |names| - i
  {
    if i == |names| then Running(st)
    else if names[i] !in g then Raised(st, UnknownExpert)
    else match CascadeStep(s, g[names[i]], i, i == |names| - 1, st, ks(i))
      case Running(st') => Cascade(s, g, names, i + 1, st', ks)
      case Raised(st', error) => Raised(st', error)
  }

  function Phase1(s: Settings, g: Garage, names: seq<string>, prompt: string, memory: seq<MemoryNote>): Outcome {
    Cascade(s, g, names, 0, Start(s, prompt, memory, false), Always(s.retrieveK))
  }

  // ---------- Cache hand-off ----------

  /** The state after an invocation is accepted; the note keeps what the expert was given. */
  function Accept(s: Settings, e: Expert, last: bool, st: RunState, given: Option<KVCache>,
                  inv: Invocation, textMode: bool): RunState
  {
    var source := if given.Some? then given.value.sourceText else st.text;
    RunState(inv.cache, inv.output, textMode, st.outputs + [inv.output], st.accounted + [inv.accounted],
             st.records + [inv.metrics], Note(s, e, source, last, st.memory), st.read, st.written + Wrote(s))
  }

  function InvokedOnText(s: Settings, e: Expert, i: nat, text: string): Result<Invocation, InvokeError> {
    Invoked(e, Some(text), None, Budget(s, i), s.clock(i))
  }

  function InvokedOnCache(s: Settings, e: Expert, i: nat, c: KVCache): Result<Invocation, InvokeError> {
    Invoked(e, None, Some(c), Budget(s, i), s.clock(i))
  }

  /** Every step of phase 2 but the first: the cache if there is one and no fallback happened yet; a
      failed transfer makes the expert run again on the text and turns the text mode on, or, where
      falling back is switched off, ends the run. */
  function HandoffStep(s: Settings, e: Expert, i: nat, last: bool, st: RunState): Outcome {
    if st.textMode || st.cache.None? then
      match InvokedOnText(s, e, i, st.text)
      case Err(error) => Raised(st, error)
      case Ok(inv) => Running(Accept(s, e, last, st, st.cache, inv, st.textMode))
    else
      match InvokedOnCache(s, e, i, st.cache.value)
      case Err(error) => Raised(st, error)
      case Ok(inv) =>
        if inv.metrics.cacheTransferSucceeded then
          Running(Accept(s, e, last, st, st.cache, inv, false))
        else if !s.fallbackToText then
          Raised(st, NothingToRaise)
        else
          match InvokedOnText(s, e, i, st.text)
          case Err(error) => Raised(st, error)
          case Ok(again) => Running(Accept(s, e, last, st, st.cache, again, true))
  }

  /** Every step of phase 3 but the first, from its own loop: one request, on the text or on the cache,
      and a second one if a transfer was tried and failed. It comes to the same. */
  function RoutedStep(s: Settings, e: Expert, i: nat, last: bool, st: RunState): (r: Outcome)
    ensures r == HandoffStep(s, e, i, last, st)
  {
    var onText := st.textMode || st.cache.None?;
    var (prompt, cache) := if onText then (Some(st.text), None) else (None, st.cache);
    match Invoked(e, prompt, cache, Budget(s, i), s.clock(i))
    case Err(error) => Raised(st, error)
    case Ok(inv) =>
      var failed := !onText && !inv.metrics.cacheTransferSucceeded;
      if failed && !s.fallbackToText then Raised(st, NothingToRaise)
      else
        var kept := if failed then InvokedOnText(s, e, i, st.text) else Ok(inv);
        match kept
        case Err(error) => Raised(st, error)
        case Ok(again) => Running(Accept(s, e, last, st, st.cache, again, st.textMode || failed))
  }

  /** What the first expert is given. */
  datatype Request = OnText(text: string) | OnCache(cache: KVCache)

  /** The first request of phase 2: memory is consulted only once the plain prompt was encoded,
      and the augmented prompt replaces it only if it can be encoded too. */
  function FirstRequest2(s: Settings, e: Expert, st: RunState): Request {
    if !e.backend.supportsKvCache || e.backend.encode(st.text).None? then
      OnText(st.text)
    else
      var augmented := Augmented(s, st.memory, st.text, s.retrieveK);
      if augmented != st.text && e.backend.encode(augmented).Some?
      then OnCache(e.backend.encode(augmented).value)
      else OnCache(e.backend.encode(st.text).value)
  }

  /** The first request of phase 3: the augmented prompt, as a cache if it can be encoded. */
  function FirstRequest3(s: Settings, e: Expert, st: RunState): Request {
    var augmented := Augmented(s, st.memory, st.text, s.retrieveK);
    if st.textMode || !e.backend.supportsKvCache || e.backend.encode(augmented).None?
    then OnText(augmented)
    else OnCache(e.backend.encode(augmented).value)
  }

  /** Memory entries counted as read when the first expert's cache is made. */
  function Consulted(s: Settings, st: RunState): nat {
    if Retrieved(s, st.memory, st.text, s.retrieveK) != [] then s.retrieveK else 0
  }

  function FirstStep2(s: Settings, e: Expert, last: bool, st: RunState): Outcome {
    match FirstRequest2(s, e, st)
    case OnText(text) =>
      (match InvokedOnText(s, e, 0, text)
       case Err(error) => Raised(st, error)
       case Ok(inv) => Running(Accept(s, e, last, st, None, inv, true)))
    case OnCache(c) =>
      (match InvokedOnCache(s, e, 0, c)
       case Err(error) => Raised(st, error)
       case Ok(inv) => Running(Accept(s, e, last, st.(read := st.read + Consulted(s, st)), Some(c), inv, false)))
  }

  /** Phase 3 encodes and invokes under one exception handler, so whatever goes wrong with the
      first expert's cache ends in a second attempt on the augmented text. */
  function FirstStep3(s: Settings, e: Expert, last: bool, st: RunState): Outcome {
    var tries := !st.textMode && e.backend.supportsKvCache;
    var st' := if tries then st.(read := st.read + Consulted(s, st)) else st;
    var onText :=
      match InvokedOnText(s, e, 0, Augmented(s, st.memory, st.text, s.retrieveK))
      case Err(error) => Raised(st, error)
      case Ok(inv) => Running(Accept(s, e, last, st', None, inv, true));
    match FirstRequest3(s, e, st)
    case OnText(_) => onText
    case OnCache(c) =>
      match InvokedOnCache(s, e, 0, c)
      case Err(_) => onText
      case Ok(inv) => Running(Accept(s, e, last, st', Some(c), inv, false))
  }

  /** The two pipelines that hand caches over. */
  datatype Phase = KVPass | Routing

  function Step(p: Phase, s: Settings, e: Expert, i: nat, last: bool, st: RunState): Outcome {
    match p
    case KVPass => if i == 0 then FirstStep2(s, e, last, st) else HandoffStep(s, e, i, last, st)
    case Routing => if i == 0 then FirstStep3(s, e, last, st) else RoutedStep(s, e, i, last, st)
  }

  function Steps(p: Phase, s: Settings, g: Garage, names: seq<string>, i: nat, st: RunState): Outcome
    requires i <= |names|
    decreases |names| - i
  {
    if i == |names| then Running(st)
    else if names[i] !in g then Raised(st, UnknownExpert)
    else match Step(p, s, g[names[i]], i, i == |names| - 1, st)
      case Running(st') => Steps(p, s, g, names, i + 1, st')
      case Raised(st', error) => Raised(st', error)
  }

  function Phase2(s: Settings, g: Garage, names: seq<string>, prompt: string, memory: seq<MemoryNote>): Outcome {
    Steps(KVPass, s, g, names, 0, Start(s, prompt, memory, false))
  }

  function Phase3(s: Settings, g: Garage, names: seq<string>, textHandoff: bool, prompt: string, memory: seq<MemoryNote>)
    : Outcome
  {
    Steps(Routing, s, g, names, 0, Start(s, prompt, memory, textHandoff))
  }

  /** From the second step on both phases are the same machine. */
  lemma {:induction false} LaterStepsAgree(p: Phase, q: Phase, s: Settings, g: Garage, names: seq<string>, i: nat, st: RunState)
    requires 0 < i <= |names|
    ensures Steps(p, s, g, names, i, st) == Steps(q, s, g, names, i, st)
    decreases |names| - i
  {
    if i < |names| && names[i] in g {
      var step := Step(p, s, g[names[i]], i, i == |names| - 1, st);
      if step.Running? {
        LaterStepsAgree(p, q, s, g, names, i + 1, step.state);
      }
    }
  }
}
