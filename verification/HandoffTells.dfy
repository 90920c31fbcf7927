/** What runs tell: who gets which budget, which notes are shown and written, and phase 1 in closed form. */
module HandoffTells {
  import opened Wrappers
  import opened KvCaches
  import opened Experts
  import opened Handoff
  import opened HandoffAccounts

  // ---------- Budgets ----------

  /** A caller's token budget is the first expert's, as if it were everyone's, and for the others it is as
      if there were none. */
  lemma OverrideReachesFirst(p: Phase, s: Settings, e: Expert, last: bool, st: RunState, k: nat, budget: int)
    requires s.maxTokensOverride == Some(budget)
    ensures var same := s.(maxTokensPerExpert := budget, maxTokensOverride := None);
            && Step(p, s, e, 0, last, st) == Step(p, same, e, 0, last, st)
            && CascadeStep(s, e, 0, last, st, k) == CascadeStep(same, e, 0, last, st, k)
  {
    FirstStep2SpendsBudget(s, e, last, st, budget);
    FirstStep3SpendsBudget(s, e, last, st, budget);
    hide Invoked, FirstStep2, FirstStep3, HandoffStep, RoutedStep;
  }

  lemma FirstStep2SpendsBudget(s: Settings, e: Expert, last: bool, st: RunState, budget: int)
    requires s.maxTokensOverride == Some(budget)
    ensures FirstStep2(s, e, last, st) == FirstStep2(s.(maxTokensPerExpert := budget, maxTokensOverride := None), e, last, st)
  {
    hide Invoked;
  }

  lemma FirstStep3SpendsBudget(s: Settings, e: Expert, last: bool, st: RunState, budget: int)
    requires s.maxTokensOverride == Some(budget)
    ensures FirstStep3(s, e, last, st) == FirstStep3(s.(maxTokensPerExpert := budget, maxTokensOverride := None), e, last, st)
  {
    hide Invoked;
  }

  lemma {:induction false} OverrideReachesNobodyElse(p: Phase, s: Settings, g: Garage, names: seq<string>, i: nat, st: RunState, ks: nat -> nat)
    requires 0 < i <= |names|
    ensures var none := s.(maxTokensOverride := None);
            && Steps(p, s, g, names, i, st) == Steps(p, none, g, names, i, st)
            && Cascade(s, g, names, i, st, ks) == Cascade(none, g, names, i, st, ks)
    decreases |names| - i
  {
    if i < |names| && names[i] in g {
      var none, last := s.(maxTokensOverride := None), i == |names| - 1;
      LaterStepIgnoresOverride(p, s, g[names[i]], i, last, st, ks(i));
      var step, step' := Step(p, s, g[names[i]], i, last, st), CascadeStep(s, g[names[i]], i, last, st, ks(i));
      hide Step, CascadeStep;
      if step.Running? {
        OverrideReachesNobodyElse(p, s, g, names, i + 1, step.state, ks);
      }
      if step'.Running? {
        OverrideReachesNobodyElse(p, s, g, names, i + 1, step'.state, ks);
      }
    }
  }

  lemma LaterStepIgnoresOverride(p: Phase, s: Settings, e: Expert, i: nat, last: bool, st: RunState, k: nat)
    requires i > 0
    ensures var none := s.(maxTokensOverride := None);
            && Step(p, s, e, i, last, st) == Step(p, none, e, i, last, st)
            && CascadeStep(s, e, i, last, st, k) == CascadeStep(none, e, i, last, st, k)
  {
    hide Invoked;
  }

  // ---------- Caches used ----------

  /** The run goes on with this answer, by decoding, and the cache that follows it; or decoding raised. */
  ghost predicate Decoded(r: Outcome, e: Expert, st: RunState, given: KVCache, answer: Option<string>) {
    match answer
    case None => r == Raised(r.state, BackendRaised)
    case Some(output) =>
      && r.Running? && r.state.text == output && !r.state.textMode
      && r.state.outputs == st.outputs + [output] && r.state.accounted == st.accounted + [given.sourceText]
      && |r.state.records| == |st.records| + 1 && r.state.records[|st.records|].usedKvCache
      && r.state.cache == e.backend.encode(given.sourceText + "\n" + output)
  }

  /** A cache in hand is used: outside text mode an expert whose backend takes the cache over decodes what it
      took over, in phases 2 and 3 alike. */
  lemma CacheIsUsed(p: Phase, s: Settings, e: Expert, i: nat, last: bool, st: RunState, moved: KVCache)
    requires i > 0 && !st.textMode && st.cache.Some? && e.backend.supportsKvCache
    requires e.backend.transferCache(st.cache.value) == Moved(moved)
    ensures Decoded(Step(p, s, e, i, last, st), e, st, st.cache.value, e.backend.decode(moved, Budget(s, i)))
  {
    AnswerComesFrom(e, None, st.cache, Budget(s, i), s.clock(i));
  }

  /** And the first expert uses the cache of its prompt, if it can make one and nothing is retrieved. */
  lemma FirstCacheIsUsed(s: Settings, e: Expert, last: bool, st: RunState, made: KVCache, moved: KVCache)
    requires !st.textMode && e.backend.supportsKvCache && Retrieved(s, st.memory, st.text, s.retrieveK) == []
    requires e.backend.encode(st.text) == Some(made) && e.backend.transferCache(made) == Moved(moved)
    ensures var answer := e.backend.decode(moved, Budget(s, 0));
            && Decoded(FirstStep2(s, e, last, st), e, st, made, answer)
            && (answer.Some? ==> Decoded(FirstStep3(s, e, last, st), e, st, made, answer))
  {
    AnswerComesFrom(e, None, Some(made), Budget(s, 0), s.clock(0));
  }

  // ---------- Notes shown ----------

  /** Notes are shown one to a line, in order. */
  lemma {:induction false} LinesJoin(a: seq<MemoryNote>, b: seq<MemoryNote>)
    requires a != [] && b != []
    ensures Lines(a + b) == Lines(a) + "\n" + Lines(b)
  {
    if |a| == 1 {
      assert (a + b)[1..] == b;
    } else {
      LinesJoin(a[1..], b);
      assert (a + b)[1..] == a[1..] + b;
    }
  }

  lemma OneLine(n: MemoryNote)
    ensures Lines([n]) == "- [" + n.role + "] " + n.text
  {
  }

  /** Every note that is retrieved is shown in the prompt, with its role, and the prompt itself comes last. */
  lemma NotesAreShown(s: Settings, memory: seq<MemoryNote>, prompt: string, k: nat, i: nat)
    requires i < |Retrieved(s, memory, prompt, k)|
    ensures var n, all := Retrieved(s, memory, prompt, k)[i], Augmented(s, memory, prompt, k);
            && all == "Context from shared memory:\n" + Lines(Retrieved(s, memory, prompt, k)) + "\n\n---\n\n" + prompt
            && (exists front, back :: all == front + ("- [" + n.role + "] " + n.text) + back)
            && |all| >= |prompt| && all[|all| - |prompt|..] == prompt
  {
    var notes := Retrieved(s, memory, prompt, k);
    var front, back := LineIsThere(notes, i);
    var line, header, footer := Lines([notes[i]]), "Context from shared memory:\n", "\n\n---\n\n";
    var all := Augmented(s, memory, prompt, k);
    assert all == header + Lines(notes) + footer + prompt;
    assert all == (header + front) + line + (back + footer + prompt);
    OneLine(notes[i]);
  }

  lemma {:induction false} LineIsThere(notes: seq<MemoryNote>, i: nat) returns (front: string, back: string)
    requires i < |notes|
    ensures Lines(notes) == front + Lines([notes[i]]) + back
  {
    var before, after := notes[..i], notes[i + 1..];
    assert notes == before + ([notes[i]] + after);
    front, back := "", "";
    if after != [] {
      LinesJoin([notes[i]], after);
      back := "\n" + Lines(after);
    } else {
      assert [notes[i]] + after == [notes[i]];
    }
    if before != [] {
      LinesJoin(before, [notes[i]] + after);
      front := Lines(before) + "\n";
    } else {
      assert before + ([notes[i]] + after) == [notes[i]] + after;
    }
  }

  /** How roles are spelt. */
  lemma RolesAreSpelt()
    ensures RoleValue(Analyst) == "analyst" && RoleValue(Reasoner) == "reasoner" && RoleValue(Synthesizer) == "synthesizer"
    ensures RoleValue(Coder) == "coder" && RoleValue(Router) == "router" && RoleValue(Translator) == "translator"
    ensures RoleValue(Generalist) == "generalist"
  {
  }

  // ---------- Phase 1 in closed form ----------

  /** The text expert `k` works on: the user's prompt, or the answer before. */
  function TextBefore(prompt: string, outputs: seq<string>, k: nat): string
    requires k <= |outputs|
  {
    if k == 0 then prompt else outputs[k - 1]
  }

  /** The memory before expert `k`: what was there, the user's prompt, and one note for every answer. */
  function MemoryBefore(s: Settings, g: Garage, names: seq<string>, prompt: string, memory: seq<MemoryNote>,
                        outputs: seq<string>, k: nat): seq<MemoryNote>
    requires k <= |outputs| && k <= |names| && forall j :: 0 <= j < k ==> names[j] in g
  {
    if !s.writeMemory then memory
    else if k == 0 then memory + [MemoryNote(prompt, "user", "user", 1.0)]
    else
      MemoryBefore(s, g, names, prompt, memory, outputs, k - 1)
      + [MemoryNote(outputs[k - 1], RoleValue(g[names[k - 1]].role), g[names[k - 1]].name,
                    if k == |names| then 1.0 else 0.9)]
  }

  /** The tokens expert `k` may spend. */
  function Spends(s: Settings, k: nat): int {
    if k == 0 && s.maxTokensOverride.Some? then s.maxTokensOverride.value else s.maxTokensPerExpert
  }

  /** What phase 1 has come to after `n` experts, answer by answer. */
  ghost predicate CascadeTells(s: Settings, g: Garage, names: seq<string>, prompt: string, memory: seq<MemoryNote>,
                               ks: nat -> nat, n: nat, st: RunState)
  {
    && n <= |names| && |st.outputs| == |st.accounted| == |st.records| == n
    && (forall k :: 0 <= k < n ==> names[k] in g)
    && (forall k :: 0 <= k < n ==> Answered(s, g, names, prompt, memory, ks, st, k))
    && st.text == TextBefore(prompt, st.outputs, n)
    && st.memory == MemoryBefore(s, g, names, prompt, memory, st.outputs, n)
    && st.written == (if s.writeMemory then n else 0)
  }

  /** Expert `k` was prompted with the text before it, augmented from the memory before it, and its answer
      is what its backend generates from that. */
  ghost predicate Answered(s: Settings, g: Garage, names: seq<string>, prompt: string, memory: seq<MemoryNote>,
                           ks: nat -> nat, st: RunState, k: nat)
    requires k < |names| && k < |st.outputs| && |st.outputs| == |st.accounted|
    requires forall j :: 0 <= j <= k ==> names[j] in g
  {
    && st.accounted[k] == Augmented(s, MemoryBefore(s, g, names, prompt, memory, st.outputs, k),
                                    TextBefore(prompt, st.outputs, k), ks(k))
    && g[names[k]].backend.generate(st.accounted[k], Spends(s, k)) == Some(st.outputs[k])
  }

  /** Later answers change nothing about the memory before. */
  lemma {:induction false} MemoryStays(s: Settings, g: Garage, names: seq<string>, prompt: string, memory: seq<MemoryNote>,
                                       outputs: seq<string>, more: seq<string>, k: nat)
    requires k <= |outputs| && k <= |names| && outputs <= more && forall j :: 0 <= j < k ==> names[j] in g
    ensures MemoryBefore(s, g, names, prompt, memory, more, k) == MemoryBefore(s, g, names, prompt, memory, outputs, k)
  {
    if k > 0 {
      MemoryStays(s, g, names, prompt, memory, outputs, more, k - 1);
    }
  }

  lemma AnsweredStays(s: Settings, g: Garage, names: seq<string>, prompt: string, memory: seq<MemoryNote>,
                      ks: nat -> nat, st: RunState, st': RunState, k: nat)
    requires k < |names| && k < |st.outputs| && |st.outputs| == |st.accounted| && forall j :: 0 <= j <= k ==> names[j] in g
    requires st.outputs <= st'.outputs && st.accounted <= st'.accounted && |st'.outputs| == |st'.accounted|
    requires Answered(s, g, names, prompt, memory, ks, st, k)
    ensures Answered(s, g, names, prompt, memory, ks, st', k)
  {
    MemoryStays(s, g, names, prompt, memory, st.outputs, st'.outputs, k);
  }

  lemma CascadeStepTells(s: Settings, g: Garage, names: seq<string>, prompt: string, memory: seq<MemoryNote>,
                         ks: nat -> nat, n: nat, st: RunState)
    requires CascadeTells(s, g, names, prompt, memory, ks, n, st) && n < |names| && names[n] in g
    ensures var r := CascadeStep(s, g[names[n]], n, n == |names| - 1, st, ks(n));
            r.Running? ==> CascadeTells(s, g, names, prompt, memory, ks, n + 1, r.state) && r.state.read == st.read + ks(n)
  {
    var e := g[names[n]];
    var r := CascadeStep(s, e, n, n == |names| - 1, st, ks(n));
    AnswerComesFrom(e, Some(Augmented(s, st.memory, st.text, ks(n))), None, Budget(s, n), s.clock(n));
    if r.Running? {
      var st' := r.state;
      forall k | 0 <= k < n
        ensures Answered(s, g, names, prompt, memory, ks, st', k)
      {
        AnsweredStays(s, g, names, prompt, memory, ks, st, st', k);
      }
      MemoryStays(s, g, names, prompt, memory, st.outputs, st'.outputs, n);
      assert Answered(s, g, names, prompt, memory, ks, st', n);
    }
  }

  function Total(n: nat, k: nat): nat {
    if n == 0 then 0 else Total(n - 1, k) + k
  }

  lemma {:induction false} CascadeIsTold(s: Settings, g: Garage, names: seq<string>, prompt: string, memory: seq<MemoryNote>,
                                         k: nat, n: nat, st: RunState)
    requires n <= |names| && CascadeTells(s, g, names, prompt, memory, Always(k), n, st) && st.read == Total(n, k)
    ensures var r := Cascade(s, g, names, n, st, Always(k)).state;
            CascadeTells(s, g, names, prompt, memory, Always(k), |r.outputs|, r) && r.read == Total(|r.outputs|, k)
    decreases |names| - n
  {
    hide *;
    ToldCount(s, g, names, prompt, memory, k, n, st);
    CascadeGoesOn(s, g, names, n, st, k);
    if n < |names| && names[n] in g {
      CascadeStepKeeps(s, g, names, prompt, memory, k, n, st);
      var step := CascadeStep(s, g[names[n]], n, n == |names| - 1, st, k);
      if step.Running? {
        CascadeIsTold(s, g, names, prompt, memory, k, n + 1, step.state);
      }
    }
  }

  lemma ToldCount(s: Settings, g: Garage, names: seq<string>, prompt: string, memory: seq<MemoryNote>,
                  k: nat, n: nat, st: RunState)
    requires CascadeTells(s, g, names, prompt, memory, Always(k), n, st)
    ensures |st.outputs| == n && Total(n + 1, k) == Total(n, k) + k
  {
  }

  lemma CascadeGoesOn(s: Settings, g: Garage, names: seq<string>, n: nat, st: RunState, k: nat)
    requires n <= |names|
    ensures Cascade(s, g, names, n, st, Always(k))
         == if n == |names| then Running(st)
            else if names[n] !in g then Raised(st, UnknownExpert)
            else match CascadeStep(s, g[names[n]], n, n == |names| - 1, st, k)
              case Running(st') => Cascade(s, g, names, n + 1, st', Always(k))
              case Raised(st', error) => Raised(st', error)
  {
    hide CascadeStep;
  }

  lemma CascadeStepKeeps(s: Settings, g: Garage, names: seq<string>, prompt: string, memory: seq<MemoryNote>,
                         k: nat, n: nat, st: RunState)
    requires CascadeTells(s, g, names, prompt, memory, Always(k), n, st) && n < |names| && names[n] in g
    ensures var r := CascadeStep(s, g[names[n]], n, n == |names| - 1, st, k);
            if r.Running? then CascadeTells(s, g, names, prompt, memory, Always(k), n + 1, r.state) && r.state.read == st.read + k
            else r.state == st
  {
    assert Always(k)(n) == k;
    CascadeStepTells(s, g, names, prompt, memory, Always(k), n, st);
    CascadeStepAppends(s, g[names[n]], n, n == |names| - 1, st, k);
    hide *;
  }

  lemma {:induction false} TotalIs(n: nat, k: nat)
    ensures Total(n, k) == n * k
  {
    if n > 0 {
      TotalIs(n - 1, k);
      assert n * k == (n - 1) * k + k;
    }
  }

  /** Every run of phase 1, as far as it gets: each expert is prompted with the user's prompt or the answer
      before its own, behind what it retrieves from the memory that holds the prompt and all earlier
      answers, and answers what its backend generates from that within its budget; the last answer is the
      result, and what is read and written is counted. */
  lemma PhaseOneTells(s: Settings, g: Garage, names: seq<string>, prompt: string, memory: seq<MemoryNote>)
    ensures var r := Phase1(s, g, names, prompt, memory).state;
            && CascadeTells(s, g, names, prompt, memory, Always(s.retrieveK), |r.outputs|, r)
            && r.read == |r.outputs| * s.retrieveK
  {
    CascadeIsTold(s, g, names, prompt, memory, s.retrieveK, 0, Start(s, prompt, memory, false));
    TotalIs(|Phase1(s, g, names, prompt, memory).state.outputs|, s.retrieveK);
  }

  // ---------- Notes written by phases 2 and 3 ----------

  /** The note of step `k`: the expert's role and name, full confidence for the last expert's alone, and for
      its text what the expert was given, which is the text before it or, where a cache was in hand, the
      conversation that cache stands for. */
  ghost predicate StepNote(g: Garage, names: seq<string>, prompt: string, memory: seq<MemoryNote>, st: RunState, k: nat)
    requires k < |names| && names[k] in g && k < |st.outputs| && |st.outputs| == |st.accounted| == |st.records|
    requires |memory| + 1 + k < |st.memory|
  {
    var note := st.memory[|memory| + 1 + k];
    && note.role == RoleValue(g[names[k]].role) && note.expertName == g[names[k]].name
    && note.confidence == (if k == |names| - 1 then 1.0 else 0.9)
    && (if k == 0 then note.text == prompt || note.text == st.accounted[0]
        else note.text == st.outputs[k - 1] || note.text == st.accounted[k - 1] + "\n" + st.outputs[k - 1])
    && (st.records[k].usedKvCache ==> note.text == st.accounted[k])
  }

  /** The memory after `n` steps: what was there, the user's prompt and one note for each step. */
  ghost predicate StepsNoted(s: Settings, g: Garage, names: seq<string>, prompt: string, memory: seq<MemoryNote>,
                             n: nat, st: RunState)
  {
    && n <= |names| && |st.outputs| == |st.accounted| == |st.records| == n
    && (forall k :: 0 <= k < n ==> names[k] in g)
    && st.written == (if s.writeMemory then n else 0)
    && (!s.writeMemory ==> st.memory == memory)
    && (s.writeMemory ==>
          && |st.memory| == |memory| + 1 + n
          && st.memory[..|memory| + 1] == memory + [MemoryNote(prompt, "user", "user", 1.0)]
          && forall k :: 0 <= k < n ==> StepNote(g, names, prompt, memory, st, k))
  }

  /** A step that appends an output, a record and, if wanted, a fitting note. */
  lemma StepsNotedOneMore(s: Settings, g: Garage, names: seq<string>, prompt: string, memory: seq<MemoryNote>,
                          n: nat, st: RunState, st': RunState, note: MemoryNote)
    requires StepsNoted(s, g, names, prompt, memory, n, st) && n < |names| && names[n] in g
    requires Appended(g[names[n]], st, st') && st'.written == st.written + (if s.writeMemory then 1 else 0)
    requires st'.memory == if s.writeMemory then st.memory + [note] else st.memory
    requires s.writeMemory ==> |st'.memory| == |memory| + 2 + n && StepNote(g, names, prompt, memory, st', n)
    ensures StepsNoted(s, g, names, prompt, memory, n + 1, st')
  {
    if s.writeMemory {
      forall k | 0 <= k < n + 1
        ensures StepNote(g, names, prompt, memory, st', k)
      {
        if k < n {
          assert StepNote(g, names, prompt, memory, st, k);
          assert st'.memory[|memory| + 1 + k] == st.memory[|memory| + 1 + k];
        }
      }
      assert st'.memory[..|memory| + 1] == st.memory[..|memory| + 1];
    }
  }

  lemma LaterStepNoted(s: Settings, g: Garage, names: seq<string>, prompt: string, memory: seq<MemoryNote>, n: nat, st: RunState)
    requires StepsNoted(s, g, names, prompt, memory, n, st) && 0 < n < |names| && names[n] in g
    requires Coupled(st) && KeepsText(g[names[n]].backend)
    ensures var r := HandoffStep(s, g[names[n]], n, n == |names| - 1, st);
            r.Running? ==> StepsNoted(s, g, names, prompt, memory, n + 1, r.state) && r.state.read == st.read
  {
    var e, last := g[names[n]], n == |names| - 1;
    var r := HandoffStep(s, e, n, last, st);
    HandoffStepAppends(s, e, n, last, st);
    LaterNote(s, e, n, last, st);
    hide HandoffStep, Invoked, RecordFits, KeepsText;
    if r.Running? {
      var text := if st.cache.Some? then st.cache.value.sourceText else st.text;
      var note := MemoryNote(text, RoleValue(e.role), e.name, if last then 1.0 else 0.9);
      assert s.writeMemory ==> StepNote(g, names, prompt, memory, r.state, n);
      StepsNotedOneMore(s, g, names, prompt, memory, n, st, r.state, note);
    }
  }

  /** What a later step writes down: the expert, and what it was given. */
  lemma LaterNote(s: Settings, e: Expert, n: nat, last: bool, st: RunState)
    requires KeepsText(e.backend)
    ensures var r := HandoffStep(s, e, n, last, st);
            var text := if st.cache.Some? then st.cache.value.sourceText else st.text;
            r.Running? ==>
              && r.state.memory == (if s.writeMemory
                                    then st.memory + [MemoryNote(text, RoleValue(e.role), e.name, if last then 1.0 else 0.9)]
                                    else st.memory)
              && r.state.written == st.written + (if s.writeMemory then 1 else 0)
              && r.state.read == st.read
              && |r.state.records| > 0 && |r.state.accounted| > 0
              && (r.state.records[|r.state.records| - 1].usedKvCache ==> r.state.accounted[|r.state.accounted| - 1] == text)
  {
    InvocationCouples(e, Some(st.text), None, Budget(s, n), s.clock(n));
    InvocationCouples(e, None, st.cache, Budget(s, n), s.clock(n));
  }

  lemma {:induction false} LaterStepsNoted(p: Phase, s: Settings, g: Garage, names: seq<string>, prompt: string, memory: seq<MemoryNote>,
                                           n: nat, st: RunState)
    requires StepsNoted(s, g, names, prompt, memory, n, st) && 0 < n <= |names| && Coupled(st) && AllKeepText(g)
    ensures var r := Steps(p, s, g, names, n, st).state;
            StepsNoted(s, g, names, prompt, memory, |r.outputs|, r) && r.read == st.read
    decreases |names| - n
  {
    hide *;
    NotedCount(s, g, names, prompt, memory, n, st);
    StepsGoOn(p, s, g, names, n, st);
    if n < |names| && names[n] in g {
      LaterStepKeeps(s, g, names, prompt, memory, n, st);
      var step := HandoffStep(s, g[names[n]], n, n == |names| - 1, st);
      if step.Running? {
        LaterStepsNoted(p, s, g, names, prompt, memory, n + 1, step.state);
      }
    }
  }

  lemma NotedCount(s: Settings, g: Garage, names: seq<string>, prompt: string, memory: seq<MemoryNote>, n: nat, st: RunState)
    requires StepsNoted(s, g, names, prompt, memory, n, st) && AllKeepText(g)
    ensures |st.outputs| == n && (n < |names| && names[n] in g ==> KeepsText(g[names[n]].backend))
  {
  }

  lemma StepsGoOn(p: Phase, s: Settings, g: Garage, names: seq<string>, n: nat, st: RunState)
    requires 0 < n <= |names|
    ensures Steps(p, s, g, names, n, st)
         == if n == |names| then Running(st)
            else if names[n] !in g then Raised(st, UnknownExpert)
            else match HandoffStep(s, g[names[n]], n, n == |names| - 1, st)
              case Running(st') => Steps(p, s, g, names, n + 1, st')
              case Raised(st', error) => Raised(st', error)
  {
    hide HandoffStep;
  }

  lemma LaterStepKeeps(s: Settings, g: Garage, names: seq<string>, prompt: string, memory: seq<MemoryNote>, n: nat, st: RunState)
    requires StepsNoted(s, g, names, prompt, memory, n, st) && 0 < n < |names| && names[n] in g
    requires Coupled(st) && KeepsText(g[names[n]].backend)
    ensures var r := HandoffStep(s, g[names[n]], n, n == |names| - 1, st);
            if r.Running? then StepsNoted(s, g, names, prompt, memory, n + 1, r.state) && Coupled(r.state) && r.state.read == st.read
            else r.state == st
  {
    LaterStepNoted(s, g, names, prompt, memory, n, st);
    StepKeepsCoupled(s, g[names[n]], n, n == |names| - 1, st);
    HandoffStepAppends(s, g[names[n]], n, n == |names| - 1, st);
    hide *;
  }

  lemma FirstStepNoted(p: Phase, s: Settings, g: Garage, names: seq<string>, prompt: string, memory: seq<MemoryNote>, textMode: bool)
    requires names != [] && names[0] in g && KeepsText(g[names[0]].backend)
    ensures var st := Start(s, prompt, memory, textMode);
            var r := Step(p, s, g[names[0]], 0, |names| == 1, st);
            r.Running? ==> StepsNoted(s, g, names, prompt, memory, 1, r.state) && r.state.read == Reads(p, s, g[names[0]], st)
  {
    var e, last, st := g[names[0]], |names| == 1, Start(s, prompt, memory, textMode);
    FirstStepsAppend(s, e, last, st);
    FirstNote2(s, e, last, st);
    FirstNote3(s, e, last, st);
    var r := Step(p, s, e, 0, last, st);
    assert r == if p == KVPass then FirstStep2(s, e, last, st) else FirstStep3(s, e, last, st);
    hide Step, FirstStep2, FirstStep3, Reads, Invoked, RecordFits, KeepsText;
    if r.Running? {
      var text := if s.writeMemory then r.state.memory[|st.memory|].text else "";
      var note := MemoryNote(text, RoleValue(e.role), e.name, if last then 1.0 else 0.9);
      if s.writeMemory {
        assert r.state.memory[|memory| + 1] == note;
        assert StepNote(g, names, prompt, memory, r.state, 0);
      }
      StepsNotedOneMore(s, g, names, prompt, memory, 0, st, r.state, note);
    }
  }

  /** How much the first step counts as read: what was asked for, if anything was found and phase 2 could
      encode the plain prompt, or phase 3's expert uses caches at all. */
  function Reads(p: Phase, s: Settings, e: Expert, st: RunState): nat {
    var asks := match p
      case KVPass => e.backend.supportsKvCache && e.backend.encode(st.text).Some?
      case Routing => e.backend.supportsKvCache && !st.textMode;
    if asks && s.retrieveK > 0 && s.retrieve(st.memory, st.text, s.retrieveK) != [] then s.retrieveK else 0
  }

  /** What the first step writes down: the expert, and the prompt it was accounted on or the plain one. */
  ghost predicate FirstNote(p: Phase, s: Settings, e: Expert, last: bool, st: RunState, r: Outcome) {
    r.Running? && |r.state.accounted| == 1 && |r.state.records| == 1 ==>
      && r.state.read == st.read + Reads(p, s, e, st)
      && r.state.written == st.written + (if s.writeMemory then 1 else 0)
      && (!s.writeMemory ==> r.state.memory == st.memory)
      && (s.writeMemory ==>
            && |r.state.memory| == |st.memory| + 1 && st.memory <= r.state.memory
            && var note := r.state.memory[|st.memory|];
               && note == MemoryNote(note.text, RoleValue(e.role), e.name, if last then 1.0 else 0.9)
               && (note.text == st.text || note.text == r.state.accounted[0])
               && (r.state.records[0].usedKvCache ==> note.text == r.state.accounted[0]))
  }

  lemma FirstNote2(s: Settings, e: Expert, last: bool, st: RunState)
    requires KeepsText(e.backend) && st.accounted == [] && st.records == []
    ensures FirstNote(KVPass, s, e, last, st, FirstStep2(s, e, last, st))
  {
    match FirstRequest2(s, e, st)
    case OnText(text) => InvocationCouples(e, Some(text), None, Budget(s, 0), s.clock(0));
    case OnCache(c) => InvocationCouples(e, None, Some(c), Budget(s, 0), s.clock(0));
  }

  lemma FirstNote3(s: Settings, e: Expert, last: bool, st: RunState)
    requires KeepsText(e.backend) && st.accounted == [] && st.records == []
    ensures FirstNote(Routing, s, e, last, st, FirstStep3(s, e, last, st))
  {
    InvocationCouples(e, Some(Augmented(s, st.memory, st.text, s.retrieveK)), None, Budget(s, 0), s.clock(0));
    match FirstRequest3(s, e, st)
    case OnText(_) =>
    case OnCache(c) => InvocationCouples(e, None, Some(c), Budget(s, 0), s.clock(0));
  }

  /** Every run of phases 2 and 3, as far as it gets, notes the user's prompt and then for each step what its
      expert was given, and counts as read what the first expert consulted. */
  lemma RunsAreNoted(s: Settings, g: Garage, names: seq<string>, textHandoff: bool, prompt: string, memory: seq<MemoryNote>)
    requires AllKeepText(g)
    ensures var two := Phase2(s, g, names, prompt, memory).state;
            && StepsNoted(s, g, names, prompt, memory, |two.outputs|, two)
            && two.read == if two.outputs == [] then 0 else Reads(KVPass, s, g[names[0]], Start(s, prompt, memory, false))
    ensures var three := Phase3(s, g, names, textHandoff, prompt, memory).state;
            && StepsNoted(s, g, names, prompt, memory, |three.outputs|, three)
            && three.read == if three.outputs == [] then 0 else Reads(Routing, s, g[names[0]], Start(s, prompt, memory, textHandoff))
  {
    RunIsNoted(KVPass, s, g, names, false, prompt, memory);
    RunIsNoted(Routing, s, g, names, textHandoff, prompt, memory);
  }

  lemma RunIsNoted(p: Phase, s: Settings, g: Garage, names: seq<string>, textMode: bool, prompt: string, memory: seq<MemoryNote>)
    requires AllKeepText(g)
    requires p == KVPass ==> !textMode
    ensures var r := Steps(p, s, g, names, 0, Start(s, prompt, memory, textMode)).state;
            && StepsNoted(s, g, names, prompt, memory, |r.outputs|, r)
            && r.read == if r.outputs == [] then 0 else Reads(p, s, g[names[0]], Start(s, prompt, memory, textMode))
  {
    var st := Start(s, prompt, memory, textMode);
    assert StepsNoted(s, g, names, prompt, memory, 0, st);
    if names != [] && names[0] in g {
      var e, last := g[names[0]], |names| == 1;
      var step := Step(p, s, e, 0, last, st);
      FirstStepNoted(p, s, g, names, prompt, memory, textMode);
      FirstStepsCouple(s, e, last, st);
      FirstStepsAppend(s, e, last, st);
      assert step == if p == KVPass then FirstStep2(s, e, last, st) else FirstStep3(s, e, last, st);
      hide Step, FirstStep2, FirstStep3, StepsNoted, Coupled, Reads, Invoked, RecordFits;
      if step.Running? {
        LaterStepsNoted(p, s, g, names, prompt, memory, 1, step.state);
        AccountedGrows(p, s, g, names, 1, step.state);
        var r := Steps(p, s, g, names, 1, step.state).state;
        NotedLengths(s, g, names, prompt, memory, |r.outputs|, r);
        NotedLengths(s, g, names, prompt, memory, 1, step.state);
      }
    }
  }

  lemma NotedLengths(s: Settings, g: Garage, names: seq<string>, prompt: string, memory: seq<MemoryNote>, n: nat, st: RunState)
    requires StepsNoted(s, g, names, prompt, memory, n, st)
    ensures |st.outputs| == |st.accounted| == n
  {
  }
}
