/** Properties that span components: routers and pipelines, the key store and the stream. */
module EndToEnd {
  import opened Wrappers
  import opened Experts
  import opened Handoff
  import opened HandoffAccounts
  import Pipelines
  import Routers
  import EncryptedBlocks
  import Sessions
  import CrypticStreams
  import KeyStores

  // ---------- Routed runs ----------

  function Candidates(experts: seq<Expert>): (pool: seq<Routers.Candidate>)
    ensures |pool| == |experts|
    ensures forall i :: 0 <= i < |pool| ==> pool[i] == Routers.Candidate(experts[i].name, experts[i].role)
  {
    seq(|experts|, i requires 0 <= i < |experts| => Routers.Candidate(experts[i].name, experts[i].role))
  }

  /** With unique names, the garage holds under each name the expert the routers saw. */
  lemma {:induction false} GarageMatchesPool(experts: seq<Expert>, i: nat)
    requires Routers.UniqueNames(Candidates(experts)) && i < |experts|
    ensures experts[i].name in Pipelines.GarageOf(experts) && Pipelines.GarageOf(experts)[experts[i].name] == experts[i]
  {
    var n := |experts| - 1;
    if i < n {
      assert forall j :: 0 <= j < n ==> Candidates(experts[..n])[j] == Candidates(experts)[j];
      GarageMatchesPool(experts[..n], i);
      assert Candidates(experts)[i].name != Candidates(experts)[n].name;
    }
  }

  /** Every run of phase 3 over a router's selection finds all its experts, and if the selection ends in
      the forced role, the answer of a finished run was recorded for an expert of that role. */
  lemma RoutedRun(s: Settings, experts: seq<Expert>, names: seq<string>, forced: Role, textHandoff: bool,
                  prompt: string, memory: seq<MemoryNote>)
    requires Routers.UniqueNames(Candidates(experts)) && Routers.IsSelection(Candidates(experts), names)
    ensures var r := Phase3(s, Pipelines.GarageOf(experts), names, textHandoff, prompt, memory);
            && (r.Raised? ==> r.error != UnknownExpert)
            && (r.Running? && Routers.EndsIn(Candidates(experts), forced, names) ==>
                  |r.state.records| == |names| && r.state.records[|names| - 1].role == forced)
  {
    var g := Pipelines.GarageOf(experts);
    forall k | 0 <= k < |names|
      ensures names[k] in g
    {
      assert names[k] in names;
      var i :| 0 <= i < |experts| && Candidates(experts)[i].name == names[k];
      GarageMatchesPool(experts, i);
    }
    KnownNamesNeverRaise(s, g, names, 0, Start(s, prompt, memory, textHandoff));
    PhasesExplained(s, g, names, textHandoff, prompt, memory);
    if Routers.EndsIn(Candidates(experts), forced, names) {
      var i :| 0 <= i < |experts| && Candidates(experts)[i].role == forced && Candidates(experts)[i].name == names[|names| - 1];
      GarageMatchesPool(experts, i);
    }
  }

  lemma {:induction false} KnownNamesNeverRaise(s: Settings, g: Garage, names: seq<string>, i: nat, st: RunState)
    requires i <= |names| && forall k :: 0 <= k < |names| ==> names[k] in g
    ensures var r := Steps(Routing, s, g, names, i, st); r.Raised? ==> r.error != UnknownExpert
    decreases |names| - i
  {
    if i < |names| {
      var step := Step(Routing, s, g[names[i]], i, i == |names| - 1, st);
      if step.Running? {
        KnownNamesNeverRaise(s, g, names, i + 1, step.state);
      }
    }
  }

  /** With the hybrid router the forced role always has the last word, if the garage has it at all. */
  lemma HybridRunEndsInForced(s: Settings, experts: seq<Expert>, st: Routers.Settings, ls: Routers.Settings, cs: Routers.Settings,
                              lscore: Routers.Scores, cscore: Routers.Scores, union: seq<string>, textHandoff: bool,
                              prompt: string, memory: seq<MemoryNote>)
    requires experts != [] && Routers.UniqueNames(Candidates(experts))
    ensures var pool := Candidates(experts);
            var logistic := Routers.LogisticRoute(ls, lscore, pool);
            var names := Routers.HybridRoute(st, pool, logistic, union);
            var r := Phase3(s, Pipelines.GarageOf(experts), names, textHandoff, prompt, memory);
            Routers.IsUnion(union, logistic, Routers.CosineRoute(cs, cscore, pool)) ==>
              && names != [] && (r.Raised? ==> r.error != UnknownExpert)
              && (r.Running? && Routers.NamesWithRole(pool, st.forced) != {} ==>
                    |r.state.records| == |names| && r.state.records[|names| - 1].role == st.forced)
  {
    var pool := Candidates(experts);
    var logistic := Routers.LogisticRoute(ls, lscore, pool);
    if Routers.IsUnion(union, logistic, Routers.CosineRoute(cs, cscore, pool)) {
      Routers.HybridRouteIs(st, ls, cs, lscore, cscore, pool, union);
      RoutedRun(s, experts, Routers.HybridRoute(st, pool, logistic, union), st.forced, textHandoff, prompt, memory);
    }
  }

  // ---------- Streams under rotating keys ----------

  /** A stream made under a stored key, reordered in any way and kept over any further run of the key
      store, decrypts with the store's decryption keys of that later time if and only if its key is not
      revoked by then. */
  lemma StreamsSurviveRotation(cipher: Sessions.Cipher, run: seq<KeyStores.Op>, more: seq<KeyStores.Op>, id: string,
                               keys: seq<KeyStores.KeyMetadata>, session: EncryptedBlocks.Bytes, data: EncryptedBlocks.Bytes,
                               bs: int, nonces: nat -> EncryptedBlocks.Nonce, arrived: seq<CrypticStreams.StreamBlock>)
    requires cipher.Lawful() && bs > 0
    requires KeyStores.FreshRun(run + more) && id in KeyStores.After(run).files
    ensures var config := KeyStores.ToConfig(KeyStores.After(run).files[id]);
            var later := KeyStores.After(run + more);
            && KeyStores.Lists(keys, later.files) && KeyStores.Usable(keys) != []
            && multiset(arrived) == multiset(CrypticStreams.StreamOf(cipher, config, session, data, bs, nonces))
            ==> (CrypticStreams.Decrypted(cipher, KeyStores.RingOf(KeyStores.Usable(keys)), arrived, session) == Ok(data)
                 <==> !later.IsRevoked(id))
  {
    var config, later := KeyStores.ToConfig(KeyStores.After(run).files[id]), KeyStores.After(run + more);
    if && KeyStores.Lists(keys, later.files) && KeyStores.Usable(keys) != []
       && multiset(arrived) == multiset(CrypticStreams.StreamOf(cipher, config, session, data, bs, nonces))
    {
      var ring := KeyStores.RingOf(KeyStores.Usable(keys));
      KeyStores.NothingIsLost(run, more, id);
      KeyStores.ActiveIdNeverDangles(run);
      KeyStores.ActiveIdNeverDangles(run + more);
      KeyStores.StoreKeyLookup(cipher, later, keys, id, session);
      if later.IsRevoked(id) {
        UnknownKeyFails(cipher, config, ring, session, data, bs, nonces, arrived);
      } else {
        CrypticStreams.ReorderedRoundTrip(cipher, config, ring, session, data, bs, nonces, arrived);
      }
    }
  }

  /** Without the key no arrangement of a stream decrypts. */
  lemma UnknownKeyFails(cipher: Sessions.Cipher, config: Sessions.EncryptionConfig, ring: Sessions.Keyring,
                        session: EncryptedBlocks.Bytes, data: EncryptedBlocks.Bytes, bs: int, nonces: nat -> EncryptedBlocks.Nonce,
                        arrived: seq<CrypticStreams.StreamBlock>)
    requires cipher.Lawful() && bs > 0
    ensures Sessions.KeyFor(cipher, ring, config.keyId, session) == None
            && multiset(arrived) == multiset(CrypticStreams.StreamOf(cipher, config, session, data, bs, nonces))
            ==> CrypticStreams.Decrypted(cipher, ring, arrived, session) == Err(EncryptedBlocks.UnknownKey(config.keyId))
  {
    var stream := CrypticStreams.StreamOf(cipher, config, session, data, bs, nonces);
    if Sessions.KeyFor(cipher, ring, config.keyId, session) == None && multiset(arrived) == multiset(stream) {
      CrypticStreams.InOrder(cipher, config, session, data, bs, nonces, arrived);
      CrypticStreams.StreamShape(cipher, config, session, data, bs, nonces, 0);
      assert CrypticStreams.BlocksOf(stream)[0] == stream[0].block;
    }
  }
}
