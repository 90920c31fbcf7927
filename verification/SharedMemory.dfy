/** The in-memory store: an entry list and an id index over the same mutable entries. */
module SharedMemory {
  import opened Wrappers
  import opened Sorting

  // ---------- Ids ----------

  /** The text an entry's id is the digest of. The digest is taken to be injective, so the
      joined text stands for the id itself. */
  function Joined(role: string, expertName: string, text: string): string {
    role + "|" + expertName + "|" + text
  }

  predicate NoBar(s: string) {
    '|' !in s
  }

  /** While neither role nor expert contains the delimiter, an id names one role, expert and text. */
  lemma JoinedIsInjective(r: string, e: string, t: string, r': string, e': string, t': string)
    requires NoBar(r) && NoBar(e) && NoBar(r') && NoBar(e')
    requires Joined(r, e, t) == Joined(r', e', t')
    ensures r == r' && e == e' && t == t'
  {
    assert Joined(r, e, t) == r + "|" + (e + "|" + t);
    assert Joined(r', e', t') == r' + "|" + (e' + "|" + t');
    UpToFirstBar(r, e + "|" + t, r', e' + "|" + t');
    UpToFirstBar(e, t, e', t');
  }

  lemma UpToFirstBar(a: string, rest: string, a': string, rest': string)
    requires NoBar(a) && NoBar(a')
    requires a + "|" + rest == a' + "|" + rest'
    ensures a == a' && rest == rest'
  {
    var u, u' := a + "|" + rest, a' + "|" + rest';
    assert u[|a|] == '|' && u'[|a'|] == '|';
    assert forall k :: 0 <= k < |a| ==> u[k] == a[k] != '|';
    assert forall k :: 0 <= k < |a'| ==> u'[k] == a'[k] != '|';
    assert a == u[..|a|] && a' == u'[..|a'|];
    assert rest == u[|a| + 1..] && rest' == u'[|a'| + 1..];
  }

  lemma SameIdSameText(r: string, e: string, t: string, t': string)
    ensures Joined(r, e, t) == Joined(r, e, t') <==> t == t'
  {
    var front := r + "|" + e + "|";
    assert Joined(r, e, t)[|front|..] == t && Joined(r, e, t')[|front|..] == t';
  }

  /** The text splits at its first bar. */
  lemma FirstBar(s: string) returns (front: string, rest: string)
    requires !NoBar(s)
    ensures NoBar(front) && s == front + "|" + rest
  {
    var i: nat :| i < |s| && s[i] == '|' && forall j :: 0 <= j < i ==> s[j] != '|' by {
      LeastBar(s, |s|);
    }
    front, rest := s[..i], s[i + 1..];
  }

  lemma {:induction false} LeastBar(s: string, n: nat)
    requires n <= |s| && exists i :: 0 <= i < n && s[i] == '|'
    ensures exists i: nat :: i < n && s[i] == '|' && forall j :: 0 <= j < i ==> s[j] != '|'
  {
    if exists i :: 0 <= i < n - 1 && s[i] == '|' {
      LeastBar(s, n - 1);
    } else {
      assert s[n - 1] == '|';
    }
  }

  /** Whatever is written under this role and expert, no clean entry of another role, expert or text
      has its id. */
  ghost predicate Unmistakable(r: string, e: string) {
    forall t, r', e', t' ::
      NoBar(r') && NoBar(e') && Joined(r, e, t) == Joined(r', e', t') ==> r == r' && e == e' && t == t'
  }

  /** A bar in a role or in an expert's name lets a clean entry of another role or expert, with another
      text, get the same id. */
  lemma BarsCollide(r: string, e: string, t: string) returns (r': string, e': string, t': string)
    requires !(NoBar(r) && NoBar(e))
    ensures NoBar(r') && NoBar(e') && (r' != r || e' != e) && |t'| > |t|
    ensures Joined(r, e, t) == Joined(r', e', t')
  {
    if NoBar(r) {
      var x, y := FirstBar(e);
      r', e', t' := r, x, y + "|" + t;
      assert Joined(r, e, t) == Joined(r', e', t');
    } else {
      var x, y := FirstBar(r);
      var rest := y + "|" + e;
      r' := x;
      if NoBar(y) {
        e', t' := y, e + "|" + t;
        assert Joined(r, e, t) == x + "|" + y + "|" + e + "|" + t;
      } else {
        var u, v := FirstBar(y);
        e', t' := u, v + "|" + e + "|" + t;
        assert Joined(r, e, t) == x + "|" + u + "|" + v + "|" + e + "|" + t;
      }
    }
  }

  /** So ids tell entries apart if and only if role and expert are free of the delimiter. */
  lemma UnmistakableIff(r: string, e: string)
    ensures Unmistakable(r, e) <==> NoBar(r) && NoBar(e)
  {
    if NoBar(r) && NoBar(e) {
      forall t, r', e', t' | NoBar(r') && NoBar(e') && Joined(r, e, t) == Joined(r', e', t')
        ensures r == r' && e == e' && t == t'
      {
        JoinedIsInjective(r, e, t, r', e', t');
      }
    } else {
      var r', e', t' := BarsCollide(r, e, "");
    }
  }

  // ---------- Entries ----------

  datatype MemoryEntry = MemoryEntry(
    role: string, expertName: string, text: string, confidence: real, metadata: map<string, string>)
  {
    function Id(): string {
      Joined(role, expertName, text)
    }

    /** Role and expert are free of the id's delimiter. */
    predicate Clean() {
      NoBar(role) && NoBar(expertName)
    }

    /** What a second write under the same id leaves of this entry. */
    function UpdatedBy(entry: MemoryEntry): MemoryEntry {
      this.(text := entry.text, confidence := entry.confidence, metadata := metadata + entry.metadata)
    }
  }

  predicate HasId(es: seq<MemoryEntry>, id: string) {
    exists i :: 0 <= i < |es| && es[i].Id() == id
  }

  /** The list after a write: one entry more, or the one with that id updated in its place. */
  function AfterWrite(es: seq<MemoryEntry>, entry: MemoryEntry): seq<MemoryEntry> {
    if HasId(es, entry.Id())
    then seq(|es|, i requires 0 <= i < |es| => if es[i].Id() == entry.Id() then es[i].UpdatedBy(entry) else es[i])
    else es + [entry]
  }

  /** What was written is there with its text and confidence, and the entries of other ids are too. */
  lemma WriteHolds(es: seq<MemoryEntry>, entry: MemoryEntry)
    ensures exists e :: e in AfterWrite(es, entry) && e.text == entry.text && e.confidence == entry.confidence
    ensures forall e :: e in es && e.Id() != entry.Id() ==> e in AfterWrite(es, entry)
    ensures |AfterWrite(es, entry)| == if HasId(es, entry.Id()) then |es| else |es| + 1
  {
    var stored := AfterWrite(es, entry);
    if HasId(es, entry.Id()) {
      var i :| 0 <= i < |es| && es[i].Id() == entry.Id();
      assert stored[i] == es[i].UpdatedBy(entry) && stored[i] in stored;
    } else {
      assert stored[|es|] == entry && entry in stored;
    }
    forall e | e in es && e.Id() != entry.Id()
      ensures e in stored
    {
      var i :| 0 <= i < |es| && es[i] == e;
      assert stored[i] == e;
    }
  }

  ghost predicate DistinctIds(es: seq<MemoryEntry>) {
    forall i, j :: 0 <= i < j < |es| ==> es[i].Id() != es[j].Id()
  }

  /** List and index hold the same entries, each once and under its own id. */
  ghost predicate Consistent(es: seq<MemoryEntry>, index: map<string, MemoryEntry>) {
    && DistinctIds(es)
    && (forall e :: e in es ==> e.Id() in index && index[e.Id()] == e)
    && (forall id :: id in index ==> index[id] in es && index[id].Id() == id)
  }

  lemma HasIdIff(es: seq<MemoryEntry>, index: map<string, MemoryEntry>, id: string)
    requires Consistent(es, index)
    ensures HasId(es, id) <==> id in index
  {
    if id in index {
      var i :| 0 <= i < |es| && es[i] == index[id];
    }
    if HasId(es, id) {
      var i :| 0 <= i < |es| && es[i].Id() == id;
      assert es[i] in es;
    }
  }

  /** So the list is as long as the index has ids. */
  lemma ConsistentCount(es: seq<MemoryEntry>, index: map<string, MemoryEntry>)
    requires Consistent(es, index)
    ensures |es| == |index|
  {
    var ids := seq(|es|, i requires 0 <= i < |es| => es[i].Id());
    assert (set id | id in ids) == index.Keys by {
      forall id | id in index
        ensures id in ids
      {
        var i :| 0 <= i < |es| && es[i] == index[id];
        assert ids[i] == id;
      }
      forall id | id in ids
        ensures id in index
      {
        var i :| 0 <= i < |ids| && ids[i] == id;
        assert es[i] in es;
      }
    }
    DistinctCount(ids);
  }

  /** The index built from a list. */
  function IndexOf(es: seq<MemoryEntry>): map<string, MemoryEntry> {
    if |es| == 0 then map[] else IndexOf(es[..|es| - 1])[es[|es| - 1].Id() := es[|es| - 1]]
  }

  lemma {:induction false} IndexOfHolds(es: seq<MemoryEntry>)
    requires DistinctIds(es)
    ensures forall e :: e in es ==> e.Id() in IndexOf(es) && IndexOf(es)[e.Id()] == e
    ensures forall id :: id in IndexOf(es) ==> IndexOf(es)[id] in es && IndexOf(es)[id].Id() == id
  {
    if |es| > 0 {
      IndexOfHolds(es[..|es| - 1]);
    }
  }

  /** A list determines the index it is consistent with. */
  lemma IndexIsDetermined(es: seq<MemoryEntry>, index: map<string, MemoryEntry>)
    requires Consistent(es, index)
    ensures IndexOf(es) == index
  {
    IndexOfHolds(es);
    forall id | id in index
      ensures id in IndexOf(es) && IndexOf(es)[id] == index[id]
    {
      assert index[id] in es;
    }
    forall id | id in IndexOf(es)
      ensures id in index
    {
      assert IndexOf(es)[id] in es;
    }
  }

  /** The entries without some ids, in list order. */
  function Kept(es: seq<MemoryEntry>, ids: set<string>): (r: seq<MemoryEntry>)
    ensures |r| <= |es| && forall e :: e in r <==> e in es && e.Id() !in ids
  {
    if |es| == 0 then []
    else
      var last := es[|es| - 1];
      assert es == es[..|es| - 1] + [last];
      var front := Kept(es[..|es| - 1], ids);
      if last.Id() in ids then front else front + [last]
  }

  lemma KeptStaysConsistent(es: seq<MemoryEntry>, index: map<string, MemoryEntry>, ids: set<string>)
    requires Consistent(es, index)
    ensures Consistent(Kept(es, ids), index - ids)
  {
    KeptStaysDistinct(es, ids);
    forall id | id in index - ids
      ensures index[id] in Kept(es, ids)
    {
      assert index[id] in es;
    }
  }

  lemma {:induction false} KeptStaysDistinct(es: seq<MemoryEntry>, ids: set<string>)
    requires DistinctIds(es)
    ensures DistinctIds(Kept(es, ids))
  {
    if |es| > 0 {
      var front, last := es[..|es| - 1], es[|es| - 1];
      KeptStaysDistinct(front, ids);
      forall e | e in Kept(front, ids)
        ensures e.Id() != last.Id()
      {
        assert e in front;
      }
    }
  }

  /** The entries a retrieval may return, in list order. */
  function Matching(es: seq<MemoryEntry>, role: Option<string>, minConfidence: real): seq<MemoryEntry> {
    if |es| == 0 then []
    else
      var front, last := Matching(es[..|es| - 1], role, minConfidence), es[|es| - 1];
      if (role.None? || last.role == role.value) && last.confidence >= minConfidence then front + [last] else front
  }

  /** Filtering goes through the list in order: it may be done part by part. */
  lemma {:induction false} KeptInOrder(a: seq<MemoryEntry>, b: seq<MemoryEntry>, ids: set<string>)
    ensures Kept(a + b, ids) == Kept(a, ids) + Kept(b, ids)
  {
    if |b| == 0 {
      assert a + b == a;
    } else {
      assert (a + b)[..|a + b| - 1] == a + b[..|b| - 1];
      KeptInOrder(a, b[..|b| - 1], ids);
    }
  }

  lemma {:induction false} MatchingInOrder(a: seq<MemoryEntry>, b: seq<MemoryEntry>, role: Option<string>, minConfidence: real)
    ensures Matching(a + b, role, minConfidence) == Matching(a, role, minConfidence) + Matching(b, role, minConfidence)
  {
    if |b| == 0 {
      assert a + b == a;
    } else {
      assert (a + b)[..|a + b| - 1] == a + b[..|b| - 1];
      MatchingInOrder(a, b[..|b| - 1], role, minConfidence);
    }
  }

  /** An entry is retrievable unless a wanted role is not its own or its confidence is below the minimum. */
  lemma {:induction false} MatchingAre(es: seq<MemoryEntry>, role: Option<string>, minConfidence: real, e: MemoryEntry)
    ensures multiset(Matching(es, role, minConfidence))[e]
         == if role in {None, Some(e.role)} && minConfidence <= e.confidence then multiset(es)[e] else 0
  {
    if |es| > 0 {
      MatchingAre(es[..|es| - 1], role, minConfidence, e);
      assert es == es[..|es| - 1] + [es[|es| - 1]];
    }
  }

  /** What a second write leaves: role and expert, the new text and confidence, the new metadata and
      the old where there is no new one. */
  lemma UpdateLeaves(old_: MemoryEntry, entry: MemoryEntry, key: string)
    ensures var e := old_.UpdatedBy(entry);
            && e.role == old_.role && e.expertName == old_.expertName
            && e.text == entry.text && e.confidence == entry.confidence
            && (key in e.metadata <==> key in old_.metadata || key in entry.metadata)
            && (key in e.metadata ==> e.metadata[key] == if key in entry.metadata then entry.metadata[key] else old_.metadata[key])
            && e.UpdatedBy(entry) == e
  {
  }

  // ---------- Ranking ----------

  /** Position `i` is in the slice up to `k` if it lies before `k`, counted from the end if `k` is negative. */
  lemma SliceHas(n: nat, k: int, i: nat)
    requires i < n
    ensures i < SliceEnd(n, k) <==> if k >= 0 then i < k else i - n < k
  {
  }

  /** How many of `n` elements the slice up to `k` has. */
  function SliceEnd(n: nat, k: int): (m: nat)
    ensures m <= n
  {
    if k >= n then n else if k >= 0 then k else if n + k >= 0 then n + k else 0
  }

  function Negated<T>(p: (real, T)): real {
    -p.0
  }

  /** Entries with their similarities. */
  function Scored(sim: string -> real, es: seq<MemoryEntry>): (ps: seq<(real, MemoryEntry)>)
    ensures |ps| == |es| && forall i :: 0 <= i < |ps| ==> ps[i] == (sim(es[i].text), es[i])
  {
    seq(|es|, i requires 0 <= i < |es| => (sim(es[i].text), es[i]))
  }

  function Seconds(ps: seq<(real, MemoryEntry)>): seq<MemoryEntry> {
    seq(|ps|, i requires 0 <= i < |ps| => ps[i].1)
  }

  /** Most similar first. */
  function Dissimilarity(sim: string -> real): MemoryEntry -> real {
    (e: MemoryEntry) => -sim(e.text)
  }

  /** The slice up to `k` of the entries, most similar first; equally similar ones keep their order. */
  function Best(sim: string -> real, es: seq<MemoryEntry>, k: int): seq<MemoryEntry> {
    var ranked := Sort(Dissimilarity(sim), es);
    ranked[..SliceEnd(|ranked|, k)]
  }

  lemma {:induction false} InsertScored(sim: string -> real, e: MemoryEntry, es: seq<MemoryEntry>)
    ensures Insert(Negated, (sim(e.text), e), Scored(sim, es)) == Scored(sim, Insert(Dissimilarity(sim), e, es))
  {
    if |es| == 0 || Dissimilarity(sim)(e) <= Dissimilarity(sim)(es[0]) {
      assert Scored(sim, [e] + es) == [(sim(e.text), e)] + Scored(sim, es);
    } else {
      InsertScored(sim, e, es[1..]);
      assert Scored(sim, es)[1..] == Scored(sim, es[1..]);
      var rest := Insert(Dissimilarity(sim), e, es[1..]);
      assert Scored(sim, [es[0]] + rest) == [(sim(es[0].text), es[0])] + Scored(sim, rest);
    }
  }

  /** Ranking entries by a score kept beside them is ranking the entries. */
  lemma {:induction false} SortScored(sim: string -> real, es: seq<MemoryEntry>)
    ensures Sort(Negated, Scored(sim, es)) == Scored(sim, Sort(Dissimilarity(sim), es))
  {
    if |es| > 0 {
      SortScored(sim, es[1..]);
      assert Scored(sim, es)[1..] == Scored(sim, es[1..]);
      InsertScored(sim, es[0], Sort(Dissimilarity(sim), es[1..]));
    }
  }

  /** `r` is a best-first choice of `n` from `all`, and nothing left out beats a chosen one. */
  ghost predicate Top(sim: string -> real, all: seq<MemoryEntry>, n: nat, r: seq<MemoryEntry>) {
    && |r| == n && multiset(r) <= multiset(all)
    && (forall i, j :: 0 <= i < j < |r| ==> sim(r[i].text) >= sim(r[j].text))
    && (forall e, i :: e in multiset(all) - multiset(r) && 0 <= i < |r| ==> sim(r[i].text) >= sim(e.text))
  }

  lemma RankedDescends(sim: string -> real, es: seq<MemoryEntry>)
    ensures var ranked := Sort(Dissimilarity(sim), es);
            && multiset(ranked) == multiset(es) && |ranked| == |es|
            && Descends(sim, ranked)
  {
    var key, ranked := Dissimilarity(sim), Sort(Dissimilarity(sim), es);
    SortSorts(key, es);
    SameElements(ranked, es);
    forall i, j | 0 <= i < j < |ranked|
      ensures sim(ranked[i].text) >= sim(ranked[j].text)
    {
      assert key(ranked[i]) <= key(ranked[j]);
    }
  }

  /** What is missing from the front of a sequence stands behind it. */
  lemma StandsBehind(ranked: seq<MemoryEntry>, n: nat, e: MemoryEntry) returns (j: nat)
    requires n <= |ranked| && e in multiset(ranked) - multiset(ranked[..n])
    ensures n <= j < |ranked| && ranked[j] == e
  {
    var rest := ranked[n..];
    assert ranked == ranked[..n] + rest;
    assert e in multiset(rest);
    var k :| 0 <= k < |rest| && rest[k] == e;
    j := n + k;
  }

  lemma FrontIsPart(ranked: seq<MemoryEntry>, n: nat)
    requires n <= |ranked|
    ensures multiset(ranked[..n]) <= multiset(ranked)
  {
    assert ranked == ranked[..n] + ranked[n..];
  }

  ghost predicate Descends(sim: string -> real, es: seq<MemoryEntry>) {
    forall i, j :: 0 <= i < j < |es| ==> sim(es[i].text) >= sim(es[j].text)
  }

  lemma LeftOutIsNoBetter(sim: string -> real, ranked: seq<MemoryEntry>, n: nat, e: MemoryEntry, i: nat)
    requires Descends(sim, ranked) && i < n <= |ranked| && e in multiset(ranked) - multiset(ranked[..n])
    ensures sim(ranked[i].text) >= sim(e.text)
  {
    var j := StandsBehind(ranked, n, e);
  }

  lemma BestIsTop(sim: string -> real, es: seq<MemoryEntry>, k: int)
    ensures Top(sim, es, SliceEnd(|es|, k), Best(sim, es, k))
  {
    var ranked, n := Sort(Dissimilarity(sim), es), SliceEnd(|es|, k);
    RankedDescends(sim, es);
    TopOfRanking(sim, ranked, n);
    assert Best(sim, es, k) == ranked[..n];
  }

  lemma TopOfRanking(sim: string -> real, ranked: seq<MemoryEntry>, n: nat)
    requires Descends(sim, ranked) && n <= |ranked|
    ensures forall all :: multiset(all) == multiset(ranked) ==> Top(sim, all, n, ranked[..n])
  {
    FrontIsPart(ranked, n);
    forall e, i | e in multiset(ranked) - multiset(ranked[..n]) && 0 <= i < n
      ensures sim(ranked[i].text) >= sim(e.text)
    {
      LeftOutIsNoBetter(sim, ranked, n, e, i);
    }
  }

  // ---------- The store ----------

  class InMemoryMemory {
    var entries: seq<MemoryEntry>
    var index: map<string, MemoryEntry>

    ghost predicate Valid()
      reads this
    {
      Consistent(entries, index)
    }

    constructor ()
      ensures Valid() && entries == [] && index == map[]
    {
      entries, index := [], map[];
    }

    /** A new id is appended; a known one is updated in its place, through list and index alike.
        That keeps list and index in agreement exactly when the entry found has the same text: a
        different text under the same id takes the id away from the entry. */
    method Write(entry: MemoryEntry) returns (eid: string)
      requires Valid()
      modifies this
      ensures eid == entry.Id()
      ensures Valid() <==> eid !in old(index) || old(index)[eid].text == entry.text
      ensures entries == AfterWrite(old(entries), entry)
      ensures eid !in old(index) ==> entries == old(entries) + [entry] && index == old(index)[eid := entry]
      ensures eid in old(index) ==>
        && index == old(index)[eid := old(index)[eid].UpdatedBy(entry)]
        && |entries| == |old(entries)|
        && forall i :: 0 <= i < |entries| ==>
             entries[i] == (if old(entries)[i].Id() == eid then old(entries)[i].UpdatedBy(entry) else old(entries)[i])
    {
      eid := entry.Id();
      HasIdIff(entries, index, eid);
      if eid !in index {
        entries := entries + [entry];
        index := index[eid := entry];
      } else {
        var i := Find(eid);
        var existing := entries[i].UpdatedBy(entry);
        SameIdSameText(existing.role, existing.expertName, existing.text, entries[i].text);
        entries := entries[i := existing];
        index := index[eid := existing];
        assert entries[i] == existing;
        assert entries == AfterWrite(old(entries), entry);
        assert entries[i].text == old(entries[i]).text ==> forall j :: 0 <= j < |entries| ==> entries[j].Id() == old(entries)[j].Id();
        UpdatedInPlace(old(entries), old(index), i, existing);
      }
    }

    /** Where the entry with a known id is. */
    method Find(eid: string) returns (i: nat)
      requires Valid() && eid in index
      ensures i < |entries| && entries[i] == index[eid] && entries[i].Id() == eid
    {
      ghost var at :| 0 <= at < |entries| && entries[at] == index[eid];
      i := 0;
      while entries[i].Id() != eid
        invariant i <= at
        decreases |entries| - i
      {
        i := i + 1;
      }
    }

    /** Rebuild without the given ids: the store has no delete, so list and index are replaced. */
    method DropIds(ids: set<string>)
      requires Valid()
      modifies this
      ensures Valid() && entries == Kept(old(entries), ids) && index == old(index) - ids
    {
      var kept := KeepOthers(ids);
      var keptIndex := BuildIndex(kept);
      KeptStaysConsistent(entries, index, ids);
      IndexIsDetermined(kept, index - ids);
      entries, index := kept, keptIndex;
    }

    method KeepOthers(ids: set<string>) returns (kept: seq<MemoryEntry>)
      ensures kept == Kept(entries, ids)
    {
      kept := [];
      for i := 0 to |entries|
        invariant kept == Kept(entries[..i], ids)
      {
        assert entries[..i + 1][..i] == entries[..i];
        if entries[i].Id() !in ids {
          kept := kept + [entries[i]];
        }
      }
      assert entries[..|entries|] == entries;
    }

    static method BuildIndex(kept: seq<MemoryEntry>) returns (keptIndex: map<string, MemoryEntry>)
      ensures keptIndex == IndexOf(kept)
    {
      keptIndex := map[];
      for i := 0 to |kept|
        invariant keptIndex == IndexOf(kept[..i])
      {
        assert kept[..i + 1][..i] == kept[..i];
        keptIndex := keptIndex[kept[i].Id() := kept[i]];
      }
      assert kept[..|kept|] == kept;
    }

    method Clear()
      modifies this
      ensures Valid() && entries == [] && index == map[]
    {
      entries, index := [], map[];
    }

    function Count(): nat
      reads this
    {
      |entries|
    }

    /** Matching entries in list order, each with its similarity to the query. */
    method Score(sim: string -> real, role: Option<string>, minConfidence: real)
      returns (scored: seq<(real, MemoryEntry)>)
      ensures scored == Scored(sim, Matching(entries, role, minConfidence))
    {
      scored := [];
      for i := 0 to |entries|
        invariant scored == Scored(sim, Matching(entries[..i], role, minConfidence))
      {
        assert entries[..i + 1][..i] == entries[..i];
        var e := entries[i];
        if (role.None? || e.role == role.value) && e.confidence >= minConfidence {
          scored := scored + [(sim(e.text), e)];
        }
      }
      assert entries[..|entries|] == entries;
    }

    /** The matching entries in the slice up to `k`, most similar first; `sim` is a text's similarity to
        the query. */
    method Retrieve(sim: string -> real, k: int, role: Option<string>, minConfidence: real)
      returns (r: seq<MemoryEntry>)
      ensures r == Best(sim, Matching(entries, role, minConfidence), k)
    {
      var scored := Score(sim, role, minConfidence);
      SortScored(sim, Matching(entries, role, minConfidence));
      var ranked := Seconds(Sort(Negated, scored));
      assert ranked == Sort(Dissimilarity(sim), Matching(entries, role, minConfidence));
      r := ranked[..SliceEnd(|ranked|, k)];
    }
  }

  /** Updating one entry in list and index keeps them consistent exactly when its id stays. */
  lemma UpdatedInPlace(es: seq<MemoryEntry>, index: map<string, MemoryEntry>, i: nat, e: MemoryEntry)
    requires Consistent(es, index) && i < |es|
    ensures Consistent(es[i := e], index[es[i].Id() := e]) <==> e.Id() == es[i].Id()
  {
    var id := es[i].Id();
    var es', index' := es[i := e], index[id := e];
    assert es'[i] == e && e in es' && id in index';
    if e.Id() == id {
      forall x | x in es'
        ensures x.Id() in index' && index'[x.Id()] == x
      {
        var j :| 0 <= j < |es'| && es'[j] == x;
        assert es[j] in es;
      }
      forall k | k in index'
        ensures index'[k] in es' && index'[k].Id() == k
      {
        if k != id {
          var j :| 0 <= j < |es| && es[j] == index[k];
          assert es'[j] == index[k];
        }
      }
    }
  }
}
