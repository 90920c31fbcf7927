/** Tenant isolation, quota and lazy expiry over one store per tenant. */
module TenantMemory {
  import opened Wrappers
  import opened SharedMemory

  // ---------- Expiry on values ----------

  type Times = map<string, real>

  /** The eager view: ids whose last successful write is at most `ttl` old, or all without a TTL. */
  function Live(writes: Times, now: real, ttl: real): set<string> {
    set id | id in writes && (ttl <= 0.0 || now - writes[id] <= ttl)
  }

  /** The ids a sweep at `now` finds expired. */
  function Expired(times: Times, now: real, ttl: real): set<string> {
    if ttl <= 0.0 then {} else set id | id in times && now - times[id] > ttl
  }

  /** The timestamp table lags behind the history of successful writes: it agrees with it where
      it has an entry, and lacks only ids that had expired by `now`. */
  ghost predicate Lags(writes: Times, times: Times, now: real, ttl: real) {
    && (forall id :: id in times ==> id in writes && times[id] == writes[id])
    && (forall id :: id in writes && id !in times ==> ttl > 0.0 && now - writes[id] > ttl)
  }

  /** Sweeping lazily shows what expiring eagerly would: after a sweep the table holds the live
      ids exactly, however long ago the last sweep was. */
  lemma SweepShowsLive(writes: Times, times: Times, before: real, now: real, ttl: real)
    requires Lags(writes, times, before, ttl) && before <= now
    ensures Lags(writes, times - Expired(times, now, ttl), now, ttl)
    ensures (times - Expired(times, now, ttl)).Keys == Live(writes, now, ttl)
  {
  }

  /** The timestamp tables after a sweep of tenant `t`. */
  ghost function Swept(t: string, tables: map<string, Times>, now: real, ttl: real): map<string, Times> {
    if t in tables then tables[t := tables[t] - Expired(tables[t], now, ttl)] else tables
  }

  lemma NothingToSweep(t: string, tables: map<string, Times>, now: real, ttl: real)
    requires t in tables ==> Expired(tables[t], now, ttl) == {}
    ensures Swept(t, tables, now, ttl) == tables
  {
    if t in tables {
      assert tables[t] - {} == tables[t];
    }
  }

  lemma LagsAfterWrite(writes: Times, times: Times, eid: string, now: real, ttl: real)
    requires Lags(writes, times, now, ttl)
    ensures Lags(writes[eid := now], times[eid := now], now, ttl)
  {
  }

  lemma LagsLater(writes: Times, times: Times, before: real, now: real, ttl: real)
    requires Lags(writes, times, before, ttl) && before <= now
    ensures Lags(writes, times, now, ttl)
  {
  }

  // ---------- Runs of one tenant ----------

  /** One access: a look, a store stamped a little later, or clearing everything. */
  datatype Access = Look(at: real) | Store(eid: string, at: real, stamp: real) | Clear

  datatype Answer = Shown(ids: set<string>) | Stored | Rejected | Emptied | Failed

  predicate Full(count: nat, maxEntries: int) {
    maxEntries > 0 && count >= maxEntries
  }

  /** What the implementation has of a tenant: nothing yet, a timestamp table, or, once cleared, only
      the ids in its store. */
  datatype Tenant = Unknown | Timed(times: Times) | Untimed(ids: set<string>)

  /** The ids a tenant shows after a sweep. */
  function Visible(tenant: Tenant): set<string> {
    match tenant
    case Unknown => {}
    case Timed(times) => times.Keys
    case Untimed(ids) => ids
  }

  function Sweep(tenant: Tenant, now: real, ttl: real): Tenant {
    match tenant
    case Timed(times) => Timed(times - Expired(times, now, ttl))
    case _ => tenant
  }

  /** Looking at a tenant, or storing for it, creates it. */
  function Created(tenant: Tenant): Tenant {
    if tenant.Unknown? then Timed(map[]) else tenant
  }

  /** The implementation: a table that is swept on access and thrown away when cleared. */
  function LazyRun(tenant: Tenant, run: seq<Access>, maxEntries: int, ttl: real): seq<Answer>
    decreases |run|
  {
    if run == [] then []
    else
      match run[0]
      case Look(at) =>
        var swept := Sweep(tenant, at, ttl);
        [Shown(Visible(swept))] + LazyRun(Created(swept), run[1..], maxEntries, ttl)
      case Store(eid, at, stamp) =>
        var swept := Sweep(tenant, at, ttl);
        if Full(|Visible(swept)|, maxEntries) then [Rejected] + LazyRun(swept, run[1..], maxEntries, ttl)
        else (match Created(swept)
              case Timed(times) => [Stored] + LazyRun(Timed(times[eid := stamp]), run[1..], maxEntries, ttl)
              case Untimed(ids) => [Failed] + LazyRun(Untimed(ids + {eid}), run[1..], maxEntries, ttl))
      case Clear =>
        [Emptied] + LazyRun(if tenant.Unknown? then tenant else Untimed({}), run[1..], maxEntries, ttl)
  }

  /** The promise: nothing but clearing makes it forget, and age alone decides what is seen and counted. */
  function EagerRun(writes: Times, run: seq<Access>, maxEntries: int, ttl: real): seq<Answer>
    decreases |run|
  {
    if run == [] then []
    else
      match run[0]
      case Look(at) => [Shown(Live(writes, at, ttl))] + EagerRun(writes, run[1..], maxEntries, ttl)
      case Store(eid, at, stamp) =>
        if Full(|Live(writes, at, ttl)|, maxEntries) then [Rejected] + EagerRun(writes, run[1..], maxEntries, ttl)
        else [Stored] + EagerRun(writes[eid := stamp], run[1..], maxEntries, ttl)
      case Clear => [Emptied] + EagerRun(map[], run[1..], maxEntries, ttl)
  }

  /** The clock never goes back, within an access or between two. */
  ghost predicate Monotone(now: real, run: seq<Access>)
    decreases |run|
  {
    run != [] ==>
      match run[0]
      case Look(at) => now <= at && Monotone(at, run[1..])
      case Store(_, at, stamp) => now <= at <= stamp && Monotone(stamp, run[1..])
      case Clear => Monotone(now, run[1..])
  }

  predicate NoStores(run: seq<Access>) {
    run == [] || (!run[0].Store? && NoStores(run[1..]))
  }

  /** Nothing is stored after an existing tenant was cleared. */
  predicate NoStoreAfterClear(known: bool, run: seq<Access>)
    decreases |run|
  {
    run == [] ||
    if run[0].Clear? then (if known then NoStores(run[1..]) else NoStoreAfterClear(false, run[1..]))
    else NoStoreAfterClear(true, run[1..])
  }

  /** The implementation knows what the promise needs. */
  ghost predicate Knows(tenant: Tenant, writes: Times, now: real, ttl: real) {
    match tenant
    case Unknown => writes == map[]
    case Timed(times) => Lags(writes, times, now, ttl)
    case Untimed(ids) => ids == {} && writes == map[]
  }

  /** What sweeping does to what is known. */
  lemma SweepKnows(tenant: Tenant, writes: Times, before: real, now: real, ttl: real)
    requires Knows(tenant, writes, before, ttl) && before <= now
    ensures Visible(Sweep(tenant, now, ttl)) == Live(writes, now, ttl)
    ensures Knows(Sweep(tenant, now, ttl), writes, now, ttl) && Knows(Created(Sweep(tenant, now, ttl)), writes, now, ttl)
  {
    if tenant.Timed? {
      SweepShowsLive(writes, tenant.times, before, now, ttl);
    }
  }

  /** A cleared tenant answers like an empty one until something is stored: that store fails. */
  lemma {:induction false} ClearedUntilStore(run: seq<Access>, now: real, maxEntries: int, ttl: real)
    requires Monotone(now, run)
    ensures LazyRun(Untimed({}), run, maxEntries, ttl) == EagerRun(map[], run, maxEntries, ttl) <==> NoStores(run)
    decreases |run|
  {
    if run != [] {
      match run[0]
      case Look(at) =>
        assert Live(map[], at, ttl) == {};
        ClearedUntilStore(run[1..], at, maxEntries, ttl);
        SameTail(Shown({}), LazyRun(Untimed({}), run[1..], maxEntries, ttl), EagerRun(map[], run[1..], maxEntries, ttl));
      case Store(eid, at, stamp) =>
        assert Live(map[], at, ttl) == {};
        DifferentHead(Failed, LazyRun(Untimed({} + {eid}), run[1..], maxEntries, ttl),
                      Stored, EagerRun(map[][eid := stamp], run[1..], maxEntries, ttl));
      case Clear =>
        ClearedUntilStore(run[1..], now, maxEntries, ttl);
        SameTail(Emptied, LazyRun(Untimed({}), run[1..], maxEntries, ttl), EagerRun(map[], run[1..], maxEntries, ttl));
    }
  }

  lemma SameTail(x: Answer, a: seq<Answer>, b: seq<Answer>)
    ensures [x] + a == [x] + b <==> a == b
  {
    assert ([x] + a)[1..] == a && ([x] + b)[1..] == b;
  }

  lemma DifferentHead(x: Answer, a: seq<Answer>, y: Answer, b: seq<Answer>)
    requires x != y
    ensures [x] + a != [y] + b
  {
    assert ([x] + a)[0] == x && ([y] + b)[0] == y;
  }

  /** Over every run with a monotone clock lazy sweeping and eager expiry answer alike, quota rejections
      included, if and only if nothing is stored after the tenant was cleared. */
  lemma {:induction false} LazyRefinesEager(tenant: Tenant, writes: Times, now: real, run: seq<Access>, maxEntries: int, ttl: real)
    requires !tenant.Untimed? && Knows(tenant, writes, now, ttl) && Monotone(now, run)
    ensures LazyRun(tenant, run, maxEntries, ttl) == EagerRun(writes, run, maxEntries, ttl)
       <==> NoStoreAfterClear(tenant.Timed?, run)
    decreases |run|
  {
    if run != [] {
      match run[0]
      case Look(at) =>
        LookStep(tenant, writes, now, run, maxEntries, ttl);
      case Store(eid, at, stamp) =>
        StoreStep(tenant, writes, now, run, maxEntries, ttl);
      case Clear =>
        var rest := if tenant.Unknown? then tenant else Untimed({});
        if tenant.Unknown? {
          LazyRefinesEager(tenant, map[], now, run[1..], maxEntries, ttl);
        } else {
          ClearedUntilStore(run[1..], now, maxEntries, ttl);
        }
        SameTail(Emptied, LazyRun(rest, run[1..], maxEntries, ttl), EagerRun(map[], run[1..], maxEntries, ttl));
    }
  }

  lemma LookStep(tenant: Tenant, writes: Times, now: real, run: seq<Access>, maxEntries: int, ttl: real)
    requires !tenant.Untimed? && Knows(tenant, writes, now, ttl) && Monotone(now, run)
    requires run != [] && run[0].Look?
    ensures LazyRun(tenant, run, maxEntries, ttl) == EagerRun(writes, run, maxEntries, ttl)
       <==> NoStoreAfterClear(tenant.Timed?, run)
    decreases |run|, 0
  {
    var at := run[0].at;
    var next := Created(Sweep(tenant, at, ttl));
    SweepKnows(tenant, writes, now, at, ttl);
    LazyRefinesEager(next, writes, at, run[1..], maxEntries, ttl);
    SameTail(Shown(Live(writes, at, ttl)), LazyRun(next, run[1..], maxEntries, ttl), EagerRun(writes, run[1..], maxEntries, ttl));
  }

  lemma StoreStep(tenant: Tenant, writes: Times, now: real, run: seq<Access>, maxEntries: int, ttl: real)
    requires !tenant.Untimed? && Knows(tenant, writes, now, ttl) && Monotone(now, run)
    requires run != [] && run[0].Store?
    ensures LazyRun(tenant, run, maxEntries, ttl) == EagerRun(writes, run, maxEntries, ttl)
       <==> NoStoreAfterClear(tenant.Timed?, run)
    decreases |run|, 0
  {
    var Store(eid, at, stamp) := run[0];
    var swept := Sweep(tenant, at, ttl);
    SweepKnows(tenant, writes, now, at, ttl);
    if Full(|Live(writes, at, ttl)|, maxEntries) {
      if swept.Timed? {
        LagsLater(writes, swept.times, at, stamp, ttl);
      }
      LazyRefinesEager(swept, writes, stamp, run[1..], maxEntries, ttl);
      SameTail(Rejected, LazyRun(swept, run[1..], maxEntries, ttl), EagerRun(writes, run[1..], maxEntries, ttl));
    } else {
      var times := Created(swept).times;
      LagsLater(writes, times, at, stamp, ttl);
      LagsAfterWrite(writes, times, eid, stamp, ttl);
      LazyRefinesEager(Timed(times[eid := stamp]), writes[eid := stamp], stamp, run[1..], maxEntries, ttl);
      SameTail(Stored, LazyRun(Timed(times[eid := stamp]), run[1..], maxEntries, ttl),
               EagerRun(writes[eid := stamp], run[1..], maxEntries, ttl));
    }
  }

  /** An entry is seen up to and including the moment at which it is as old as the TTL; without a TTL it is
      seen forever. */
  lemma ExpiryBoundary(eid: string, stamp: real, later: real, ttl: real)
    requires stamp <= later
    ensures LazyRun(Unknown, [Access.Store(eid, stamp, stamp), Look(later)], 0, ttl)
         == [Stored, Shown(if ttl <= 0.0 || later - stamp <= ttl then {eid} else {})]
  {
    var run := [Access.Store(eid, stamp, stamp), Look(later)];
    assert run[1..] == [Look(later)] && [Look(later)][1..] == [];
    var times: Times := map[eid := stamp];
    assert Sweep(Unknown, stamp, ttl) == Unknown && |Visible(Unknown)| == 0;
    assert LazyRun(Unknown, run, 0, ttl) == [Stored] + LazyRun(Timed(times), [Look(later)], 0, ttl) by {
      assert map[][eid := stamp] == times;
    }
    var swept := Sweep(Timed(times), later, ttl);
    assert Visible(swept) == if ttl <= 0.0 || later - stamp <= ttl then {eid} else {};
    assert LazyRun(Timed(times), [Look(later)], 0, ttl) == [Shown(Visible(swept))] + LazyRun(swept, [], 0, ttl);
  }

  /** With a quota a store is rejected exactly if that many ids are still visible, even one that would
      only rewrite one of them. */
  lemma QuotaBoundary(tenant: Tenant, eid: string, at: real, maxEntries: int, ttl: real)
    ensures LazyRun(tenant, [Access.Store(eid, at, at)], maxEntries, ttl)[0] == Rejected
       <==> maxEntries > 0 && maxEntries <= |Visible(Sweep(tenant, at, ttl))|
  {
  }

  // ---------- The tenants ----------

  datatype WriteResult = Written(eid: string) | QuotaExceeded | KeyErrorRaised

  function TenantKey(tenantId: Option<string>): string {
    if tenantId.None? || tenantId.value == "" then "__default__" else tenantId.value
  }

  /** Without an id, or with an empty one, the default tenant is meant, which has a name too. */
  predicate IsDefault(tenantId: Option<string>) {
    tenantId == None || tenantId == Some("") || tenantId == Some("__default__")
  }

  predicate SameTenant(a: Option<string>, b: Option<string>) {
    a == b || (IsDefault(a) && IsDefault(b))
  }

  /** Two callers share a store exactly if they name the same tenant or both mean the default one. */
  lemma SharesStoreIff(a: Option<string>, b: Option<string>)
    ensures TenantKey(a) == TenantKey(b) <==> SameTenant(a, b)
  {
  }

  /** What a write by tenant `t` adds to: its table, or nothing yet. */
  ghost function Base(t: string, tables: map<string, Times>): Times {
    if t in tables then tables[t] else map[]
  }

  /** The tables after a write by tenant `t` with this result. */
  ghost function Noted(t: string, tables: map<string, Times>, r: WriteResult, stamp: real): map<string, Times> {
    if r.Written? then tables[t := Base(t, tables)[r.eid := stamp]] else tables
  }

  /** A store fit for a tenant: consistent and within the quota. */
  ghost predicate Sound(es: seq<MemoryEntry>, index: map<string, MemoryEntry>, maxEntries: int) {
    Consistent(es, index) && (maxEntries > 0 ==> |es| <= maxEntries)
  }

  /** The index has the entry's id for another text. */
  predicate Mistaken(index: map<string, MemoryEntry>, entry: MemoryEntry) {
    entry.Id() in index && index[entry.Id()].text != entry.text
  }

  /** Among entries whose role and expert are free of the delimiter that never happens. */
  lemma CleanEntriesAreNotMistaken(es: seq<MemoryEntry>, index: map<string, MemoryEntry>, entry: MemoryEntry)
    requires Consistent(es, index) && entry.Clean() && forall e :: e in es ==> e.Clean()
    ensures !Mistaken(index, entry)
  {
    if entry.Id() in index {
      var found := index[entry.Id()];
      assert found in es && found.Clean() && found.Id() == entry.Id();
      JoinedIsInjective(found.role, found.expertName, found.text, entry.role, entry.expertName, entry.text);
    }
  }

  lemma {:induction false} KeptAll(es: seq<MemoryEntry>)
    ensures Kept(es, {}) == es
  {
    if |es| > 0 {
      KeptAll(es[..|es| - 1]);
    }
  }

  /** The ids a sweep at `now` takes away from tenant `t`. */
  function Gone(t: string, tables: map<string, Times>, now: real, ttl: real): set<string> {
    if t in tables then Expired(tables[t], now, ttl) else {}
  }

  /** The id index has the ids of the timestamp table, which lags behind the successful writes. */
  ghost predicate Stamped(ids: set<string>, times: Times, writes: Times, now: real, ttl: real) {
    ids == times.Keys && Lags(writes, times, now, ttl)
  }

  /** Sweeping and noting a write touch one tenant's table. */
  lemma TablesElsewhere(t: string, tables: map<string, Times>, now: real, ttl: real, r: WriteResult, stamp: real)
    ensures Swept(t, tables, now, ttl) - {t} == tables - {t} && Noted(t, tables, r, stamp) - {t} == tables - {t}
  {
  }

  lemma NothingSwept(t: string, tables: map<string, Times>, now: real, ttl: real)
    ensures t !in tables ==> Swept(t, tables, now, ttl) == tables
  {
  }

  lemma NothingNoted(t: string, tables: map<string, Times>, stamp: real)
    ensures Noted(t, tables, QuotaExceeded, stamp) == tables
  {
  }

  lemma UpdateElsewhere<V>(m: map<string, V>, t: string, v: V)
    ensures m[t := v] - {t} == m - {t}
  {
  }

  class MultiTenantMemory {
    const maxEntries: int
    const ttl: real
    var tenants: map<string, InMemoryMemory>
    var entryTimes: map<string, Times>
    /** Every successful write of a tenant since it was created or cleared, by id, with its latest time. */
    ghost var writes: map<string, Times>
    /** The latest clock reading. */
    ghost var now: real

    /** Tenants have stores of their own, all of them sound. */
    ghost predicate StoresValid()
      reads this`tenants, tenants.Values
    {
      && (forall t, u :: t in tenants && u in tenants && t != u ==> tenants[t] != tenants[u])
      && (forall t :: t in tenants ==> Sound(tenants[t].entries, tenants[t].index, maxEntries))
    }

    /** Every timestamp table is right, except perhaps that of tenant `except`. */
    ghost predicate TimesValidBut(except: Option<string>)
      reads this`tenants, this`entryTimes, this`writes, this`now, tenants.Values
    {
      && (forall t :: t in writes ==> t in tenants)
      && (forall t :: t in entryTimes ==> t in tenants && t in writes)
      && (forall t :: t in entryTimes && Some(t) != except ==>
            Stamped(tenants[t].index.Keys, entryTimes[t], writes[t], now, ttl))
    }

    ghost predicate Valid()
      reads this, tenants.Values
    {
      StoresValid() && TimesValidBut(None)
    }

    /** The tenant has a store, but its timestamp table was thrown away. */
    ghost predicate Cleared(t: string)
      reads this`tenants, this`entryTimes
    {
      t in tenants && t !in entryTimes
    }

    /** The store of a tenant, if it has one yet. */
    ghost function StoreOf(t: string): set<InMemoryMemory>
      reads this`tenants
    {
      if t in tenants then {tenants[t]} else {}
    }

    constructor (maxEntries: int, ttl: real)
      ensures Valid() && tenants == map[] && entryTimes == map[] && writes == map[]
      ensures this.maxEntries == maxEntries && this.ttl == ttl
    {
      this.maxEntries, this.ttl := maxEntries, ttl;
      tenants, entryTimes, writes, now := map[], map[], map[], 0.0;
    }

    /** Time passes: nothing that had expired becomes live again. */
    ghost method AdvanceClock(clock: real)
      requires Valid() && now <= clock
      modifies this`now
      ensures Valid() && now == clock
    {
      forall u | u in entryTimes
        ensures Lags(writes[u], entryTimes[u], clock, ttl)
      {
        LagsLater(writes[u], entryTimes[u], now, clock, ttl);
      }
      now := clock;
    }

    /** `_get_tenant_memory`: a new tenant gets a store and an empty timestamp table. */
    method GetTenantMemory(tenantId: Option<string>) returns (mem: InMemoryMemory)
      requires Valid()
      modifies this
      ensures Valid() && now == old(now)
      ensures var t := TenantKey(tenantId);
              && t in tenants && tenants[t] == mem
              && (t in old(tenants) ==> tenants == old(tenants) && entryTimes == old(entryTimes) && writes == old(writes))
              && (t !in old(tenants) ==>
                    && fresh(mem) && mem.entries == [] && mem.index == map[] && tenants == old(tenants)[t := mem]
                    && entryTimes == old(entryTimes)[t := map[]] && writes == old(writes)[t := map[]])
    {
      var t := TenantKey(tenantId);
      if t !in tenants {
        mem := new InMemoryMemory();
        tenants := tenants[t := mem];
        entryTimes := entryTimes[t := map[]];
        writes := writes[t := map[]];
      }
      mem := tenants[t];
    }

    /** A tenant's timestamp table catches up with its store. */
    method SetTimes(t: string, times: Times)
      requires TimesValidBut(Some(t)) && t in entryTimes
      requires Stamped(tenants[t].index.Keys, times, writes[t], now, ttl)
      modifies this`entryTimes
      ensures TimesValidBut(None) && entryTimes == old(entryTimes)[t := times]
    {
      entryTimes := entryTimes[t := times];
    }

    /** Only the store forgets. */
    method Forget(t: string, ids: set<string>)
      requires Valid() && t in tenants
      modifies tenants[t]
      ensures StoresValid() && TimesValidBut(Some(t))
      ensures tenants[t].index == old(tenants[t].index) - ids && tenants[t].entries == Kept(old(tenants[t].entries), ids)
    {
      DropFrom(tenants[t], ids);
    }

    method DropFrom(mem: InMemoryMemory, ids: set<string>)
      requires Sound(mem.entries, mem.index, maxEntries)
      modifies mem
      ensures Sound(mem.entries, mem.index, maxEntries)
      ensures mem.index == old(mem.index) - ids && mem.entries == Kept(old(mem.entries), ids)
    {
      mem.DropIds(ids);
    }

    /** The store and the timestamp table forget the same ids. */
    method DropExpired(t: string, expiredIds: set<string>)
      requires Valid() && t in tenants && t in entryTimes && expiredIds == Expired(entryTimes[t], now, ttl)
      modifies this`entryTimes, tenants[t]
      ensures now == old(now)
      ensures Valid() && entryTimes == Swept(t, old(entryTimes), now, ttl)
      ensures tenants[t].index.Keys == Live(writes[t], now, ttl)
      ensures tenants[t].index == old(tenants[t].index) - expiredIds
      ensures tenants[t].entries == Kept(old(tenants[t].entries), expiredIds)
    {
      ghost var live := Live(writes[t], now, ttl);
      assert Stamped(live, entryTimes[t] - expiredIds, writes[t], now, ttl) && tenants[t].index.Keys - expiredIds == live by {
        SweepShowsLive(writes[t], entryTimes[t], now, now, ttl);
      }
      Forget(t, expiredIds);
      SetTimes(t, entryTimes[t] - expiredIds);
    }

    /** Without expired ids a tenant with timestamps shows its live ids already. */
    lemma NothingExpired(t: string)
      requires Valid() && (t in entryTimes ==> Expired(entryTimes[t], now, ttl) == {})
      ensures Swept(t, entryTimes, now, ttl) == entryTimes
      ensures t in entryTimes ==> tenants[t].index.Keys == Live(writes[t], now, ttl)
    {
      NothingToSweep(t, entryTimes, now, ttl);
      if t in entryTimes {
        SweepShowsLive(writes[t], entryTimes[t], now, now, ttl);
        assert entryTimes[t] - {} == entryTimes[t];
      }
    }

    /** `_gc_tenant`: afterwards a tenant with timestamps shows exactly its live ids. */
    method GcTenant(tenantId: Option<string>, clock: real)
      requires Valid() && now <= clock
      modifies this`now, this`entryTimes, StoreOf(TenantKey(tenantId))
      ensures Valid() && now == clock
      ensures entryTimes == Swept(TenantKey(tenantId), old(entryTimes), clock, ttl)
      ensures var t := TenantKey(tenantId);
              && (t in entryTimes ==> tenants[t].index.Keys == Live(writes[t], clock, ttl))
              && (t in tenants ==>
                    && tenants[t].index == old(tenants[t].index) - Gone(t, old(entryTimes), clock, ttl)
                    && tenants[t].entries == Kept(old(tenants[t].entries), Gone(t, old(entryTimes), clock, ttl)))
    {
      var t := TenantKey(tenantId);
      KnownTenants(t);
      hide StoresValid, TimesValidBut;
      AdvanceClock(clock);
      if t in tenants {
        assert tenants[t].index - {} == tenants[t].index;
        KeptAll(tenants[t].entries);
      }
      if ttl <= 0.0 {
        NothingExpired(t);
        return;
      }
      var times := if t in entryTimes then entryTimes[t] else map[];
      var expiredIds := set id | id in times && clock - times[id] > ttl;
      assert expiredIds == Expired(times, clock, ttl);
      if expiredIds != {} && t in tenants {
        DropExpired(t, expiredIds);
      } else {
        NothingExpired(t);
      }
    }

    /** `_check_quota`: whether a tenant is full. */
    method AtQuota(tenantId: Option<string>) returns (full: bool)
      ensures var t := TenantKey(tenantId);
              full <==> maxEntries > 0 && t in tenants && |tenants[t].entries| >= maxEntries
    {
      var t := TenantKey(tenantId);
      full := maxEntries > 0 && t in tenants && tenants[t].Count() >= maxEntries;
    }

    /** What the quota is held against: the live ids, or, once cleared, whatever the store holds. */
    ghost function Charged(t: string, clock: real): set<string>
      reads this`tenants, this`entryTimes, this`writes, StoreOf(t)
    {
      if Cleared(t) then tenants[t].index.Keys else Live(Base(t, writes), clock, ttl)
    }

    /** A sweep leaves a tenant what the quota is held against. */
    method Sweep(tenantId: Option<string>, ghost entry: MemoryEntry, clock: real)
      requires Valid() && now <= clock
      modifies this`now, this`entryTimes, StoreOf(TenantKey(tenantId))
      ensures Valid() && now == clock
      ensures entryTimes == Swept(TenantKey(tenantId), old(entryTimes), clock, ttl)
      ensures var t := TenantKey(tenantId);
              && Cleared(t) == old(Cleared(t))
              && (if t in tenants then tenants[t].index.Keys else {}) == old(Charged(t, clock))
              && (t in tenants && Mistaken(tenants[t].index, entry) <==> old(Confuses(t, entry, clock)))
              && (if t in tenants then tenants[t].entries else []) == old(SweptEntries(t, clock))
    {
      KnownTenants(TenantKey(tenantId));
      GcTenant(tenantId, clock);
      hide StoresValid, TimesValidBut, Mistaken, Expired;
      assert Live(map[], clock, ttl) == {};
    }

    /** Sweep, then look at the quota. */
    method SweepAndCheck(tenantId: Option<string>, ghost entry: MemoryEntry, clock: real, ghost stamp: real) returns (full: bool)
      requires Valid() && now <= clock <= stamp
      modifies this`now, this`entryTimes, StoreOf(TenantKey(tenantId))
      ensures Valid() && now == stamp
      ensures entryTimes == Swept(TenantKey(tenantId), old(entryTimes), clock, ttl)
      ensures var t := TenantKey(tenantId);
              && Cleared(t) == old(Cleared(t))
              && full == (maxEntries > 0 && |old(Charged(t, clock))| >= maxEntries)
              && (if t in tenants then tenants[t].index.Keys else {}) == old(Charged(t, clock))
              && (t in tenants && maxEntries > 0 && !full ==> |tenants[t].entries| < maxEntries)
              && (t in tenants && Mistaken(tenants[t].index, entry) <==> old(Confuses(t, entry, clock)))
              && (if t in tenants then tenants[t].entries else []) == old(SweptEntries(t, clock))
    {
      hide StoresValid, TimesValidBut, Mistaken, Charged, Confuses, Swept, SweptEntries;
      Sweep(tenantId, entry, clock);
      full := AtQuota(tenantId);
      AdvanceClock(stamp);
      EntriesAreIds(TenantKey(tenantId));
    }

    /** What a retrieval at `clock` answers the caller. */
    function RetrieveAnswer(sim: string -> real, k: int, role: Option<string>, minConfidence: real,
                            tenantId: Option<string>, clock: real): seq<MemoryEntry>
      reads this`tenants, this`entryTimes, StoreOf(TenantKey(tenantId))
    {
      Best(sim, Matching(SweptEntries(TenantKey(tenantId), clock), role, minConfidence), k)
    }

    /** The entries a sweep at `clock` leaves. */
    function SweptEntries(t: string, clock: real): seq<MemoryEntry>
      reads this`tenants, this`entryTimes, StoreOf(t)
    {
      if t in tenants then Kept(tenants[t].entries, Gone(t, entryTimes, clock, ttl)) else []
    }

    /** What counting answers the caller. */
    function CountAnswer(tenantId: Option<string>): nat
      reads this`tenants, StoreOf(TenantKey(tenantId))
    {
      var t := TenantKey(tenantId);
      if t in tenants then |tenants[t].entries| else 0
    }

    /** The caller's entries and timestamps are as they were. */
    twostate predicate Undisturbed(tenantId: Option<string>)
      reads this, tenants.Values
    {
      var t := TenantKey(tenantId);
      && (t in tenants <==> t in old(tenants)) && (t in entryTimes <==> t in old(entryTimes))
      && (t in tenants ==>
            && tenants[t] == old(tenants)[t] && tenants[t].entries == old(tenants[t].entries)
            && tenants[t].index == old(tenants[t].index))
      && (t in entryTimes ==> entryTimes[t] == old(entryTimes)[t])
    }

    /** And so are the answers to whatever the caller asks next. */
    twostate lemma UndisturbedAnswers(tenantId: Option<string>, sim: string -> real, k: int, role: Option<string>,
                                      minConfidence: real, clock: real)
      requires Undisturbed(tenantId)
      ensures RetrieveAnswer(sim, k, role, minConfidence, tenantId, clock)
           == old(RetrieveAnswer(sim, k, role, minConfidence, tenantId, clock))
      ensures CountAnswer(tenantId) == old(CountAnswer(tenantId))
    {
    }

    /** Nobody but the caller is disturbed. */
    twostate predicate OnlyFor(tenantId: Option<string>)
      reads this, tenants.Values
    {
      forall other: Option<string> :: !SameTenant(tenantId, other) ==> Undisturbed(other)
    }

    /** Nothing but the caller's tenant, and its store, was touched. */
    twostate predicate Elsewhere(tenantId: Option<string>)
      reads this
    {
      var t := TenantKey(tenantId);
      tenants - {t} == old(tenants) - {t} && entryTimes - {t} == old(entryTimes) - {t}
    }

    /** Then, stores being separate, nobody else is disturbed. */
    twostate lemma TouchedOne(tenantId: Option<string>)
      requires old(Valid()) && Elsewhere(tenantId)
      requires forall m: InMemoryMemory :: old(allocated(m)) && m !in old(StoreOf(TenantKey(tenantId))) ==> unchanged(m)
      ensures OnlyFor(tenantId)
    {
      var t := TenantKey(tenantId);
      forall other: Option<string> | !SameTenant(tenantId, other)
        ensures Undisturbed(other)
      {
        SharesStoreIff(tenantId, other);
        var u := TenantKey(other);
        assert u in tenants <==> u in tenants - {t};
        assert u in entryTimes <==> u in entryTimes - {t};
        if u in old(tenants) {
          var store := old(tenants[u]);
          assert store !in old(StoreOf(t)) && old(allocated(store));
          assert unchanged(store);
        }
      }
    }

    /** Only tenants have tables, and every table has a history. */
    lemma KnownTenants(t: string)
      requires Valid()
      ensures (t in entryTimes ==> t in writes) && (t in writes ==> t in tenants)
    {
    }

    /** A tenant holds as many entries as ids. */
    lemma EntriesAreIds(t: string)
      requires Valid()
      ensures t in tenants ==> |tenants[t].entries| == |tenants[t].index.Keys|
    {
      if t in tenants {
        ConsistentCount(tenants[t].entries, tenants[t].index);
        assert |tenants[t].index| == |tenants[t].index.Keys|;
      }
    }

    /** After the sweep the tenant has the entry's id for another text. */
    ghost predicate Confuses(t: string, entry: MemoryEntry, clock: real)
      reads this`tenants, this`entryTimes, StoreOf(t)
    {
      t in tenants && Mistaken(tenants[t].index - Gone(t, entryTimes, clock, ttl), entry)
    }

    /** The store takes an entry there is room for. */
    method Put(t: string, entry: MemoryEntry) returns (eid: string)
      requires Valid() && t in tenants
      requires maxEntries > 0 ==> |tenants[t].entries| < maxEntries
      modifies tenants[t]
      ensures StoresValid() <==> !Mistaken(old(tenants[t].index), entry)
      ensures TimesValidBut(Some(t))
      ensures eid == entry.Id() && tenants[t].index.Keys == old(tenants[t].index.Keys) + {eid}
      ensures tenants[t].entries == AfterWrite(old(tenants[t].entries), entry)
    {
      eid := PutInto(tenants[t], entry);
    }

    method PutInto(mem: InMemoryMemory, entry: MemoryEntry) returns (eid: string)
      requires Sound(mem.entries, mem.index, maxEntries)
      requires maxEntries > 0 ==> |mem.entries| < maxEntries
      modifies mem
      ensures Sound(mem.entries, mem.index, maxEntries) <==> !Mistaken(old(mem.index), entry)
      ensures eid == entry.Id() && mem.index.Keys == old(mem.index.Keys) + {eid}
      ensures mem.entries == AfterWrite(old(mem.entries), entry)
    {
      eid := mem.Write(entry);
    }

    /** History and timestamp table take note of a write. */
    method StampEntry(t: string, eid: string, stamp: real)
      requires stamp == now && TimesValidBut(Some(t)) && t in entryTimes
      requires Lags(writes[t], entryTimes[t], now, ttl) && tenants[t].index.Keys == entryTimes[t].Keys + {eid}
      modifies this`entryTimes, this`writes
      ensures TimesValidBut(None)
      ensures writes == old(writes)[t := old(writes[t])[eid := stamp]]
      ensures entryTimes == old(entryTimes)[t := old(entryTimes[t])[eid := stamp]]
    {
      LagsAfterWrite(writes[t], entryTimes[t], eid, now, ttl);
      writes := writes[t := writes[t][eid := stamp]];
      SetTimes(t, entryTimes[t][eid := stamp]);
    }

    /** Store an entry there is room for, then stamp it. */
    method Take(t: string, entry: MemoryEntry, stamp: real) returns (r: WriteResult)
      requires Valid() && now == stamp && t in tenants
      requires maxEntries > 0 ==> |tenants[t].entries| < maxEntries
      modifies this`entryTimes, this`writes, tenants[t]
      ensures Valid() <==> !Mistaken(old(tenants[t].index), entry)
      ensures tenants[t].index.Keys == old(tenants[t].index.Keys) + {entry.Id()}
      ensures tenants[t].entries == AfterWrite(old(tenants[t].entries), entry)
      ensures if old(Cleared(t))
              then r == KeyErrorRaised && writes == old(writes) && entryTimes == old(entryTimes)
              else r == Written(entry.Id()) && t in old(writes)
                   && writes == Noted(t, old(writes), r, stamp) && entryTimes == Noted(t, old(entryTimes), r, stamp)
    {
      hide StoresValid;
      var eid := Put(t, entry);
      if t !in entryTimes {
        return KeyErrorRaised;
      }
      StampEntry(t, eid, stamp);
      r := Written(eid);
    }

    /** `write`. A tenant that was never cleared takes an entry exactly when its live ids leave room
        under the quota, even if the entry only rewrites one of them; it then shows those ids and
        the written one. A cleared tenant has lost its timestamp table: the entry is stored, and
        stamping it raises. Other tenants' stores and tables are not touched. All invariants are kept
        exactly if the tenant does not have the entry's id for another text. */
    method Write(entry: MemoryEntry, tenantId: Option<string>, clock: real, stamp: real) returns (r: WriteResult)
      requires Valid() && now <= clock <= stamp
      modifies this, StoreOf(TenantKey(tenantId))
      ensures Valid() <==> r.QuotaExceeded? || !old(Confuses(TenantKey(tenantId), entry, clock))
      ensures now == stamp
      ensures var t := TenantKey(tenantId);
              var charged := old(Charged(t, clock));
              && r == (if maxEntries > 0 && |charged| >= maxEntries then QuotaExceeded
                       else if old(Cleared(t)) then KeyErrorRaised
                       else Written(entry.Id()))
              && (!r.QuotaExceeded? ==>
                    && t in tenants && tenants[t].index.Keys == charged + {entry.Id()}
                    && tenants[t].entries == AfterWrite(old(SweptEntries(t, clock)), entry))
      ensures var t := TenantKey(tenantId);
              tenants == (if t in old(tenants) || r.QuotaExceeded? then old(tenants) else old(tenants)[t := tenants[t]])
      ensures writes == Noted(TenantKey(tenantId), old(writes), r, stamp)
      ensures entryTimes == Noted(TenantKey(tenantId), Swept(TenantKey(tenantId), old(entryTimes), clock, ttl), r, stamp)
      ensures OnlyFor(tenantId)
    {
      hide *;
      r := SweepAndTake(tenantId, entry, clock, stamp);
      TouchedOne(tenantId);
    }

    method SweepAndTake(tenantId: Option<string>, entry: MemoryEntry, clock: real, stamp: real) returns (r: WriteResult)
      requires Valid() && now <= clock <= stamp
      modifies this, StoreOf(TenantKey(tenantId))
      ensures Valid() <==> r.QuotaExceeded? || !old(Confuses(TenantKey(tenantId), entry, clock))
      ensures now == stamp
      ensures var t := TenantKey(tenantId);
              var charged := old(Charged(t, clock));
              && r == (if maxEntries > 0 && |charged| >= maxEntries then QuotaExceeded
                       else if old(Cleared(t)) then KeyErrorRaised
                       else Written(entry.Id()))
              && (!r.QuotaExceeded? ==>
                    && t in tenants && tenants[t].index.Keys == charged + {entry.Id()}
                    && tenants[t].entries == AfterWrite(old(SweptEntries(t, clock)), entry))
      ensures var t := TenantKey(tenantId);
              tenants == (if t in old(tenants) || r.QuotaExceeded? then old(tenants) else old(tenants)[t := tenants[t]])
      ensures writes == Noted(TenantKey(tenantId), old(writes), r, stamp)
      ensures entryTimes == Noted(TenantKey(tenantId), Swept(TenantKey(tenantId), old(entryTimes), clock, ttl), r, stamp)
      ensures Elsewhere(tenantId)
    {
      ghost var t := TenantKey(tenantId);
      TablesElsewhere(t, entryTimes, clock, ttl, QuotaExceeded, stamp);
      hide Valid, SweptEntries, AfterWrite, Swept, Noted, Charged, Confuses, Mistaken;
      var full := SweepAndCheck(tenantId, entry, clock, stamp);
      if full {
        NothingNoted(t, old(writes), stamp);
        NothingNoted(t, entryTimes, stamp);
        return QuotaExceeded;
      }
      TablesElsewhere(t, entryTimes, clock, ttl, Written(entry.Id()), stamp);
      TablesElsewhere(t, entryTimes, clock, ttl, KeyErrorRaised, stamp);
      r := TakeFrom(tenantId, entry, stamp);
      if t in tenants {
        UpdateElsewhere(old(tenants), t, tenants[t]);
      }
    }

    /** The same, for a tenant that may be new. */
    method TakeFrom(tenantId: Option<string>, entry: MemoryEntry, stamp: real) returns (r: WriteResult)
      requires Valid() && now == stamp
      requires var t := TenantKey(tenantId); t in tenants && maxEntries > 0 ==> |tenants[t].entries| < maxEntries
      modifies this, StoreOf(TenantKey(tenantId))
      ensures var t := TenantKey(tenantId);
              Valid() <==> !(t in old(tenants) && Mistaken(old(tenants[t].index), entry))
      ensures now == stamp
      ensures var t := TenantKey(tenantId);
              && t in tenants && tenants == (if t in old(tenants) then old(tenants) else old(tenants)[t := tenants[t]])
              && tenants[t].index.Keys == (if t in old(tenants) then old(tenants[t].index.Keys) else {}) + {entry.Id()}
              && tenants[t].entries == AfterWrite(if t in old(tenants) then old(tenants[t].entries) else [], entry)
              && r == (if old(Cleared(t)) then KeyErrorRaised else Written(entry.Id()))
              && writes == Noted(t, old(writes), r, stamp) && entryTimes == Noted(t, old(entryTimes), r, stamp)
    {
      var t := TenantKey(tenantId);
      if t in tenants {
        r := Take(t, entry, stamp);
      } else {
        r := TakeNew(tenantId, entry, stamp);
      }
    }

    /** A new tenant is created first. */
    method TakeNew(tenantId: Option<string>, entry: MemoryEntry, stamp: real) returns (r: WriteResult)
      requires Valid() && now == stamp && TenantKey(tenantId) !in tenants
      modifies this
      ensures Valid() && now == stamp
      ensures var t := TenantKey(tenantId);
              && t in tenants && tenants == old(tenants)[t := tenants[t]]
              && fresh(tenants[t]) && tenants[t].index.Keys == {entry.Id()} && r == Written(entry.Id())
              && tenants[t].entries == AfterWrite([], entry)
              && writes == Noted(t, old(writes), r, stamp) && entryTimes == Noted(t, old(entryTimes), r, stamp)
    {
      var t := TenantKey(tenantId);
      KnownTenants(t);
      var _ := GetTenantMemory(tenantId);
      hide StoresValid, TimesValidBut;
      r := Take(t, entry, stamp);
      Overwrite(old(writes), t, map[], map[entry.Id() := stamp]);
      Overwrite(old(entryTimes), t, map[], map[entry.Id() := stamp]);
    }

    /** `retrieve`. The answer is the best of what matches among the entries a sweep leaves, which for a
        tenant with timestamps are the live ones. */
    method Retrieve(sim: string -> real, k: int, role: Option<string>, minConfidence: real, tenantId: Option<string>, clock: real)
      returns (r: seq<MemoryEntry>)
      requires Valid() && now <= clock
      modifies this, StoreOf(TenantKey(tenantId))
      ensures Valid() && now == clock
      ensures r == old(RetrieveAnswer(sim, k, role, minConfidence, tenantId, clock))
      ensures var t := TenantKey(tenantId);
              && (t in old(tenants) ==> writes == old(writes) && entryTimes == Swept(t, old(entryTimes), clock, ttl))
              && (t !in old(tenants) ==> writes == old(writes)[t := map[]] && entryTimes == old(entryTimes)[t := map[]])
      ensures var t := TenantKey(tenantId);
              && t in tenants && tenants[t].entries == old(SweptEntries(t, clock))
              && (t in entryTimes ==> tenants[t].index.Keys == Live(Base(t, old(writes)), clock, ttl))
      ensures OnlyFor(tenantId)
    {
      hide *;
      r := SweepAndAsk(sim, k, role, minConfidence, tenantId, clock);
      TouchedOne(tenantId);
    }

    method SweepAndAsk(sim: string -> real, k: int, role: Option<string>, minConfidence: real, tenantId: Option<string>, clock: real)
      returns (r: seq<MemoryEntry>)
      requires Valid() && now <= clock
      modifies this, StoreOf(TenantKey(tenantId))
      ensures Valid() && now == clock
      ensures r == old(RetrieveAnswer(sim, k, role, minConfidence, tenantId, clock))
      ensures var t := TenantKey(tenantId);
              && (t in old(tenants) ==> writes == old(writes) && entryTimes == Swept(t, old(entryTimes), clock, ttl))
              && (t !in old(tenants) ==> writes == old(writes)[t := map[]] && entryTimes == old(entryTimes)[t := map[]])
      ensures var t := TenantKey(tenantId);
              && t in tenants && tenants[t].entries == old(SweptEntries(t, clock))
              && (t in entryTimes ==> tenants[t].index.Keys == Live(Base(t, old(writes)), clock, ttl))
      ensures Elsewhere(tenantId)
    {
      hide Valid, Matching, Best, SweptEntries, Elsewhere, Swept, Live;
      var mem := SweepAndOpen(tenantId, clock);
      r := mem.Retrieve(sim, k, role, minConfidence);
    }

    method SweepAndOpen(tenantId: Option<string>, clock: real) returns (mem: InMemoryMemory)
      requires Valid() && now <= clock
      modifies this, StoreOf(TenantKey(tenantId))
      ensures Valid() && now == clock
      ensures var t := TenantKey(tenantId);
              && (t in old(tenants) ==> writes == old(writes) && entryTimes == Swept(t, old(entryTimes), clock, ttl))
              && (t !in old(tenants) ==> writes == old(writes)[t := map[]] && entryTimes == old(entryTimes)[t := map[]])
      ensures var t := TenantKey(tenantId);
              && t in tenants && mem == tenants[t] && (t in old(tenants) ==> mem == old(tenants)[t])
              && mem.entries == old(SweptEntries(t, clock))
              && (t in entryTimes ==> mem.index.Keys == Live(Base(t, old(writes)), clock, ttl))
      ensures Elsewhere(tenantId)
    {
      ghost var t := TenantKey(tenantId);
      KnownTenants(t);
      TablesElsewhere(t, entryTimes, clock, ttl, QuotaExceeded, clock);
      NothingSwept(t, entryTimes, clock, ttl);
      assert Live(map[], clock, ttl) == {};
      hide StoresValid, TimesValidBut, Kept, Swept, Live, Gone;
      GcTenant(tenantId, clock);
      mem := GetTenantMemory(tenantId);
      UpdateElsewhere(old(tenants), t, mem);
      UpdateElsewhere(old(entryTimes), t, map[]);
    }

    /** `count`. Counting does not sweep, so expired entries are still counted. */
    method Count(tenantId: Option<string>) returns (n: nat)
      requires Valid()
      modifies this
      ensures Valid() && now == old(now) && n == old(CountAnswer(tenantId))
      ensures var t := TenantKey(tenantId);
              && t in tenants
              && (t in entryTimes ==> n == |entryTimes[t]| && n >= |Live(writes[t], now, ttl)|)
      ensures OnlyFor(tenantId)
    {
      hide *;
      n := CountEntries(tenantId);
      TouchedOne(tenantId);
    }

    method CountEntries(tenantId: Option<string>) returns (n: nat)
      requires Valid()
      modifies this
      ensures Valid() && now == old(now) && n == old(CountAnswer(tenantId))
      ensures var t := TenantKey(tenantId);
              && t in tenants
              && (t in entryTimes ==> n == |entryTimes[t]| && n >= |Live(writes[t], now, ttl)|)
      ensures Elsewhere(tenantId)
    {
      ghost var t := TenantKey(tenantId);
      var mem := GetTenantMemory(tenantId);
      UpdateElsewhere(old(tenants), t, mem);
      UpdateElsewhere(old(entryTimes), t, map[]);
      n := mem.Count();
      ConsistentCount(mem.entries, mem.index);
      if t in entryTimes {
        assert |mem.index| == |mem.index.Keys| && |entryTimes[t]| == |entryTimes[t].Keys|;
        LiveIsStamped(writes[t], entryTimes[t], now, ttl);
      }
    }

    /** `clear` for one tenant: entries and timestamps go, the tenant stays. */
    method ClearTenant(tenantId: string)
      requires Valid()
      modifies this, StoreOf(TenantKey(Some(tenantId)))
      ensures Valid() && now == old(now) && tenants == old(tenants)
      ensures var t := TenantKey(Some(tenantId));
              && (t in tenants ==> tenants[t].entries == [] && tenants[t].index == map[] && Cleared(t))
              && entryTimes == old(entryTimes) - {t} && writes == old(writes) - {t}
      ensures OnlyFor(Some(tenantId))
    {
      hide *;
      EmptyTenant(tenantId);
      TouchedOne(Some(tenantId));
    }

    method EmptyTenant(tenantId: string)
      requires Valid()
      modifies this, StoreOf(TenantKey(Some(tenantId)))
      ensures Valid() && now == old(now) && tenants == old(tenants)
      ensures var t := TenantKey(Some(tenantId));
              && (t in tenants ==> tenants[t].entries == [] && tenants[t].index == map[] && Cleared(t))
              && entryTimes == old(entryTimes) - {t} && writes == old(writes) - {t}
      ensures Elsewhere(Some(tenantId))
    {
      var t := TenantKey(Some(tenantId));
      hide StoresValid, TimesValidBut;
      EmptyStore(t);
      DropTables(t);
    }

    method DropTables(t: string)
      requires TimesValidBut(Some(t))
      modifies this`entryTimes, this`writes
      ensures TimesValidBut(None) && entryTimes == old(entryTimes) - {t} && writes == old(writes) - {t}
    {
      entryTimes := entryTimes - {t};
      writes := writes - {t};
    }

    method EmptyStore(t: string)
      requires Valid()
      modifies StoreOf(t)
      ensures StoresValid() && TimesValidBut(Some(t))
      ensures t in tenants ==> tenants[t].entries == [] && tenants[t].index == map[]
    {
      if t in tenants {
        tenants[t].Clear();
      }
    }

    /** `clear` without a tenant empties all of them. */
    method ClearAll()
      requires Valid()
      modifies this, tenants.Values
      ensures Valid() && now == old(now) && tenants == old(tenants) && entryTimes == map[]
      ensures forall t :: t in tenants ==> tenants[t].entries == [] && Cleared(t)
    {
      var left := tenants.Keys;
      while left != {}
        invariant StoresValid() && tenants == old(tenants) && now == old(now) && left <= tenants.Keys
        invariant entryTimes == old(entryTimes)
        invariant forall t :: t in tenants && t !in left ==> tenants[t].entries == []
      {
        var t :| t in left;
        tenants[t].Clear();
        left := left - {t};
      }
      entryTimes, writes := map[], map[];
    }
  }

  lemma Overwrite<V>(m: map<string, V>, k: string, a: V, b: V)
    ensures m[k := a][k := b] == m[k := b]
  {
  }

  /** Live ids are among the stamped ones. */
  lemma LiveIsStamped(writes: Times, times: Times, now: real, ttl: real)
    requires Lags(writes, times, now, ttl)
    ensures Live(writes, now, ttl) <= times.Keys && |Live(writes, now, ttl)| <= |times.Keys|
  {
    SubsetSize(Live(writes, now, ttl), times.Keys);
  }

  lemma {:induction false} SubsetSize<T>(a: set<T>, b: set<T>)
    requires a <= b
    ensures |a| <= |b|
  {
    if x :| x in a {
      SubsetSize(a - {x}, b - {x});
    }
  }
}
