/** The sliding-window rate limiter: a pruned queue of acceptance times per key. */
module RateLimiter {
  const WINDOW := 60.0

  /** Who calls: an authenticated key with its own limit, 0 meaning the default, or an address. */
  datatype Caller = WithKey(key: string, ratePerMinute: int) | FromAddress(client: string)

  function KeyId(c: Caller): string {
    match c
    case WithKey(key, _) => key
    case FromAddress(client) => "ip:" + client
  }

  function LimitOf(c: Caller, defaultLimit: int): int {
    match c
    case WithKey(_, rate) => if rate != 0 then rate else defaultLimit
    case FromAddress(_) => defaultLimit
  }

  /** Who counts together: the same key, the same address, or a key that is spelt like the address. */
  predicate SharesQueue(a: Caller, b: Caller) {
    match (a, b)
    case (WithKey(k, _), WithKey(l, _)) => k == l
    case (FromAddress(x), FromAddress(y)) => x == y
    case (WithKey(k, _), FromAddress(x)) => k == "ip:" + x
    case (FromAddress(x), WithKey(k, _)) => k == "ip:" + x
  }

  lemma SharesQueueIff(a: Caller, b: Caller)
    ensures KeyId(a) == KeyId(b) <==> SharesQueue(a, b)
  {
    if a.FromAddress? && b.FromAddress? && KeyId(a) == KeyId(b) {
      assert a.client == KeyId(a)[3..] && b.client == KeyId(b)[3..];
    }
  }

  /** A key has the limit it came with, unless that is 0; everyone else has the default. */
  lemma WhoseLimit(c: Caller, defaultLimit: int)
    ensures c.WithKey? && c.ratePerMinute != 0 ==> LimitOf(c, defaultLimit) == c.ratePerMinute
    ensures c.FromAddress? || c.ratePerMinute == 0 ==> LimitOf(c, defaultLimit) == defaultLimit
  {
  }

  datatype Request = Request(key: string, limit: int, at: real)

  // ---------- The promise ----------

  /** The times from `lo` up to `hi`, both included, in order. */
  function Within(times: seq<real>, lo: real, hi: real): seq<real> {
    if times == [] then []
    else
      var front, last := Within(times[..|times| - 1], lo, hi), times[|times| - 1];
      if lo <= last <= hi then front + [last] else front
  }

  /** What a limiter with perfect memory decides: is there room in the window that ends now? */
  predicate Allows(history: seq<real>, limit: int, now: real) {
    |Within(history, now - WINDOW, now)| < limit
  }

  /** The acceptance times of one key over a whole run, each decided on the full history. */
  function Accepted(run: seq<Request>, key: string): seq<real> {
    if run == [] then []
    else
      var history, r := Accepted(run[..|run| - 1], key), run[|run| - 1];
      if r.key == key && Allows(history, r.limit, r.at) then history + [r.at] else history
  }

  ghost predicate Ascending(times: seq<real>) {
    forall i, j :: 0 <= i < j < |times| ==> times[i] <= times[j]
  }

  ghost predicate NoneAfter(times: seq<real>, hi: real) {
    forall i :: 0 <= i < |times| ==> times[i] <= hi
  }

  ghost predicate MonotoneClock(run: seq<Request>) {
    forall i, j :: 0 <= i < j < |run| ==> run[i].at <= run[j].at
  }

  // ---------- Windows ----------

  lemma {:induction false} AcceptedIsAscending(run: seq<Request>, key: string)
    requires MonotoneClock(run)
    ensures Ascending(Accepted(run, key))
    ensures run != [] ==> NoneAfter(Accepted(run, key), run[|run| - 1].at)
    ensures run == [] ==> Accepted(run, key) == []
  {
    if run != [] {
      var front := run[..|run| - 1];
      AcceptedIsAscending(front, key);
      if front != [] {
        assert front[|front| - 1].at <= run[|run| - 1].at;
      }
    }
  }

  /** A wider window holds at least as much. */
  lemma {:induction false} WiderWindow(times: seq<real>, lo: real, hi: real, lo': real, hi': real)
    requires lo' <= lo && hi <= hi'
    ensures |Within(times, lo, hi)| <= |Within(times, lo', hi')|
  {
    if times != [] {
      WiderWindow(times[..|times| - 1], lo, hi, lo', hi');
    }
  }

  /** A window is as large after its upper end as the times in it, which `hi` bounds anyway. */
  lemma {:induction false} UpperEndIsIrrelevant(times: seq<real>, lo: real, hi: real, hi': real)
    requires NoneAfter(times, hi) && NoneAfter(times, hi')
    ensures Within(times, lo, hi) == Within(times, lo, hi')
  {
    if times != [] {
      UpperEndIsIrrelevant(times[..|times| - 1], lo, hi, hi');
    }
  }

  /** Accepting one more request keeps the window that starts at `start` within the limit. */
  lemma OneMoreFits(history: seq<real>, limit: int, at: real, start: real)
    requires NoneAfter(history, at) && Allows(history, limit, at)
    requires start <= at <= start + WINDOW
    ensures |Within(history + [at], start, start + WINDOW)| <= limit
  {
    assert (history + [at])[..|history|] == history;
    UpperEndIsIrrelevant(history, start, start + WINDOW, at);
    WiderWindow(history, start, at, at - WINDOW, at);
  }

  /** In every run with a monotone clock no closed window of 60 seconds, wherever it lies, holds more
      accepted requests of a key than the largest limit the key was ever held to. */
  lemma {:induction false} NoWindowExceedsLimit(run: seq<Request>, key: string, limit: nat, start: real)
    requires MonotoneClock(run)
    requires forall i :: 0 <= i < |run| && run[i].key == key ==> run[i].limit <= limit
    ensures |Within(Accepted(run, key), start, start + 60.0)| <= limit
  {
    if run != [] {
      var front, r := run[..|run| - 1], run[|run| - 1];
      NoWindowExceedsLimit(front, key, limit, start);
      var history := Accepted(front, key);
      if r.key == key && Allows(history, r.limit, r.at) {
        AcceptedIsAscending(front, key);
        if start <= r.at <= start + WINDOW {
          assert NoneAfter(history, r.at);
          OneMoreFits(history, r.limit, r.at, start);
        } else {
          assert (history + [r.at])[..|history|] == history;
        }
      }
    }
  }

  /** How many of the times lie between `lo` and `hi`. */
  lemma {:induction false} WithinCounts(times: seq<real>, lo: real, hi: real)
    ensures |Within(times, lo, hi)| == |set i: nat | i < |times| && lo <= times[i] <= hi|
  {
    var here := set i: nat | i < |times| && lo <= times[i] <= hi;
    if times == [] {
      assert here == {};
    } else {
      var n := |times| - 1;
      var front := times[..n];
      WithinCounts(front, lo, hi);
      var before := set i: nat | i < |front| && lo <= front[i] <= hi;
      assert here == if lo <= times[n] <= hi then before + {n} else before;
    }
  }

  /** A request is refused exactly if the 60 seconds up to it hold as many accepted requests of its key as
      its limit allows; otherwise it joins them. */
  lemma RefusedExactlyIfFull(run: seq<Request>, r: Request)
    ensures var history := Accepted(run, r.key);
            var recent := set i: nat | i < |history| && r.at - 60.0 <= history[i] <= r.at;
            Accepted(run + [r], r.key) == if |recent| >= r.limit then history else history + [r.at]
  {
    assert (run + [r])[..|run|] == run;
    WithinCounts(Accepted(run, r.key), r.at - 60.0, r.at);
  }

  /** The requests of other keys make no difference to a key. */
  lemma {:induction false} KeysAreIndependent(run: seq<Request>, key: string)
    ensures Accepted(run, key) == Accepted(OfKey(run, key), key)
  {
    if run != [] {
      var front, r := run[..|run| - 1], run[|run| - 1];
      KeysAreIndependent(front, key);
      if r.key == key {
        assert (OfKey(front, key) + [r])[..|OfKey(front, key)|] == OfKey(front, key);
      }
    }
  }

  function OfKey(run: seq<Request>, key: string): seq<Request> {
    if run == [] then []
    else
      var front, r := OfKey(run[..|run| - 1], key), run[|run| - 1];
      if r.key == key then front + [r] else front
  }

  // ---------- Callers ----------

  datatype Visit = Visit(caller: Caller, at: real)

  function RequestOf(v: Visit, defaultLimit: int): Request {
    Request(KeyId(v.caller), LimitOf(v.caller, defaultLimit), v.at)
  }

  function Requests(visits: seq<Visit>, defaultLimit: int): seq<Request> {
    seq(|visits|, i requires 0 <= i < |visits| => RequestOf(visits[i], defaultLimit))
  }

  /** The visits of those who count together with a caller. */
  function Alike(visits: seq<Visit>, c: Caller): seq<Visit> {
    if visits == [] then []
    else
      var front, v := Alike(visits[..|visits| - 1], c), visits[|visits| - 1];
      if SharesQueue(v.caller, c) then front + [v] else front
  }

  /** Whether a visit is let through after others. */
  predicate Granted(visits: seq<Visit>, v: Visit, defaultLimit: int) {
    var request := RequestOf(v, defaultLimit);
    Allows(Accepted(Requests(visits, defaultLimit), request.key), request.limit, request.at)
  }

  lemma {:induction false} RequestsOfKey(visits: seq<Visit>, c: Caller, defaultLimit: int)
    ensures OfKey(Requests(visits, defaultLimit), KeyId(c)) == Requests(Alike(visits, c), defaultLimit)
  {
    if visits != [] {
      var front, v := visits[..|visits| - 1], visits[|visits| - 1];
      RequestsOfKey(front, c, defaultLimit);
      SharesQueueIff(v.caller, c);
      var all := Requests(visits, defaultLimit);
      assert all[..|all| - 1] == Requests(front, defaultLimit);
    }
  }

  /** Callers who do not count together do not affect each other: a visit is let through exactly if it
      would be had only those who count together with the caller ever come. */
  lemma CallersAreIndependent(visits: seq<Visit>, v: Visit, defaultLimit: int)
    ensures Granted(visits, v, defaultLimit) == Granted(Alike(visits, v.caller), v, defaultLimit)
  {
    KeysAreIndependent(Requests(visits, defaultLimit), KeyId(v.caller));
    RequestsOfKey(visits, v.caller, defaultLimit);
  }

  // ---------- Pruning ----------

  /** What the pruning loop leaves: everything from the first time that is recent enough. */
  function Pruned(times: seq<real>, from: real): seq<real> {
    if times == [] || times[0] >= from then times else Pruned(times[1..], from)
  }

  /** On ascending times pruning from the front keeps exactly the window. */
  lemma {:induction false} PrunedIsWindow(times: seq<real>, from: real, now: real)
    requires Ascending(times) && NoneAfter(times, now)
    ensures Pruned(times, from) == Within(times, from, now)
  {
    if times != [] {
      if times[0] >= from {
        AllWithin(times, from, now);
      } else {
        PrunedIsWindow(times[1..], from, now);
        DropFirst(times, from, now);
      }
    }
  }

  lemma {:induction false} AllWithin(times: seq<real>, lo: real, hi: real)
    requires forall i :: 0 <= i < |times| ==> lo <= times[i] <= hi
    ensures Within(times, lo, hi) == times
  {
    if times != [] {
      AllWithin(times[..|times| - 1], lo, hi);
    }
  }

  lemma {:induction false} DropFirst(times: seq<real>, lo: real, hi: real)
    requires times != [] && times[0] < lo
    ensures Within(times, lo, hi) == Within(times[1..], lo, hi)
  {
    if |times| > 1 {
      var n := |times| - 1;
      DropFirst(times[..n], lo, hi);
      assert times[..n][1..] == times[1..][..n - 1];
    }
  }

  /** Pruning an already pruned history again is pruning the history. */
  lemma {:induction false} PruneTwice(times: seq<real>, from: real, from': real)
    requires from <= from'
    ensures Pruned(Pruned(times, from), from') == Pruned(times, from')
  {
    if times != [] && times[0] < from {
      PruneTwice(times[1..], from, from');
    }
  }

  /** Appending at the end commutes with pruning while the new time is recent enough. */
  lemma {:induction false} PruneAppend(times: seq<real>, from: real, t: real)
    requires t >= from
    ensures Pruned(times + [t], from) == Pruned(times, from) + [t]
  {
    if times != [] && times[0] < from {
      PruneAppend(times[1..], from, t);
      assert (times + [t])[1..] == times[1..] + [t];
    }
  }

  /** One more decided request, by the definition of the history. */
  lemma AcceptedStep(run: seq<Request>, r: Request)
    ensures Accepted(run + [r], r.key)
         == Noted(Accepted(run, r.key), Allows(Accepted(run, r.key), r.limit, r.at), r.at)
    ensures forall key :: key != r.key ==> Accepted(run + [r], key) == Accepted(run, key)
  {
    assert (run + [r])[..|run|] == run;
  }

  function Noted(times: seq<real>, passed: bool, t: real): seq<real> {
    if passed then times + [t] else times
  }

  /** A request that passes joins the window that ends with it and the pruned queue alike; one that
      does not leaves both. */
  lemma WindowAfterRequest(history: seq<real>, passed: bool, t: real)
    requires Ascending(history) && NoneAfter(history, t)
    ensures Within(Noted(history, passed, t), t - WINDOW, t) == Noted(Within(history, t - WINDOW, t), passed, t)
    ensures Pruned(Noted(history, passed, t), t - WINDOW) == Noted(Within(history, t - WINDOW, t), passed, t)
  {
    PrunedIsWindow(history, t - WINDOW, t);
    if passed {
      assert (history + [t])[..|history|] == history;
      PruneAppend(history, t - WINDOW, t);
    }
  }

  // ---------- Queues and histories ----------

  ghost predicate Lagging(queue: seq<real>, history: seq<real>, now: real) {
    exists from :: from <= now - WINDOW && queue == Pruned(history, from)
  }

  /** A key's queue is its acceptance history, pruned at some time up to the last request. */
  ghost predicate TracksKey(requests: map<string, seq<real>>, run: seq<Request>, key: string) {
    if key in requests then run != [] && Lagging(requests[key], Accepted(run, key), run[|run| - 1].at)
    else Accepted(run, key) == []
  }

  ghost predicate Tracks(requests: map<string, seq<real>>, run: seq<Request>) {
    MonotoneClock(run) && forall key :: TracksKey(requests, run, key)
  }

  function QueueOf(requests: map<string, seq<real>>, key: string): seq<real> {
    if key in requests then requests[key] else []
  }

  ghost predicate NotBefore(run: seq<Request>, now: real) {
    run != [] ==> run[|run| - 1].at <= now
  }

  /** Pruned now, a queue is the window of its key's history. */
  lemma QueueIsWindow(requests: map<string, seq<real>>, run: seq<Request>, key: string, now: real)
    requires Tracks(requests, run) && NotBefore(run, now)
    ensures Pruned(QueueOf(requests, key), now - WINDOW) == Within(Accepted(run, key), now - WINDOW, now)
  {
    var history := Accepted(run, key);
    HistorySoFar(run, key, now);
    assert TracksKey(requests, run, key);
    if key in requests {
      var from :| from <= run[|run| - 1].at - WINDOW && requests[key] == Pruned(history, from);
      PruneTwice(history, from, now - WINDOW);
      PrunedIsWindow(history, now - WINDOW, now);
    }
  }

  /** A decided request keeps the queues and the histories together, and leaves its key's queue equal
      to the window that ends with it. */
  lemma TracksStep(requests: map<string, seq<real>>, run: seq<Request>, r: Request, queue: seq<real>)
    requires Tracks(requests, run) && NotBefore(run, r.at)
    requires queue == Noted(Within(Accepted(run, r.key), r.at - WINDOW, r.at),
                            Allows(Accepted(run, r.key), r.limit, r.at), r.at)
    ensures Tracks(requests[r.key := queue], run + [r])
    ensures queue == Within(Accepted(run + [r], r.key), r.at - WINDOW, r.at)
  {
    QueueStep(run, r, queue);
    var after, requests' := run + [r], requests[r.key := queue];
    assert MonotoneClock(after);
    forall key ensures TracksKey(requests', after, key) {
      if key == r.key {
        assert r.at - WINDOW <= after[|run|].at - WINDOW;
      } else {
        OtherKeyStep(requests, run, r, queue, key);
      }
    }
  }

  lemma QueueStep(run: seq<Request>, r: Request, queue: seq<real>)
    requires MonotoneClock(run) && NotBefore(run, r.at)
    requires queue == Noted(Within(Accepted(run, r.key), r.at - WINDOW, r.at),
                            Allows(Accepted(run, r.key), r.limit, r.at), r.at)
    ensures queue == Within(Accepted(run + [r], r.key), r.at - WINDOW, r.at)
    ensures queue == Pruned(Accepted(run + [r], r.key), r.at - WINDOW)
  {
    HistorySoFar(run, r.key, r.at);
    hide *;
    AcceptedStep(run, r);
    WindowAfterRequest(Accepted(run, r.key), Allows(Accepted(run, r.key), r.limit, r.at), r.at);
  }

  lemma HistorySoFar(run: seq<Request>, key: string, now: real)
    requires MonotoneClock(run) && NotBefore(run, now)
    ensures Ascending(Accepted(run, key)) && NoneAfter(Accepted(run, key), now)
  {
    AcceptedIsAscending(run, key);
  }

  lemma OtherKeyStep(requests: map<string, seq<real>>, run: seq<Request>, r: Request, queue: seq<real>, key: string)
    requires Tracks(requests, run) && NotBefore(run, r.at) && key != r.key
    ensures TracksKey(requests[r.key := queue], run + [r], key)
  {
    AcceptedStep(run, r);
    assert TracksKey(requests, run, key);
    if key in requests {
      StillLagging(requests[key], Accepted(run, key), run[|run| - 1].at, r.at);
    }
  }

  lemma StillLagging(queue: seq<real>, history: seq<real>, now: real, later: real)
    requires Lagging(queue, history, now) && now <= later
    ensures Lagging(queue, history, later)
  {
    var from :| from <= now - WINDOW && queue == Pruned(history, from);
    assert from <= later - WINDOW;
  }

  // ---------- The middleware ----------

  class RateLimitMiddleware {
    const defaultLimit: int
    var requests: map<string, seq<real>>
    /** Everything asked of this middleware so far. */
    ghost var run: seq<Request>

    ghost predicate Valid()
      reads this
    {
      Tracks(requests, run)
    }

    constructor (defaultLimit: int)
      ensures Valid() && run == [] && this.defaultLimit == defaultLimit
    {
      this.defaultLimit, requests, run := defaultLimit, map[], [];
    }

    method Prune(reqs: seq<real>, from: real) returns (kept: seq<real>)
      ensures kept == Pruned(reqs, from)
    {
      kept := reqs;
      while |kept| > 0 && kept[0] < from
        invariant Pruned(kept, from) == Pruned(reqs, from)
        decreases |kept|
      {
        kept := kept[1..];
      }
    }

    /** One HTTP request. Although the queue has forgotten what fell out of earlier windows, it is
        passed on exactly when the full acceptance history leaves room in the window ending now;
        afterwards the queue is that window, and other keys' queues are as before. */
    method Call(caller: Caller, now: real) returns (passed: bool)
      requires Valid() && NotBefore(run, now)
      modifies this
      ensures Valid() && run == old(run) + [Request(KeyId(caller), LimitOf(caller, defaultLimit), now)]
      ensures passed <==> Allows(Accepted(old(run), KeyId(caller)), LimitOf(caller, defaultLimit), now)
      ensures requests == old(requests)[KeyId(caller) := Within(Accepted(run, KeyId(caller)), now - WINDOW, now)]
    {
      var key, limit := KeyId(caller), LimitOf(caller, defaultLimit);
      var reqs := Prune(QueueOf(requests, key), now - WINDOW);
      ghost var r := Request(key, limit, now);
      QueueIsWindow(requests, run, key, now);
      passed := !(|reqs| >= limit);
      if passed {
        reqs := reqs + [now];
      }
      TracksStep(requests, run, r, reqs);
      requests := requests[key := reqs];
      run := run + [r];
    }
  }
}
