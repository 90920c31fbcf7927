/** Choosing the experts for a prompt. Scores are arbitrary; names identify experts. */
module Routers {
  import opened Wrappers
  import opened Sorting
  import Experts

  datatype Candidate = Candidate(name: string, role: Experts.Role)

  datatype Settings = Settings(minActivation: int, maxActivation: int, forced: Experts.Role, threshold: real)

  ghost predicate UniqueNames(pool: seq<Candidate>) {
    forall i, j :: 0 <= i < j < |pool| ==> pool[i].name != pool[j].name
  }

  // ---------- Lists of names ----------

  /** The first `m` elements; as in Python, a negative `m` drops elements from the end. */
  function Take<T>(xs: seq<T>, m: int): seq<T> {
    if m >= |xs| then xs
    else if m >= 0 then xs[..m]
    else if -m >= |xs| then []
    else xs[..|xs| + m]
  }

  function Without(xs: seq<string>, x: string): (ys: seq<string>)
    ensures forall y :: y in ys <==> y in xs && y != x
  {
    if xs == [] then []
    else
      assert xs == xs[..|xs| - 1] + [xs[|xs| - 1]];
      var front := Without(xs[..|xs| - 1], x);
      if xs[|xs| - 1] == x then front else front + [xs[|xs| - 1]]
  }

  function Keep(xs: seq<string>, wanted: set<string>): (ys: seq<string>)
    ensures forall y :: y in ys <==> y in xs && y in wanted
    ensures |ys| <= |xs|
  {
    if xs == [] then []
    else
      assert xs == xs[..|xs| - 1] + [xs[|xs| - 1]];
      var front := Keep(xs[..|xs| - 1], wanted);
      if xs[|xs| - 1] in wanted then front + [xs[|xs| - 1]] else front
  }

  ghost predicate Distinct(xs: seq<string>) {
    forall i, j :: 0 <= i < j < |xs| ==> xs[i] != xs[j]
  }

  lemma {:induction false} WithoutIsDistinct(xs: seq<string>, x: string)
    requires Distinct(xs)
    ensures Distinct(Without(xs, x)) && |Without(xs, x)| == if x in xs then |xs| - 1 else |xs|
  {
    if xs != [] {
      WithoutIsDistinct(xs[..|xs| - 1], x);
      assert xs == xs[..|xs| - 1] + [xs[|xs| - 1]] && xs[|xs| - 1] !in Without(xs[..|xs| - 1], x);
    }
  }

  lemma {:induction false} KeepIsDistinct(xs: seq<string>, wanted: set<string>)
    requires Distinct(xs)
    ensures Distinct(Keep(xs, wanted))
  {
    if xs != [] {
      KeepIsDistinct(xs[..|xs| - 1], wanted);
      assert xs[|xs| - 1] !in Keep(xs[..|xs| - 1], wanted);
    }
  }

  /** Both go through the names in order: they may be done part by part. */
  lemma {:induction false} FilterInOrder(a: seq<string>, b: seq<string>, x: string, wanted: set<string>)
    ensures Without(a + b, x) == Without(a, x) + Without(b, x)
    ensures Keep(a + b, wanted) == Keep(a, wanted) + Keep(b, wanted)
  {
    if b == [] {
      assert a + b == a;
    } else {
      assert (a + b)[..|a + b| - 1] == a + b[..|b| - 1];
      FilterInOrder(a, b[..|b| - 1], x, wanted);
    }
  }

  lemma {:induction false} KeepAll(xs: seq<string>, wanted: set<string>)
    requires forall x :: x in xs ==> x in wanted
    ensures Keep(xs, wanted) == xs
  {
    if xs != [] {
      KeepAll(xs[..|xs| - 1], wanted);
    }
  }

  lemma {:induction false} KeepNone(xs: seq<string>, wanted: set<string>)
    requires forall x :: x in xs ==> x !in wanted
    ensures Keep(xs, wanted) == []
  {
    if xs != [] {
      KeepNone(xs[..|xs| - 1], wanted);
    }
  }

  lemma AppendIsDistinct(xs: seq<string>, x: string)
    requires Distinct(xs) && x !in xs
    ensures Distinct(xs + [x])
  {
  }

  // ---------- Roles in the pool ----------

  function NamesOf(pool: seq<Candidate>): set<string> {
    set i | 0 <= i < |pool| :: pool[i].name
  }

  function NamesWithRole(pool: seq<Candidate>, role: Experts.Role): set<string> {
    set i | 0 <= i < |pool| && pool[i].role == role :: pool[i].name
  }

  /** The role of the first expert of that name. */
  function RoleOf(pool: seq<Candidate>, name: string): Option<Experts.Role> {
    if pool == [] then None
    else if pool[0].name == name then Some(pool[0].role)
    else RoleOf(pool[1..], name)
  }

  lemma {:induction false} RoleOfName(pool: seq<Candidate>, name: string, role: Experts.Role)
    requires UniqueNames(pool)
    ensures RoleOf(pool, name) == Some(role) <==> name in NamesWithRole(pool, role)
  {
    if pool == [] || pool[0].name == name {
    } else {
      RoleOfName(pool[1..], name, role);
      if name in NamesWithRole(pool, role) {
        var i :| 0 <= i < |pool| && pool[i].role == role && pool[i].name == name;
        assert pool[1..][i - 1] == pool[i];
      }
    }
  }

  /** The first expert of a role that is not among the excluded ones. */
  function FirstWithRole(pool: seq<Candidate>, role: Experts.Role, excluded: seq<string>): (r: Option<string>)
    ensures r.Some? ==> r.value in NamesWithRole(pool, role) && r.value !in excluded
    ensures r == None ==> forall name :: name in NamesWithRole(pool, role) ==> name in excluded
  {
    if pool == [] then None
    else if pool[0].role == role && pool[0].name !in excluded then Some(pool[0].name)
    else
      var r := FirstWithRole(pool[1..], role, excluded);
      assert forall i :: 0 < i < |pool| ==> pool[i] == pool[1..][i - 1];
      r
  }

  /** No expert before the one found would do. */
  lemma {:induction false} FirstWithRoleIsFirst(pool: seq<Candidate>, role: Experts.Role, excluded: seq<string>)
    ensures var r := FirstWithRole(pool, role, excluded);
            r.Some? ==> exists i :: 0 <= i < |pool| && pool[i].name == r.value && pool[i].role == role && r.value !in excluded
                          && forall j :: 0 <= j < i ==> pool[j].role != role || pool[j].name in excluded
  {
    var r := FirstWithRole(pool, role, excluded);
    if r.Some? && !(pool[0].role == role && pool[0].name !in excluded) {
      FirstWithRoleIsFirst(pool[1..], role, excluded);
      var i :| 0 <= i < |pool[1..]| && pool[1..][i].name == r.value && pool[1..][i].role == role && r.value !in excluded
               && forall j :: 0 <= j < i ==> pool[1..][j].role != role || pool[1..][j].name in excluded;
      assert pool[i + 1] == pool[1..][i];
      forall j | 0 <= j < i + 1
        ensures pool[j].role != role || pool[j].name in excluded
      {
        if j > 0 {
          assert pool[j] == pool[1..][j - 1];
        }
      }
    }
  }

  method FindWithRole(pool: seq<Candidate>, role: Experts.Role, excluded: seq<string>) returns (r: Option<string>)
    ensures r == FirstWithRole(pool, role, excluded)
  {
    assert pool[0..] == pool;
    for i := 0 to |pool|
      invariant FirstWithRole(pool, role, excluded) == FirstWithRole(pool[i..], role, excluded)
    {
      assert pool[i..][0] == pool[i] && pool[i..][1..] == pool[i + 1..];
      if pool[i].role == role && pool[i].name !in excluded {
        return Some(pool[i].name);
      }
    }
    r := None;
  }

  // ---------- From a ranking to a selection ----------

  /** The selection before the forced role is looked at: never empty. */
  function AtLeastOne(st: Settings, pool: seq<Candidate>, top: seq<string>, ranked: seq<string>): seq<string>
    requires pool != []
  {
    var selected := if |top| < st.minActivation && ranked != [] then [ranked[0]] else top;
    if selected != [] then selected
    else
      match FirstWithRole(pool, st.forced, [])
      case Some(name) => [name]
      case None => [pool[0].name]
  }

  function WithForced(st: Settings, pool: seq<Candidate>, selected: seq<string>, present: bool): seq<string> {
    if present then selected
    else
      match FirstWithRole(pool, st.forced, selected)
      case Some(name) => selected + [name]
      case None => selected
  }

  function ForcedLast(st: Settings, pool: seq<Candidate>, selected: seq<string>): seq<string> {
    var forced := Keep(selected, NamesWithRole(pool, st.forced));
    if forced == [] then selected
    else Without(selected, forced[|forced| - 1]) + [forced[|forced| - 1]]
  }

  function Capped(st: Settings, selected: seq<string>): seq<string> {
    if st.maxActivation > 0 then Take(selected, st.maxActivation) else selected
  }

  function Finish(st: Settings, pool: seq<Candidate>, selected: seq<string>, present: bool): seq<string> {
    Capped(st, ForcedLast(st, pool, WithForced(st, pool, selected, present)))
  }

  ghost predicate IsSelection(pool: seq<Candidate>, selected: seq<string>) {
    selected != [] && Distinct(selected) && forall n :: n in selected ==> n in NamesOf(pool)
  }

  predicate Contains(pool: seq<Candidate>, role: Experts.Role, selected: seq<string>) {
    exists i :: 0 <= i < |selected| && selected[i] in NamesWithRole(pool, role)
  }

  predicate EndsIn(pool: seq<Candidate>, role: Experts.Role, selected: seq<string>) {
    selected != [] && selected[|selected| - 1] in NamesWithRole(pool, role)
  }

  predicate FitsCap(st: Settings, selected: seq<string>) {
    st.maxActivation > 0 ==> |selected| <= st.maxActivation
  }

  /** Appending, moving and capping keep a selection a selection within the cap. */
  lemma FinishedIsSelection(st: Settings, pool: seq<Candidate>, selected: seq<string>, present: bool)
    requires IsSelection(pool, selected)
    ensures IsSelection(pool, Finish(st, pool, selected, present)) && FitsCap(st, Finish(st, pool, selected, present))
  {
    var appended := WithForced(st, pool, selected, present);
    assert IsSelection(pool, appended);
    var forced := Keep(appended, NamesWithRole(pool, st.forced));
    if forced != [] {
      WithoutIsDistinct(appended, forced[|forced| - 1]);
      AppendIsDistinct(Without(appended, forced[|forced| - 1]), forced[|forced| - 1]);
    }
    assert IsSelection(pool, ForcedLast(st, pool, appended));
  }

  /** The forced role ends the finished selection if and only if it was selected already or one slot was
      still free: an expert of that role that is appended over the cap is cut off again. */
  lemma FinishedEndsInForcedIff(st: Settings, pool: seq<Candidate>, selected: seq<string>, present: bool)
    requires IsSelection(pool, selected) && FitsCap(st, selected)
    requires present <==> Contains(pool, st.forced, selected)
    requires NamesWithRole(pool, st.forced) != {}
    ensures EndsIn(pool, st.forced, Finish(st, pool, selected, present))
       <==> present || st.maxActivation <= 0 || |selected| < st.maxActivation
  {
    var names := NamesWithRole(pool, st.forced);
    var appended := WithForced(st, pool, selected, present);
    var forced := Keep(appended, names);
    if present {
      var i :| 0 <= i < |selected| && selected[i] in names;
      assert selected[i] in forced;
    } else {
      var name :| name in names;
      assert name !in selected;
      assert appended == selected + [FirstWithRole(pool, st.forced, selected).value];
      assert appended[|selected|] in forced;
    }
    var last := forced[|forced| - 1];
    assert last in forced;
    assert Distinct(appended);
    WithoutIsDistinct(appended, last);
    var moved := Without(appended, last) + [last];
    if |appended| > st.maxActivation > 0 {
      var cut := moved[..st.maxActivation];
      assert last == appended[|selected|];
      assert cut[|cut| - 1] in Without(appended, last);
      assert cut[|cut| - 1] in selected;
    }
  }

  // ---------- Ranking by role ----------

  type Scores = Candidate -> real

  /** Where the best candidate of a role is kept; behind the end if there is none yet. */
  function RoleIndex(best: seq<Candidate>, role: Experts.Role): (i: nat)
    ensures i <= |best| && (i < |best| ==> best[i].role == role)
    ensures forall j :: 0 <= j < i ==> best[j].role != role
  {
    if best == [] then 0
    else if best[0].role == role then 0
    else 1 + RoleIndex(best[1..], role)
  }

  function Improve(best: seq<Candidate>, e: Candidate, score: Scores): seq<Candidate> {
    var i := RoleIndex(best, e.role);
    if i == |best| then best + [e]
    else if score(e) > score(best[i]) then best[i := e]
    else best
  }

  /** The best candidate of each role, roles in the order in which they first occur. */
  function RoleBest(pool: seq<Candidate>, score: Scores): seq<Candidate> {
    if pool == [] then [] else Improve(RoleBest(pool[..|pool| - 1], score), pool[|pool| - 1], score)
  }

  /** The candidate's role is taken by one that scores at least as much. */
  ghost predicate Covered(best: seq<Candidate>, c: Candidate, score: Scores) {
    exists i :: 0 <= i < |best| && best[i].role == c.role && score(best[i]) >= score(c)
  }

  lemma ImproveKeepsCover(best: seq<Candidate>, e: Candidate, score: Scores, c: Candidate)
    ensures Covered(Improve(best, e, score), e, score)
    ensures Covered(best, c, score) ==> Covered(Improve(best, e, score), c, score)
  {
    var at, after := RoleIndex(best, e.role), Improve(best, e, score);
    assert after[at].role == e.role && score(after[at]) >= score(e);
    if Covered(best, c, score) {
      var i :| 0 <= i < |best| && best[i].role == c.role && score(best[i]) >= score(c);
      assert after[i].role == c.role && score(after[i]) >= score(c);
    }
  }

  ghost predicate DistinctRoles(best: seq<Candidate>) {
    forall i, j :: 0 <= i < j < |best| ==> best[i].role != best[j].role
  }

  lemma ImproveKeepsRoles(best: seq<Candidate>, e: Candidate, score: Scores)
    requires DistinctRoles(best)
    ensures var after := Improve(best, e, score);
            && DistinctRoles(after) && after != []
            && forall i :: 0 <= i < |after| ==> after[i] == e || after[i] in best
  {
    var at := RoleIndex(best, e.role);
    if at == |best| {
      assert forall i :: 0 <= i < |best| ==> best[i].role != e.role;
    }
  }

  /** One candidate for every role of the pool, from the pool, and none of its role scores more. */
  lemma {:induction false} RoleBestIsBest(pool: seq<Candidate>, score: Scores)
    ensures var best := RoleBest(pool, score);
            && DistinctRoles(best)
            && (forall i :: 0 <= i < |best| ==> best[i] in pool)
            && (forall k :: 0 <= k < |pool| ==> Covered(best, pool[k], score))
            && (pool != [] ==> best != [])
  {
    if pool != [] {
      var front, e := pool[..|pool| - 1], pool[|pool| - 1];
      var before := RoleBest(front, score);
      RoleBestIsBest(front, score);
      assert pool == front + [e] && RoleBest(pool, score) == Improve(before, e, score);
      ImproveKeepsRoles(before, e, score);
      hide *;
      forall k | 0 <= k < |pool|
        ensures Covered(RoleBest(pool, score), pool[k], score)
      {
        assert k < |front| ==> front[k] == pool[k];
        ImproveKeepsCover(before, e, score, pool[k]);
      }
    }
  }

  /** `b` stands somewhere in the pool with everyone of its role before it scoring less. */
  ghost predicate LeadsFrom(pool: seq<Candidate>, b: Candidate, score: Scores) {
    exists j :: 0 <= j < |pool| && pool[j] == b && forall k :: 0 <= k < j && pool[k].role == b.role ==> score(pool[k]) < score(b)
  }

  /** Of equally good ones the first in the pool is taken. */
  lemma {:induction false} RoleBestIsFirst(pool: seq<Candidate>, score: Scores)
    ensures forall i :: 0 <= i < |RoleBest(pool, score)| ==> LeadsFrom(pool, RoleBest(pool, score)[i], score)
  {
    hide *;
    if pool != [] {
      var front, e := pool[..|pool| - 1], pool[|pool| - 1];
      RoleBestIsFirst(front, score);
      RoleBestIsBest(front, score);
      RoleBestStep(pool, score);
      ImproveLeads(front, RoleBest(front, score), e, score);
      assert pool == front + [e];
    } else {
      NoRoles(score);
    }
  }

  lemma RoleBestStep(pool: seq<Candidate>, score: Scores)
    requires pool != []
    ensures RoleBest(pool, score) == Improve(RoleBest(pool[..|pool| - 1], score), pool[|pool| - 1], score)
  {
  }

  lemma NoRoles(score: Scores)
    ensures RoleBest([], score) == []
  {
  }

  lemma ImproveLeads(front: seq<Candidate>, before: seq<Candidate>, e: Candidate, score: Scores)
    requires DistinctRoles(before) && forall k :: 0 <= k < |front| ==> Covered(before, front[k], score)
    requires forall i :: 0 <= i < |before| ==> LeadsFrom(front, before[i], score)
    ensures forall i :: 0 <= i < |Improve(before, e, score)| ==> LeadsFrom(front + [e], Improve(before, e, score)[i], score)
  {
    hide *;
    var best := Improve(before, e, score);
    forall i | 0 <= i < |best|
      ensures LeadsFrom(front + [e], best[i], score)
    {
      ImproveOrigin(before, e, score, i);
      if i < |before| && best[i] == before[i] {
        StillLeads(front, e, best[i], score);
      } else {
        NewLeads(front, before, e, score);
      }
    }
  }

  lemma ImproveOrigin(before: seq<Candidate>, e: Candidate, score: Scores, i: nat)
    requires i < |Improve(before, e, score)|
    ensures var best := Improve(before, e, score);
            || (i < |before| && best[i] == before[i])
            || (best[i] == e && e in best
                && (RoleIndex(before, e.role) == |before| || score(e) > score(before[RoleIndex(before, e.role)])))
  {
  }

  lemma StillLeads(front: seq<Candidate>, e: Candidate, b: Candidate, score: Scores)
    requires LeadsFrom(front, b, score)
    ensures LeadsFrom(front + [e], b, score)
  {
    var j :| 0 <= j < |front| && front[j] == b && forall k :: 0 <= k < j && front[k].role == b.role ==> score(front[k]) < score(b);
    assert (front + [e])[j] == b;
  }

  lemma NewLeads(front: seq<Candidate>, before: seq<Candidate>, e: Candidate, score: Scores)
    requires DistinctRoles(before) && forall k :: 0 <= k < |front| ==> Covered(before, front[k], score)
    requires e in Improve(before, e, score) && (RoleIndex(before, e.role) == |before| || score(e) > score(before[RoleIndex(before, e.role)]))
    ensures LeadsFrom(front + [e], e, score)
  {
    var all := front + [e];
    forall k | 0 <= k < |front| && all[k].role == e.role
      ensures score(all[k]) < score(e)
    {
      assert Covered(before, front[k], score);
      var i :| 0 <= i < |before| && before[i].role == front[k].role && score(before[i]) >= score(front[k]);
    }
    assert all[|front|] == e;
  }

  function Passing(best: seq<Candidate>, score: Scores, threshold: real): seq<Candidate> {
    if best == [] then []
    else
      var front := Passing(best[..|best| - 1], score, threshold);
      if score(best[|best| - 1]) >= threshold then front + [best[|best| - 1]] else front
  }

  /** Highest score first. */
  function Descending(score: Scores): Candidate -> real {
    (c: Candidate) => -score(c)
  }

  function Ranked(score: Scores, candidates: seq<Candidate>): seq<Candidate> {
    Sort(Descending(score), candidates)
  }

  function Names(candidates: seq<Candidate>): (names: seq<string>)
    ensures |names| == |candidates| && forall i :: 0 <= i < |names| ==> names[i] == candidates[i].name
  {
    seq(|candidates|, i requires 0 <= i < |candidates| => candidates[i].name)
  }

  lemma {:induction false} PassingAre(best: seq<Candidate>, score: Scores, threshold: real)
    ensures forall c :: c in Passing(best, score, threshold) <==> c in best && score(c) >= threshold
    ensures DistinctNames(best) ==> DistinctNames(Passing(best, score, threshold))
  {
    if best != [] {
      var front, last := best[..|best| - 1], best[|best| - 1];
      PassingAre(front, score, threshold);
      assert best == front + [last];
      if DistinctNames(best) {
        var passing := Passing(front, score, threshold);
        forall i | 0 <= i < |passing| ensures passing[i].name != last.name {
          assert passing[i] in front;
        }
      }
    }
  }

  ghost predicate DistinctNames(cs: seq<Candidate>) {
    forall i, j :: 0 <= i < j < |cs| ==> cs[i].name != cs[j].name
  }

  /** Candidates of different names are still of different names in another order. */
  lemma PermutedNames(xs: seq<Candidate>, ys: seq<Candidate>)
    requires DistinctNames(xs) && multiset(xs) == multiset(ys)
    ensures DistinctNames(ys)
  {
    SameElements(xs, ys);
    forall i, j | 0 <= i < j < |ys|
      ensures ys[i].name != ys[j].name
    {
      assert ys[i] in ys && ys[j] in ys;
      var k :| 0 <= k < |xs| && xs[k] == ys[i];
      var l :| 0 <= l < |xs| && xs[l] == ys[j];
      if k == l {
        TwiceIn(ys, i, j);
        OnceIn(xs, k);
      }
    }
  }

  lemma TwiceIn(ys: seq<Candidate>, i: nat, j: nat)
    requires i < j < |ys| && ys[i] == ys[j]
    ensures multiset(ys)[ys[i]] >= 2
  {
    assert ys == ys[..j] + [ys[j]] + ys[j + 1..];
    assert ys[i] in ys[..j];
  }

  lemma OnceIn(xs: seq<Candidate>, k: nat)
    requires DistinctNames(xs) && k < |xs|
    ensures multiset(xs)[xs[k]] == 1
  {
    assert xs == xs[..k] + [xs[k]] + xs[k + 1..];
    assert xs[k] !in xs[..k] && xs[k] !in xs[k + 1..];
  }

  // ---------- The three routers ----------

  function LogisticTop(st: Settings, score: Scores, pool: seq<Candidate>): seq<Candidate> {
    Ranked(score, Passing(RoleBest(pool, score), score, st.threshold))
  }

  /** The logistic router's selection before the forced role is looked at. */
  function LogisticPick(st: Settings, score: Scores, pool: seq<Candidate>): seq<string>
    requires pool != []
  {
    var ranked := Names(LogisticTop(st, score, pool));
    AtLeastOne(st, pool, Take(ranked, st.maxActivation), ranked)
  }

  function LogisticRoute(st: Settings, score: Scores, pool: seq<Candidate>): seq<string> {
    if pool == [] then []
    else
      var selected := LogisticPick(st, score, pool);
      Finish(st, pool, selected, exists i :: 0 <= i < |selected| && RoleOf(pool, selected[i]) == Some(st.forced))
  }

  /** The cosine router ranks every expert, caps and only then filters. */
  function CosinePick(st: Settings, score: Scores, pool: seq<Candidate>): seq<string>
    requires pool != []
  {
    var ranked := Ranked(score, pool);
    AtLeastOne(st, pool, Names(Passing(Take(ranked, st.maxActivation), score, st.threshold)), Names(ranked))
  }

  function CosineRoute(st: Settings, score: Scores, pool: seq<Candidate>): seq<string> {
    if pool == [] then []
    else
      var selected := CosinePick(st, score, pool);
      Finish(st, pool, selected, Contains(pool, st.forced, selected))
  }

  /** The first of several names in a set. */
  function FirstIn(xs: seq<string>, wanted: set<string>): (r: Option<string>)
    ensures r.Some? ==> r.value in xs && r.value in wanted
    ensures r == None ==> forall x :: x in xs ==> x !in wanted
  {
    if xs == [] then None else if xs[0] in wanted then Some(xs[0]) else FirstIn(xs[1..], wanted)
  }

  lemma {:induction false} FirstInIsFirst(xs: seq<string>, wanted: set<string>)
    ensures var r := FirstIn(xs, wanted);
            r.Some? ==> exists i :: 0 <= i < |xs| && xs[i] == r.value && forall j :: 0 <= j < i ==> xs[j] !in wanted
  {
    var r := FirstIn(xs, wanted);
    if r.Some? && xs[0] !in wanted {
      FirstInIsFirst(xs[1..], wanted);
      var i :| 0 <= i < |xs[1..]| && xs[1..][i] == r.value && forall j :: 0 <= j < i ==> xs[1..][j] !in wanted;
      assert xs[i + 1] == xs[1..][i];
      forall j | 0 <= j < i + 1
        ensures xs[j] !in wanted
      {
        if j > 0 {
          assert xs[j] == xs[1..][j - 1];
        }
      }
    }
  }

  /** The union of two routes: `first` in its order, then the rest in the order the set happens to have. */
  function Ordered(first: seq<string>, union: seq<string>): seq<string> {
    Keep(first, set n | n in union) + Keep(union, (set n | n in union) - (set n | n in first))
  }

  /** The hybrid router keeps a slot for the forced role. */
  function Reserved(st: Settings, pool: seq<Candidate>, ordered: seq<string>): seq<string> {
    var names := NamesWithRole(pool, st.forced);
    if names == {} then Capped(st, ordered)
    else
      var inside := FirstIn(ordered, names);
      var last := if inside.Some? then inside else FirstWithRole(pool, st.forced, []);
      match last
      case None => ordered
      case Some(name) =>
        var others := Without(ordered, name);
        (if st.maxActivation > 0 then Take(others, st.maxActivation - 1) else others) + [name]
  }

  /** `union` lists the names both sub-routers chose between them, in any order. */
  function HybridRoute(st: Settings, pool: seq<Candidate>, logistic: seq<string>, union: seq<string>): seq<string> {
    if union == [] then logistic else Reserved(st, pool, Ordered(logistic, union))
  }

  // ---------- What every route is ----------

  lemma TakeFacts<T>(xs: seq<T>, m: int)
    ensures |Take(xs, m)| <= |xs| && Take(xs, m) == xs[..|Take(xs, m)|]
    ensures m >= 0 ==> |Take(xs, m)| == if m < |xs| then m else |xs|
    ensures m < 0 ==> |Take(xs, m)| == if |xs| + m > 0 then |xs| + m else 0
  {
  }

  /** Candidates from the pool, in any order and each at most once, have names that make a selection. */
  lemma RankedIsDistinct(pool: seq<Candidate>, candidates: seq<Candidate>, score: Scores)
    requires DistinctNames(candidates) && forall c :: c in candidates ==> c in pool
    ensures var ranked := Ranked(score, candidates);
            && Distinct(Names(ranked)) && (forall n :: n in Names(ranked) ==> n in NamesOf(pool))
            && SortedBy(Descending(score), ranked) && multiset(ranked) == multiset(candidates)
  {
    var ranked := Ranked(score, candidates);
    SortSorts(Descending(score), candidates);
    PermutedNames(candidates, ranked);
    SameElements(candidates, ranked);
    forall n | n in Names(ranked)
      ensures n in NamesOf(pool)
    {
      var i :| 0 <= i < |ranked| && Names(ranked)[i] == n;
      assert ranked[i] in ranked;
      var k :| 0 <= k < |pool| && pool[k] == ranked[i];
    }
  }

  lemma UniqueInPool(pool: seq<Candidate>, cs: seq<Candidate>)
    requires UniqueNames(pool) && DistinctRoles(cs) && forall i :: 0 <= i < |cs| ==> cs[i] in pool
    ensures DistinctNames(cs)
  {
    forall i, j | 0 <= i < j < |cs|
      ensures cs[i].name != cs[j].name
    {
      var k :| 0 <= k < |pool| && pool[k] == cs[i];
      var l :| 0 <= l < |pool| && pool[l] == cs[j];
    }
  }

  /** A cut of a ranking is completed to a selection within the cap. */
  lemma AtLeastOneIsSelection(st: Settings, pool: seq<Candidate>, top: seq<string>, ranked: seq<string>)
    requires pool != []
    requires Distinct(top) && (forall n :: n in top ==> n in NamesOf(pool)) && FitsCap(st, top)
    requires forall n :: n in ranked ==> n in NamesOf(pool)
    ensures IsSelection(pool, AtLeastOne(st, pool, top, ranked)) && FitsCap(st, AtLeastOne(st, pool, top, ranked))
  {
    assert pool[0].name in NamesOf(pool);
    if ranked != [] {
      assert ranked[0] in ranked;
    }
  }

  lemma LogisticPickIsSelection(st: Settings, score: Scores, pool: seq<Candidate>)
    requires pool != [] && UniqueNames(pool)
    ensures IsSelection(pool, LogisticPick(st, score, pool)) && FitsCap(st, LogisticPick(st, score, pool))
  {
    var best := RoleBest(pool, score);
    var passing := Passing(best, score, st.threshold);
    RoleBestIsBest(pool, score);
    UniqueInPool(pool, best);
    PassingAre(best, score, st.threshold);
    RankedIsDistinct(pool, passing, score);
    var ranked := Names(LogisticTop(st, score, pool));
    TakeFacts(ranked, st.maxActivation);
    AtLeastOneIsSelection(st, pool, Take(ranked, st.maxActivation), ranked);
  }

  lemma CosinePickIsSelection(st: Settings, score: Scores, pool: seq<Candidate>)
    requires pool != [] && UniqueNames(pool)
    ensures IsSelection(pool, CosinePick(st, score, pool)) && FitsCap(st, CosinePick(st, score, pool))
  {
    RankedIsDistinct(pool, pool, score);
    var ranked := Ranked(score, pool);
    var head := Take(ranked, st.maxActivation);
    TakeFacts(ranked, st.maxActivation);
    PassingAre(head, score, st.threshold);
    PassingIsShorter(head, score, st.threshold);
    assert forall i :: 0 <= i < |ranked| ==> ranked[i].name == Names(ranked)[i] && ranked[i].name in Names(ranked);
    var top := Names(Passing(head, score, st.threshold));
    forall n | n in top
      ensures n in NamesOf(pool)
    {
      var i :| 0 <= i < |top| && top[i] == n;
      assert Passing(head, score, st.threshold)[i] in head;
    }
    AtLeastOneIsSelection(st, pool, top, Names(ranked));
  }

  lemma {:induction false} PassingIsShorter(cs: seq<Candidate>, score: Scores, threshold: real)
    ensures |Passing(cs, score, threshold)| <= |cs|
  {
    if cs != [] {
      PassingIsShorter(cs[..|cs| - 1], score, threshold);
    }
  }

  lemma LogisticPresence(pool: seq<Candidate>, forced: Experts.Role, selected: seq<string>)
    requires UniqueNames(pool)
    ensures (exists i :: 0 <= i < |selected| && RoleOf(pool, selected[i]) == Some(forced)) <==> Contains(pool, forced, selected)
  {
    forall i | 0 <= i < |selected|
      ensures RoleOf(pool, selected[i]) == Some(forced) <==> selected[i] in NamesWithRole(pool, forced)
    {
      RoleOfName(pool, selected[i], forced);
    }
  }

  /** On a non-empty pool the logistic router returns at least one name, names of the pool, none twice and
      none over the cap; the forced role comes last, if the pool has it, exactly when the selection
      before appending has it or leaves a slot free. */
  lemma LogisticRouteIs(st: Settings, score: Scores, pool: seq<Candidate>)
    requires pool != [] && UniqueNames(pool)
    ensures var selected := LogisticRoute(st, score, pool);
            var pick := LogisticPick(st, score, pool);
            && IsSelection(pool, selected) && FitsCap(st, selected)
            && (NamesWithRole(pool, st.forced) != {} ==>
                  (EndsIn(pool, st.forced, selected)
                   <==> Contains(pool, st.forced, pick) || st.maxActivation <= 0 || |pick| < st.maxActivation))
  {
    var pick := LogisticPick(st, score, pool);
    LogisticPickIsSelection(st, score, pool);
    LogisticPresence(pool, st.forced, pick);
    var present := Contains(pool, st.forced, pick);
    FinishedIsSelection(st, pool, pick, present);
    if NamesWithRole(pool, st.forced) != {} {
      FinishedEndsInForcedIff(st, pool, pick, present);
    }
  }

  /** The same for the cosine router. */
  lemma CosineRouteIs(st: Settings, score: Scores, pool: seq<Candidate>)
    requires pool != [] && UniqueNames(pool)
    ensures var selected := CosineRoute(st, score, pool);
            var pick := CosinePick(st, score, pool);
            && IsSelection(pool, selected) && FitsCap(st, selected)
            && (NamesWithRole(pool, st.forced) != {} ==>
                  (EndsIn(pool, st.forced, selected)
                   <==> Contains(pool, st.forced, pick) || st.maxActivation <= 0 || |pick| < st.maxActivation))
  {
    var pick := CosinePick(st, score, pool);
    CosinePickIsSelection(st, score, pool);
    var present := Contains(pool, st.forced, pick);
    FinishedIsSelection(st, pool, pick, present);
    if NamesWithRole(pool, st.forced) != {} {
      FinishedEndsInForcedIff(st, pool, pick, present);
    }
  }

  ghost predicate IsUnion(union: seq<string>, a: seq<string>, b: seq<string>) {
    Distinct(union) && forall n :: n in union <==> n in a || n in b
  }

  lemma OrderedIsSelection(pool: seq<Candidate>, first: seq<string>, union: seq<string>)
    requires Distinct(first) && IsSelection(pool, union) && forall n :: n in first ==> n in union
    ensures IsSelection(pool, Ordered(first, union)) && forall n :: n in Ordered(first, union) <==> n in union
  {
    var all, rest := set n | n in union, (set n | n in union) - (set n | n in first);
    KeepIsDistinct(first, all);
    KeepIsDistinct(union, rest);
    assert union[0] in union;
    assert forall i :: 0 <= i < |Keep(first, all)| ==> Keep(first, all)[i] in first;
    assert forall i :: 0 <= i < |Keep(union, rest)| ==> Keep(union, rest)[i] in rest;
  }

  lemma ReservedIs(st: Settings, pool: seq<Candidate>, ordered: seq<string>)
    requires IsSelection(pool, ordered)
    ensures IsSelection(pool, Reserved(st, pool, ordered)) && FitsCap(st, Reserved(st, pool, ordered))
    ensures NamesWithRole(pool, st.forced) != {} ==> EndsIn(pool, st.forced, Reserved(st, pool, ordered))
  {
    var names := NamesWithRole(pool, st.forced);
    TakeFacts(ordered, st.maxActivation);
    if names != {} {
      var inside := FirstIn(ordered, names);
      var last := (if inside.Some? then inside else FirstWithRole(pool, st.forced, [])).value;
      WithoutIsDistinct(ordered, last);
      TakeFacts(Without(ordered, last), st.maxActivation - 1);
      var others := if st.maxActivation > 0 then Take(Without(ordered, last), st.maxActivation - 1) else Without(ordered, last);
      assert forall n :: n in others ==> n in Without(ordered, last);
      AppendIsDistinct(others, last);
      assert Reserved(st, pool, ordered) == others + [last];
    }
  }

  /** The hybrid router's result is a selection within its cap too, and always ends in the forced role if
      the pool has it, whatever the sub-routers are set to and however the union set is ordered. */
  lemma HybridRouteIs(st: Settings, ls: Settings, cs: Settings, lscore: Scores, cscore: Scores,
                      pool: seq<Candidate>, union: seq<string>)
    requires pool != [] && UniqueNames(pool)
    requires IsUnion(union, LogisticRoute(ls, lscore, pool), CosineRoute(cs, cscore, pool))
    ensures var selected := HybridRoute(st, pool, LogisticRoute(ls, lscore, pool), union);
            && IsSelection(pool, selected) && FitsCap(st, selected)
            && (NamesWithRole(pool, st.forced) != {} ==> EndsIn(pool, st.forced, selected))
  {
    var logistic := LogisticRoute(ls, lscore, pool);
    LogisticRouteIs(ls, lscore, pool);
    CosineRouteIs(cs, cscore, pool);
    assert logistic[0] in logistic;
    assert logistic[0] in union;
    OrderedIsSelection(pool, logistic, union);
    ReservedIs(st, pool, Ordered(logistic, union));
  }

  /** A forced expert in the selection moves to the end and the rest keeps its order. */
  lemma FinishMovesForced(st: Settings, pool: seq<Candidate>, selected: seq<string>) returns (last: string)
    requires IsSelection(pool, selected) && FitsCap(st, selected) && Contains(pool, st.forced, selected)
    ensures last in selected && last in NamesWithRole(pool, st.forced)
    ensures Finish(st, pool, selected, true) == Without(selected, last) + [last]
  {
    var names := NamesWithRole(pool, st.forced);
    var forced := Keep(selected, names);
    var i :| 0 <= i < |selected| && selected[i] in names;
    assert selected[i] in selected;
    assert selected[i] in forced;
    last := forced[|forced| - 1];
    assert last in forced;
    WithoutIsDistinct(selected, last);
    var moved := Without(selected, last) + [last];
    assert ForcedLast(st, pool, selected) == moved && |moved| == |selected|;
    CappedFits(st, moved);
    hide *;
  }

  lemma CappedFits(st: Settings, selected: seq<string>)
    requires FitsCap(st, selected)
    ensures Capped(st, selected) == selected
  {
  }

  /** Where the pool has no such expert nothing changes. */
  lemma FinishChangesNothing(st: Settings, pool: seq<Candidate>, selected: seq<string>)
    requires FitsCap(st, selected) && NamesWithRole(pool, st.forced) == {}
    ensures Finish(st, pool, selected, false) == selected
  {
    KeepNone(selected, NamesWithRole(pool, st.forced));
  }

  /** A missing one is put behind the selection if there is a free slot, and cut off again if not. */
  lemma FinishAppendsForced(st: Settings, pool: seq<Candidate>, selected: seq<string>) returns (name: string)
    requires IsSelection(pool, selected) && FitsCap(st, selected) && !Contains(pool, st.forced, selected)
    requires NamesWithRole(pool, st.forced) != {}
    ensures name in NamesWithRole(pool, st.forced) && name !in selected
    ensures Finish(st, pool, selected, false) == if |selected| == st.maxActivation then selected else selected + [name]
  {
    var names := NamesWithRole(pool, st.forced);
    assert forall i :: 0 <= i < |selected| ==> selected[i] in selected;
    name := FirstWithRole(pool, st.forced, selected).value;
    var appended := selected + [name];
    assert WithForced(st, pool, selected, false) == appended;
    KeepLast(selected, name, names);
    WithoutLast(selected, name);
    assert ForcedLast(st, pool, appended) == appended;
    hide Keep, Without, FirstWithRole;
    assert appended[..|selected|] == selected;
  }

  lemma KeepLast(xs: seq<string>, x: string, wanted: set<string>)
    requires x in wanted && forall y :: y in xs ==> y !in wanted
    ensures Keep(xs + [x], wanted) == [x]
  {
    assert (xs + [x])[..|xs|] == xs;
    KeepNone(xs, wanted);
  }

  /** What finishing does to a selection within the cap. */
  lemma FinishedContents(st: Settings, pool: seq<Candidate>, selected: seq<string>, present: bool)
    requires IsSelection(pool, selected) && FitsCap(st, selected)
    requires present <==> Contains(pool, st.forced, selected)
    ensures var finished := Finish(st, pool, selected, present);
            if present then
              exists last :: last in selected && last in NamesWithRole(pool, st.forced)
                             && finished == Without(selected, last) + [last]
            else if NamesWithRole(pool, st.forced) == {} || |selected| == st.maxActivation then finished == selected
            else exists name :: name in NamesWithRole(pool, st.forced) && finished == selected + [name]
  {
    if present {
      var _ := FinishMovesForced(st, pool, selected);
    } else if NamesWithRole(pool, st.forced) == {} {
      FinishChangesNothing(st, pool, selected);
    } else {
      var _ := FinishAppendsForced(st, pool, selected);
    }
    hide *;
  }

  lemma WithoutLast(xs: seq<string>, x: string)
    requires x !in xs
    ensures Without(xs + [x], x) == xs
  {
    assert (xs + [x])[..|xs|] == xs;
    WithoutNothing(xs, x);
  }

  lemma {:induction false} WithoutNothing(xs: seq<string>, x: string)
    requires x !in xs
    ensures Without(xs, x) == xs
  {
    if xs != [] {
      WithoutNothing(xs[..|xs| - 1], x);
    }
  }

  /** Everyone picked has at least this score. */
  ghost predicate AllScore(pool: seq<Candidate>, pick: seq<string>, score: Scores, least: real) {
    forall d :: d in pool && d.name in pick ==> score(d) >= least
  }

  lemma HeadScores(pool: seq<Candidate>, ranked: seq<Candidate>, score: Scores, m: nat, k: nat)
    requires UniqueNames(pool) && SortedBy(Descending(score), ranked) && m <= k < |ranked|
    requires forall c :: c in ranked ==> c in pool
    ensures AllScore(pool, Names(ranked[..m]), score, score(ranked[k]))
  {
    forall d | d in pool && d.name in Names(ranked[..m])
      ensures score(d) >= score(ranked[k])
    {
      var i :| 0 <= i < m && Names(ranked[..m])[i] == d.name;
      assert ranked[i] in ranked;
      var x :| 0 <= x < |pool| && pool[x] == ranked[i];
      var y :| 0 <= y < |pool| && pool[y] == d;
      assert Descending(score)(ranked[i]) <= Descending(score)(ranked[k]);
    }
  }

  /** A cut ranking names its `k`-th candidate, or is used up by candidates that score at least as much. */
  lemma CutOfRanking(pool: seq<Candidate>, ranked: seq<Candidate>, score: Scores, m: nat, k: nat)
    requires UniqueNames(pool) && SortedBy(Descending(score), ranked) && k < |ranked|
    requires forall c :: c in ranked ==> c in pool
    ensures Take(Names(ranked), m) == Names(Take(ranked, m))
    ensures var pick := Take(Names(ranked), m);
            ranked[k].name in pick || (|pick| == m && AllScore(pool, pick, score, score(ranked[k])))
  {
    TakeFacts(Names(ranked), m);
    TakeFacts(ranked, m);
    var pick := Take(Names(ranked), m);
    assert pick == Names(Take(ranked, m));
    if k < m {
      assert pick[k] == ranked[k].name;
    } else {
      HeadScores(pool, ranked, score, m, k);
    }
  }

  /** Every expert that reaches the threshold has one of its role, at least as good, in the ranking. */
  lemma RoleIsRanked(st: Settings, score: Scores, pool: seq<Candidate>, c: Candidate) returns (k: nat)
    requires UniqueNames(pool) && c in pool && score(c) >= st.threshold
    ensures var top := LogisticTop(st, score, pool);
            && k < |top| && top[k].role == c.role && score(top[k]) >= score(c)
            && SortedBy(Descending(score), top) && forall d :: d in top ==> d in pool
  {
    var passing := Passing(RoleBest(pool, score), score, st.threshold);
    var top := LogisticTop(st, score, pool);
    var d := RolePasses(st, score, pool, c);
    SortSorts(Descending(score), passing);
    SameElements(top, passing);
    hide *;
    k :| 0 <= k < |top| && top[k] == d;
  }

  lemma RolePasses(st: Settings, score: Scores, pool: seq<Candidate>, c: Candidate) returns (d: Candidate)
    requires c in pool && score(c) >= st.threshold
    ensures var passing := Passing(RoleBest(pool, score), score, st.threshold);
            d in passing && d.role == c.role && score(d) >= score(c) && forall e :: e in passing ==> e in pool
  {
    var best := RoleBest(pool, score);
    RoleBestIsBest(pool, score);
    PassingAre(best, score, st.threshold);
    var x :| 0 <= x < |pool| && pool[x] == c;
    assert Covered(best, c, score);
    var b :| 0 <= b < |best| && best[b].role == c.role && score(best[b]) >= score(c);
    d := best[b];
  }

  /** The selection is one name because the cut of the ranking was shorter than the minimum. */
  ghost predicate Reduced(st: Settings, top: seq<string>, pick: seq<string>) {
    |pick| == 1 && |top| < st.minActivation
  }

  /** A selection made from a cut ranking keeps what the cut promises; one reduced to a single name has
      the best. */
  lemma AtLeastOnePicksTheBest(st: Settings, pool: seq<Candidate>, ranked: seq<Candidate>, score: Scores, k: nat)
    requires UniqueNames(pool) && pool != [] && SortedBy(Descending(score), ranked) && k < |ranked|
    requires (forall c :: c in ranked ==> c in pool) && st.maxActivation >= 1
    ensures var top := Take(Names(ranked), st.maxActivation);
            var pick := AtLeastOne(st, pool, top, Names(ranked));
            || ranked[k].name in pick
            || (AllScore(pool, pick, score, score(ranked[k])) && (|pick| == st.maxActivation || Reduced(st, top, pick)))
  {
    TakeFacts(Names(ranked), st.maxActivation);
    if |Take(Names(ranked), st.maxActivation)| < st.minActivation {
      CutOfRanking(pool, ranked, score, 1, k);
      assert Take(Names(ranked), 1) == [ranked[0].name];
    } else {
      CutOfRanking(pool, ranked, score, st.maxActivation, k);
    }
    hide *;
  }

  /** The logistic router passes over an expert that reaches the threshold only for one of the same role
      that scores at least as much, or because the cap is used up by experts that score at least as
      much, or because too few for the minimum were left and only the best of them was kept. */
  lemma LogisticPicksTheBest(st: Settings, score: Scores, pool: seq<Candidate>, c: Candidate)
    requires UniqueNames(pool) && st.maxActivation >= 1
    requires c in pool && score(c) >= st.threshold
    ensures var pick := LogisticPick(st, score, pool);
            var top := Take(Names(LogisticTop(st, score, pool)), st.maxActivation);
            || (exists d :: d in pool && d.name in pick && d.role == c.role && score(d) >= score(c))
            || (AllScore(pool, pick, score, score(c)) && (|pick| == st.maxActivation || Reduced(st, top, pick)))
  {
    var top := LogisticTop(st, score, pool);
    var k := RoleIsRanked(st, score, pool, c);
    AtLeastOnePicksTheBest(st, pool, top, score, k);
    assert top[k] in top;
    assert top[k] in pool && top[k].role == c.role && score(top[k]) >= score(c);
  }

  /** The cosine router passes over an expert that reaches the threshold only because the cap is used up
      by experts that score at least as much, so filtering after the cap loses nobody, or because too
      few for the minimum were left and only the best of them was kept. */
  lemma CosinePicksTheBest(st: Settings, score: Scores, pool: seq<Candidate>, c: Candidate)
    requires UniqueNames(pool) && st.maxActivation >= 1
    requires c in pool && score(c) >= st.threshold
    ensures var pick := CosinePick(st, score, pool);
            var top := Names(Passing(Take(Ranked(score, pool), st.maxActivation), score, st.threshold));
            || c.name in pick
            || (AllScore(pool, pick, score, score(c)) && (|pick| == st.maxActivation || Reduced(st, top, pick)))
  {
    var ranked := Ranked(score, pool);
    var top := Names(Passing(Take(ranked, st.maxActivation), score, st.threshold));
    SortSorts(Descending(score), pool);
    SameElements(ranked, pool);
    var k :| 0 <= k < |ranked| && ranked[k] == c;
    FilteredCut(st, pool, ranked, score, k);
    if |top| < st.minActivation {
      CutOfRanking(pool, ranked, score, 1, k);
      TakeFacts(Names(ranked), 1);
      assert Take(Names(ranked), 1) == [ranked[0].name];
    }
    assert CosinePick(st, score, pool) == AtLeastOne(st, pool, top, Names(ranked));
    hide *;
  }

  /** Filtering a cut ranking drops nobody from the cut while someone behind it passes the filter. */
  lemma FilteredCut(st: Settings, pool: seq<Candidate>, ranked: seq<Candidate>, score: Scores, k: nat)
    requires UniqueNames(pool) && SortedBy(Descending(score), ranked) && k < |ranked|
    requires (forall c :: c in ranked ==> c in pool) && st.maxActivation >= 1 && score(ranked[k]) >= st.threshold
    ensures var top := Names(Passing(Take(ranked, st.maxActivation), score, st.threshold));
            top != [] && (ranked[k].name in top
                          || (|top| == st.maxActivation && AllScore(pool, top, score, score(ranked[k]))))
  {
    var head := Take(ranked, st.maxActivation);
    TakeFacts(ranked, st.maxActivation);
    if k < |head| {
      assert head[k] == ranked[k];
      PassesFilter(head, score, st.threshold, ranked[k]);
    } else {
      HeadPasses(ranked, score, |head|, k, st.threshold);
      HeadScores(pool, ranked, score, |head|, k);
    }
    hide *;
  }

  lemma PassesFilter(cs: seq<Candidate>, score: Scores, threshold: real, c: Candidate)
    requires c in cs && score(c) >= threshold
    ensures Passing(cs, score, threshold) != [] && c.name in Names(Passing(cs, score, threshold))
  {
    PassingAre(cs, score, threshold);
    var passing := Passing(cs, score, threshold);
    assert c in passing;
    var i :| 0 <= i < |passing| && passing[i] == c;
    assert Names(passing)[i] == c.name;
  }

  lemma HeadPasses(ranked: seq<Candidate>, score: Scores, m: nat, k: nat, threshold: real)
    requires SortedBy(Descending(score), ranked) && m <= k < |ranked| && score(ranked[k]) >= threshold
    ensures Passing(ranked[..m], score, threshold) == ranked[..m]
  {
    forall i | 0 <= i < m
      ensures score(ranked[..m][i]) >= threshold
    {
      assert Descending(score)(ranked[i]) <= Descending(score)(ranked[k]);
    }
    AllPass(ranked[..m], score, threshold);
  }

  lemma {:induction false} AllPass(cs: seq<Candidate>, score: Scores, threshold: real)
    requires forall i :: 0 <= i < |cs| ==> score(cs[i]) >= threshold
    ensures Passing(cs, score, threshold) == cs
  {
    if cs != [] {
      AllPass(cs[..|cs| - 1], score, threshold);
    }
  }

  // ---------- Whom the hybrid router selects ----------

  /** The names to choose from: both routes, and the one reserved for the end. */
  function Choice(union: seq<string>, route: seq<string>, reserved: bool): set<string> {
    (set n | n in union) + if reserved && route != [] then {route[|route| - 1]} else {}
  }

  /** `chosen` takes from `first` in its order, and goes on behind it only when it is used up. */
  predicate TakesFirst(first: seq<string>, chosen: seq<string>) {
    if |chosen| <= |first| then chosen == first[..|chosen|] else chosen[..|first|] == first
  }

  lemma TakeTakesFirst(first: seq<string>, rest: seq<string>, m: int)
    ensures TakesFirst(first, Take(first + rest, m))
  {
    TakeFacts(first + rest, m);
    var n := |Take(first + rest, m)|;
    if n <= |first| {
      assert (first + rest)[..n] == first[..n];
    } else {
      assert (first + rest)[..n][..|first|] == first;
    }
  }

  lemma OrderedTakesFirst(first: seq<string>, union: seq<string>)
    requires forall n :: n in first ==> n in union
    ensures first <= Ordered(first, union)
  {
    KeepAll(first, set n | n in union);
  }

  /** What is reserved, what is kept beside it, and in what order. */
  lemma ReservedContents(st: Settings, pool: seq<Candidate>, first: seq<string>, ordered: seq<string>)
    requires IsSelection(pool, ordered) && first <= ordered && NamesWithRole(pool, st.forced) != {}
    ensures var route := Reserved(st, pool, ordered);
            && route != []
            && var last, others := route[|route| - 1], route[..|route| - 1];
               var n := |Choice(ordered, route, true)|;
               && |route| == (if 0 < st.maxActivation < n then st.maxActivation else n)
               && (forall x :: x in others ==> x in ordered && x != last)
               && TakesFirst(Without(first, last), others)
               && (Contains(pool, st.forced, ordered) ==> Some(last) == FirstIn(ordered, NamesWithRole(pool, st.forced)))
               && (!Contains(pool, st.forced, ordered) ==> Some(last) == FirstWithRole(pool, st.forced, []))
  {
    var names := NamesWithRole(pool, st.forced);
    var inside := FirstIn(ordered, names);
    var last := (if inside.Some? then inside else FirstWithRole(pool, st.forced, [])).value;
    var rest := Without(ordered, last);
    var others := if st.maxActivation > 0 then Take(rest, st.maxActivation - 1) else rest;
    var route := others + [last];
    assert Reserved(st, pool, ordered) == route && route[|route| - 1] == last && route[..|route| - 1] == others;
    ChoiceCount(ordered, route, last);
    TakeFacts(rest, st.maxActivation - 1);
    RestTakesFirst(first, ordered, last, st.maxActivation - 1);
    InsideIff(pool, st.forced, ordered);
    assert forall x :: x in others ==> x in rest;
    hide Choice, TakesFirst, Contains, Reserved, FirstIn, FirstWithRole, NamesWithRole;
  }

  lemma InsideIff(pool: seq<Candidate>, role: Experts.Role, ordered: seq<string>)
    ensures FirstIn(ordered, NamesWithRole(pool, role)).Some? <==> Contains(pool, role, ordered)
  {
    assert forall i :: 0 <= i < |ordered| ==> ordered[i] in ordered;
  }

  lemma ChoiceCount(ordered: seq<string>, route: seq<string>, last: string)
    requires Distinct(ordered) && route != [] && route[|route| - 1] == last
    ensures |Choice(ordered, route, true)| == |Without(ordered, last)| + 1
  {
    WithoutIsDistinct(ordered, last);
    DistinctCount(ordered);
    var all := set n | n in ordered;
    assert Choice(ordered, route, true) == all + {last};
    if last in ordered {
      assert all + {last} == all;
    }
  }

  lemma RestTakesFirst(first: seq<string>, ordered: seq<string>, last: string, m: int)
    requires first <= ordered
    ensures TakesFirst(Without(first, last), Take(Without(ordered, last), m))
    ensures TakesFirst(Without(first, last), Without(ordered, last))
  {
    var back := ordered[|first|..];
    assert ordered == first + back;
    FilterInOrder(first, back, last, {});
    TakeTakesFirst(Without(first, last), Without(back, last), m);
  }

  /** The hybrid route on a non-empty pool: as many names as the cap allows of those to choose from, which
      are the two routes' and the one reserved for the forced role. Only a used-up cap keeps anyone out,
      and whoever is kept out comes behind everyone kept in: the logistic route's names come first, in
      its order, but for the one reserved at the end. */
  lemma HybridRouteContents(st: Settings, ls: Settings, cs: Settings, lscore: Scores, cscore: Scores,
                            pool: seq<Candidate>, union: seq<string>)
    requires pool != [] && UniqueNames(pool)
    requires IsUnion(union, LogisticRoute(ls, lscore, pool), CosineRoute(cs, cscore, pool))
    ensures var logistic := LogisticRoute(ls, lscore, pool);
            var route := HybridRoute(st, pool, logistic, union);
            var reserved := NamesWithRole(pool, st.forced) != {};
            var choice := Choice(union, route, reserved);
            && route != []
            && |route| == (if 0 < st.maxActivation < |choice| then st.maxActivation else |choice|)
            && (forall n :: n in route ==> n in choice)
            && (forall n :: n in choice && n !in route ==> |route| == st.maxActivation)
            && (reserved ==> TakesFirst(Without(logistic, route[|route| - 1]), route[..|route| - 1]))
            && (!reserved ==> TakesFirst(logistic, route))
  {
    var logistic := LogisticRoute(ls, lscore, pool);
    var ordered := Ordered(logistic, union);
    LogisticRouteIs(ls, lscore, pool);
    assert logistic[0] in logistic;
    assert logistic[0] in union;
    CosineRouteIs(cs, cscore, pool);
    OrderedIsSelection(pool, logistic, union);
    OrderedTakesFirst(logistic, union);
    assert HybridRoute(st, pool, logistic, union) == Reserved(st, pool, ordered);
    SameChoice(union, ordered);
    RouteContents(st, pool, logistic, ordered);
    hide *;
  }

  lemma SameChoice(a: seq<string>, b: seq<string>)
    requires forall n :: n in a <==> n in b
    ensures forall route, reserved :: Choice(a, route, reserved) == Choice(b, route, reserved)
  {
    assert (set n | n in a) == set n | n in b;
  }

  lemma RouteContents(st: Settings, pool: seq<Candidate>, first: seq<string>, ordered: seq<string>)
    requires IsSelection(pool, ordered) && first <= ordered
    ensures var route := Reserved(st, pool, ordered);
            var reserved := NamesWithRole(pool, st.forced) != {};
            var choice := Choice(ordered, route, reserved);
            && route != []
            && |route| == (if 0 < st.maxActivation < |choice| then st.maxActivation else |choice|)
            && (forall n :: n in route ==> n in choice)
            && (forall n :: n in choice && n !in route ==> |route| == st.maxActivation)
            && (reserved ==> TakesFirst(Without(first, route[|route| - 1]), route[..|route| - 1]))
            && (!reserved ==> TakesFirst(first, route))
  {
    var route := Reserved(st, pool, ordered);
    ReservedIs(st, pool, ordered);
    if NamesWithRole(pool, st.forced) != {} {
      ReservedContents(st, pool, first, ordered);
      RouteFromChoice(ordered, route);
      MissingMeansFull(st, ordered, route, true);
    } else {
      CappedContents(st, first, ordered);
      assert Choice(ordered, route, false) == set n | n in ordered;
      MissingMeansFull(st, ordered, route, false);
    }
    hide *;
  }

  lemma RouteFromChoice(ordered: seq<string>, route: seq<string>)
    requires route != [] && forall x :: x in route[..|route| - 1] ==> x in ordered
    ensures forall n :: n in route ==> n in Choice(ordered, route, true)
  {
    assert route == route[..|route| - 1] + [route[|route| - 1]];
  }

  lemma CappedContents(st: Settings, first: seq<string>, ordered: seq<string>)
    requires Distinct(ordered) && first <= ordered
    ensures var route, n := Capped(st, ordered), |set x | x in ordered|;
            && |route| == (if 0 < st.maxActivation < n then st.maxActivation else n)
            && (forall x :: x in route ==> x in ordered) && TakesFirst(first, route)
  {
    DistinctCount(ordered);
    TakeFacts(ordered, st.maxActivation);
    assert ordered == first + ordered[|first|..];
    TakeTakesFirst(first, ordered[|first|..], st.maxActivation);
  }

  /** A route of all there is to choose from leaves nobody out. */
  lemma MissingMeansFull(st: Settings, ordered: seq<string>, route: seq<string>, reserved: bool)
    requires Distinct(route) && forall n :: n in route ==> n in Choice(ordered, route, reserved)
    requires var n := |Choice(ordered, route, reserved)|;
             |route| == if 0 < st.maxActivation < n then st.maxActivation else n
    ensures forall n :: n in Choice(ordered, route, reserved) && n !in route ==> |route| == st.maxActivation
  {
    DistinctCount(route);
    var here, choice := (set n | n in route), Choice(ordered, route, reserved);
    if |route| == |choice| {
      SameSize(here, choice);
    }
  }

  lemma {:induction false} SameSize(a: set<string>, b: set<string>)
    requires a <= b && |a| == |b|
    ensures a == b
  {
    if x :| x in a {
      SameSize(a - {x}, b - {x});
    } else {
      assert a == {};
    }
  }

  /** Whom the last place is reserved for: the first of the forced role in the union's order, which begins
      with the logistic route, and else the first of that role in the pool. */
  lemma HybridLastIs(st: Settings, pool: seq<Candidate>, logistic: seq<string>, union: seq<string>)
    requires IsSelection(pool, union) && Distinct(logistic) && (forall n :: n in logistic ==> n in union)
    requires NamesWithRole(pool, st.forced) != {}
    ensures var names, route := NamesWithRole(pool, st.forced), HybridRoute(st, pool, logistic, union);
            && route != []
            && var last := route[|route| - 1];
               && (FirstIn(logistic, names).Some? ==> Some(last) == FirstIn(logistic, names))
               && (Contains(pool, st.forced, union) ==> last in union && last in names)
               && (!Contains(pool, st.forced, union) ==> Some(last) == FirstWithRole(pool, st.forced, []))
  {
    var names, ordered := NamesWithRole(pool, st.forced), Ordered(logistic, union);
    OrderedIsSelection(pool, logistic, union);
    OrderedTakesFirst(logistic, union);
    ReservedContents(st, pool, logistic, ordered);
    SameContains(pool, st.forced, union, ordered);
    FirstInPrefix(logistic, ordered, names);
  }

  lemma SameContains(pool: seq<Candidate>, role: Experts.Role, a: seq<string>, b: seq<string>)
    requires forall n :: n in a <==> n in b
    ensures Contains(pool, role, a) <==> Contains(pool, role, b)
  {
    assert forall i :: 0 <= i < |a| ==> a[i] in a;
    assert forall i :: 0 <= i < |b| ==> b[i] in b;
  }

  lemma {:induction false} FirstInPrefix(a: seq<string>, b: seq<string>, wanted: set<string>)
    requires a <= b
    ensures FirstIn(a, wanted).Some? ==> FirstIn(b, wanted) == FirstIn(a, wanted)
  {
    if a != [] && a[0] !in wanted {
      FirstInPrefix(a[1..], b[1..], wanted);
    }
  }

  // ---------- Who is picked at all ----------

  /** The ranking by role: candidates of the pool of different roles, all over the threshold, best first. */
  lemma LogisticTopIs(st: Settings, score: Scores, pool: seq<Candidate>)
    ensures var top := LogisticTop(st, score, pool);
            && (forall c :: c in top ==> c in pool && score(c) >= st.threshold)
            && (forall i, j :: 0 <= i < j < |top| ==> score(top[i]) >= score(top[j]))
            && (top == [] <==> forall c :: c in pool ==> score(c) < st.threshold)
  {
    var top := LogisticTop(st, score, pool);
    TopIsPassing(st, score, pool);
    forall i, j | 0 <= i < j < |top|
      ensures score(top[i]) >= score(top[j])
    {
      assert Descending(score)(top[i]) <= Descending(score)(top[j]);
    }
    hide LogisticTop, SortedBy;
    if c :| c in pool && score(c) >= st.threshold {
      var _ := RoleIsRankedAnyway(st, score, pool, c);
    } else if top != [] {
      assert top[0] in top;
    }
  }

  lemma TopIsPassing(st: Settings, score: Scores, pool: seq<Candidate>)
    ensures var top := LogisticTop(st, score, pool);
            && SortedBy(Descending(score), top)
            && forall c :: c in top ==> c in pool && score(c) >= st.threshold
  {
    var best := RoleBest(pool, score);
    var passing, top := Passing(best, score, st.threshold), LogisticTop(st, score, pool);
    BestAreInPool(pool, score);
    PassingAre(best, score, st.threshold);
    SortSorts(Descending(score), passing);
    SameElements(top, passing);
    hide *;
  }

  lemma BestAreInPool(pool: seq<Candidate>, score: Scores)
    ensures forall c :: c in RoleBest(pool, score) ==> c in pool
  {
    RoleBestIsBest(pool, score);
    hide RoleBest, Covered, DistinctRoles;
  }

  lemma RoleIsRankedAnyway(st: Settings, score: Scores, pool: seq<Candidate>, c: Candidate) returns (d: Candidate)
    requires c in pool && score(c) >= st.threshold
    ensures d in LogisticTop(st, score, pool)
  {
    var passing := Passing(RoleBest(pool, score), score, st.threshold);
    d := RolePasses(st, score, pool, c);
    SortSorts(Descending(score), passing);
    SameElements(LogisticTop(st, score, pool), passing);
  }

  /** The expert to fall back on: the first of the forced role, or else the first of all. */
  function FallBack(st: Settings, pool: seq<Candidate>): string
    requires pool != []
  {
    FirstWithRole(pool, st.forced, []).GetOr(pool[0].name)
  }

  /** What the logistic router picks is the front of its ranking; only where nobody reaches the threshold
      it is the fallback. */
  lemma LogisticPickIs(st: Settings, score: Scores, pool: seq<Candidate>)
    requires pool != [] && st.maxActivation >= 1
    ensures var pick, ranked := LogisticPick(st, score, pool), Names(LogisticTop(st, score, pool));
            if ranked == [] then pick == [FallBack(st, pool)] else pick != [] && pick <= ranked
  {
    var ranked := Names(LogisticTop(st, score, pool));
    TakeFacts(ranked, st.maxActivation);
  }

  /** What the cosine router picks reaches the threshold as long as anyone does; where nobody does it is
      the best all the same, or the fallback if no minimum is asked for. */
  lemma CosinePickIs(st: Settings, score: Scores, pool: seq<Candidate>)
    requires pool != [] && UniqueNames(pool) && st.maxActivation >= 1
    ensures var pick, ranked := CosinePick(st, score, pool), Ranked(score, pool);
            && |ranked| == |pool|
            && (if (exists c :: c in pool && score(c) >= st.threshold)
                then pick != [] && pick <= Names(ranked) && AllScore(pool, pick, score, st.threshold)
                else pick == [if st.minActivation >= 1 then ranked[0].name else FallBack(st, pool)])
  {
    var ranked := Ranked(score, pool);
    SortSorts(Descending(score), pool);
    SameElements(ranked, pool);
    TakeFacts(ranked, st.maxActivation);
    if c :| c in pool && score(c) >= st.threshold {
      BestPasses(st, score, pool, c);
      PickedPass(st, score, pool);
      PickedIsFront(st, score, pool);
    } else {
      PassingNone(Take(ranked, st.maxActivation), score, st.threshold);
    }
  }

  lemma {:induction false} PassingNone(cs: seq<Candidate>, score: Scores, threshold: real)
    requires forall c :: c in cs ==> score(c) < threshold
    ensures Passing(cs, score, threshold) == []
  {
    if cs != [] {
      assert cs[|cs| - 1] in cs;
      PassingNone(cs[..|cs| - 1], score, threshold);
    }
  }

  lemma BestPasses(st: Settings, score: Scores, pool: seq<Candidate>, c: Candidate)
    requires c in pool && score(c) >= st.threshold
    ensures Ranked(score, pool) != [] && score(Ranked(score, pool)[0]) >= st.threshold
  {
    var ranked := Ranked(score, pool);
    SortSorts(Descending(score), pool);
    SameElements(ranked, pool);
    var k :| 0 <= k < |ranked| && ranked[k] == c;
    if k > 0 {
      assert Descending(score)(ranked[0]) <= Descending(score)(ranked[k]);
    }
  }

  lemma PickedPass(st: Settings, score: Scores, pool: seq<Candidate>)
    requires pool != [] && UniqueNames(pool) && st.maxActivation >= 1
    requires Ranked(score, pool) != [] && score(Ranked(score, pool)[0]) >= st.threshold
    ensures AllScore(pool, CosinePick(st, score, pool), score, st.threshold)
  {
    var ranked := Ranked(score, pool);
    var head := Take(ranked, st.maxActivation);
    var passing := Passing(head, score, st.threshold);
    SortSorts(Descending(score), pool);
    SameElements(ranked, pool);
    TakeFacts(ranked, st.maxActivation);
    PassingAre(head, score, st.threshold);
    assert head[0] in head;
    assert passing != [];
    var chosen := if |passing| < st.minActivation then [ranked[0]] else passing;
    assert CosinePick(st, score, pool) == Names(chosen);
    assert ranked[0] in ranked;
    assert forall c :: c in head ==> c in ranked;
    NamesScore(pool, chosen, score, st.threshold);
    hide *;
  }

  lemma PickedIsFront(st: Settings, score: Scores, pool: seq<Candidate>)
    requires pool != [] && st.maxActivation >= 1
    requires Ranked(score, pool) != [] && score(Ranked(score, pool)[0]) >= st.threshold
    ensures CosinePick(st, score, pool) != [] && CosinePick(st, score, pool) <= Names(Ranked(score, pool))
  {
    var ranked := Ranked(score, pool);
    var head := Take(ranked, st.maxActivation);
    SortSorts(Descending(score), pool);
    TakeFacts(ranked, st.maxActivation);
    PassingIsFront(head, score, st.threshold);
    PassesFilter(head, score, st.threshold, head[0]);
    assert Passing(head, score, st.threshold) == ranked[..|Passing(head, score, st.threshold)|];
  }

  /** Filtering a ranking by a threshold cuts it. */
  lemma {:induction false} PassingIsFront(cs: seq<Candidate>, score: Scores, threshold: real)
    requires SortedBy(Descending(score), cs)
    ensures Passing(cs, score, threshold) <= cs
  {
    if cs != [] {
      var n := |cs| - 1;
      PassingIsFront(cs[..n], score, threshold);
      if score(cs[n]) >= threshold {
        HeadPasses(cs, score, n, n, threshold);
      }
    }
  }

  lemma NamesScore(pool: seq<Candidate>, chosen: seq<Candidate>, score: Scores, least: real)
    requires UniqueNames(pool) && forall c :: c in chosen ==> c in pool && score(c) >= least
    ensures AllScore(pool, Names(chosen), score, least)
  {
    forall d | d in pool && d.name in Names(chosen)
      ensures score(d) >= least
    {
      var i :| 0 <= i < |chosen| && Names(chosen)[i] == d.name;
      assert chosen[i] in chosen;
      SameNameSame(pool, chosen[i], d);
    }
  }

  lemma SameNameSame(pool: seq<Candidate>, c: Candidate, d: Candidate)
    requires UniqueNames(pool) && c in pool && d in pool && c.name == d.name
    ensures c == d
  {
    var i :| 0 <= i < |pool| && pool[i] == c;
    var j :| 0 <= j < |pool| && pool[j] == d;
  }

  // ---------- The routers as they run ----------

  method BestPerRole(pool: seq<Candidate>, score: Scores) returns (best: seq<Candidate>)
    ensures best == RoleBest(pool, score)
  {
    best := [];
    for k := 0 to |pool|
      invariant best == RoleBest(pool[..k], score)
    {
      assert pool[..k + 1][..k] == pool[..k];
      var at := RoleIndex(best, pool[k].role);
      if at == |best| {
        best := best + [pool[k]];
      } else if score(pool[k]) > score(best[at]) {
        best := best[at := pool[k]];
      }
    }
    assert pool[..|pool|] == pool;
  }

  method Complete(st: Settings, pool: seq<Candidate>, top: seq<string>, ranked: seq<string>) returns (selected: seq<string>)
    requires pool != []
    ensures selected == AtLeastOne(st, pool, top, ranked)
  {
    selected := top;
    if |selected| < st.minActivation && ranked != [] {
      selected := [ranked[0]];
    }
    if selected == [] {
      var first := FindWithRole(pool, st.forced, []);
      selected := [first.GetOr(pool[0].name)];
    }
  }

  method PutForcedLast(st: Settings, pool: seq<Candidate>, picked: seq<string>, present: bool) returns (selected: seq<string>)
    ensures selected == Finish(st, pool, picked, present)
  {
    selected := picked;
    if !present {
      var first := FindWithRole(pool, st.forced, selected);
      if first.Some? {
        selected := selected + [first.value];
      }
    }
    var inList := Keep(selected, NamesWithRole(pool, st.forced));
    if inList != [] {
      var last := inList[|inList| - 1];
      selected := Without(selected, last) + [last];
    }
    if st.maxActivation > 0 {
      selected := Take(selected, st.maxActivation);
    }
  }

  method RouteLogistic(st: Settings, score: Scores, pool: seq<Candidate>) returns (selected: seq<string>)
    ensures selected == LogisticRoute(st, score, pool)
  {
    if pool == [] {
      return [];
    }
    var best := BestPerRole(pool, score);
    var ranked := Names(Ranked(score, Passing(best, score, st.threshold)));
    selected := Complete(st, pool, Take(ranked, st.maxActivation), ranked);
    var present := exists i :: 0 <= i < |selected| && RoleOf(pool, selected[i]) == Some(st.forced);
    selected := PutForcedLast(st, pool, selected, present);
  }

  method RouteCosine(st: Settings, score: Scores, pool: seq<Candidate>) returns (selected: seq<string>)
    ensures selected == CosineRoute(st, score, pool)
  {
    if pool == [] {
      return [];
    }
    var ranked := Ranked(score, pool);
    var top := Names(Passing(Take(ranked, st.maxActivation), score, st.threshold));
    selected := Complete(st, pool, top, Names(ranked));
    selected := PutForcedLast(st, pool, selected, Contains(pool, st.forced, selected));
  }

  /** A set's elements in whatever order it gives them out. */
  method Listed(names: set<string>) returns (listing: seq<string>)
    ensures Distinct(listing) && forall n :: n in listing <==> n in names
  {
    listing := [];
    var left := names;
    while left != {}
      invariant Distinct(listing) && left <= names
      invariant forall n :: n in listing <==> n in names && n !in left
      decreases |left|
    {
      var n :| n in left;
      AppendIsDistinct(listing, n);
      listing := listing + [n];
      left := left - {n};
    }
  }

  method RouteHybrid(st: Settings, ls: Settings, cs: Settings, lscore: Scores, cscore: Scores, pool: seq<Candidate>)
    returns (ordered: seq<string>)
    ensures exists union :: IsUnion(union, LogisticRoute(ls, lscore, pool), CosineRoute(cs, cscore, pool))
              && ordered == HybridRoute(st, pool, LogisticRoute(ls, lscore, pool), union)
  {
    var l := RouteLogistic(ls, lscore, pool);
    var c := RouteCosine(cs, cscore, pool);
    var union := Listed((set n | n in l) + (set n | n in c));
    assert IsUnion(union, LogisticRoute(ls, lscore, pool), CosineRoute(cs, cscore, pool));
    if union == [] {
      return l;
    }
    ordered := Ordered(l, union);
    var names := NamesWithRole(pool, st.forced);
    if names != {} {
      var last := FirstIn(ordered, names);
      if last == None {
        last := FindWithRole(pool, st.forced, []);
      }
      if last.Some? {
        var others := Without(ordered, last.value);
        if st.maxActivation > 0 {
          others := Take(others, st.maxActivation - 1);
        }
        ordered := others + [last.value];
      }
    }
    if st.maxActivation > 0 && names == {} {
      ordered := Take(ordered, st.maxActivation);
    }
  }

  // ---------- Where the appended synthesizer is cut off again ----------

  const ANALYST := Candidate("a", Experts.Analyst)
  const SYNTHESIZER := Candidate("z", Experts.Synthesizer)
  const ONE_SLOT := Settings(1, 1, Experts.Synthesizer, 0.1)

  function AnalystFirst(): Scores {
    (c: Candidate) => if c == ANALYST then 0.9 else 0.5
  }

  lemma AnalystRanksFirst()
    ensures Ranked(AnalystFirst(), [ANALYST, SYNTHESIZER]) == [ANALYST, SYNTHESIZER]
  {
    SortRestores(Descending(AnalystFirst()), [ANALYST, SYNTHESIZER], [ANALYST, SYNTHESIZER]);
  }

  lemma EachIsBest()
    ensures RoleBest([ANALYST, SYNTHESIZER], AnalystFirst()) == [ANALYST, SYNTHESIZER]
  {
    var pool, score := [ANALYST, SYNTHESIZER], AnalystFirst();
    assert pool[..1] == [ANALYST] && [ANALYST][..0] == [];
    assert RoleBest([ANALYST], score) == Improve([], ANALYST, score) == [ANALYST];
    assert RoleIndex([ANALYST], Experts.Synthesizer) == 1 + RoleIndex([ANALYST][1..], Experts.Synthesizer) == 1;
  }

  lemma BothPass()
    ensures Passing([ANALYST, SYNTHESIZER], AnalystFirst(), 0.1) == [ANALYST, SYNTHESIZER]
    ensures Passing([ANALYST], AnalystFirst(), 0.1) == [ANALYST]
  {
    AllPass([ANALYST, SYNTHESIZER], AnalystFirst(), 0.1);
    AllPass([ANALYST], AnalystFirst(), 0.1);
  }

  lemma AnalystAlone()
    ensures var pool := [ANALYST, SYNTHESIZER];
            && UniqueNames(pool) && NamesWithRole(pool, ONE_SLOT.forced) == {"z"}
            && Finish(ONE_SLOT, pool, ["a"], false) == ["a"] && !Contains(pool, ONE_SLOT.forced, ["a"])
  {
    var pool := [ANALYST, SYNTHESIZER];
    assert NamesWithRole(pool, ONE_SLOT.forced) == {"z"} by {
      assert pool[1].name in NamesWithRole(pool, ONE_SLOT.forced);
    }
    assert pool[0].name in NamesOf(pool);
    var _ := FinishAppendsForced(ONE_SLOT, pool, ["a"]);
  }

  lemma LogisticCutsOff()
    ensures LogisticRoute(ONE_SLOT, AnalystFirst(), [ANALYST, SYNTHESIZER]) == ["a"]
  {
    var pool, score := [ANALYST, SYNTHESIZER], AnalystFirst();
    AnalystRanksFirst();
    BothPass();
    EachIsBest();
    assert Names(pool) == ["a", "z"];
    assert LogisticPick(ONE_SLOT, score, pool) == ["a"];
    AnalystAlone();
    LogisticPresence(pool, ONE_SLOT.forced, ["a"]);
    hide Finish, Contains, LogisticPick;
  }

  lemma CosineCutsOff()
    ensures CosineRoute(ONE_SLOT, AnalystFirst(), [ANALYST, SYNTHESIZER]) == ["a"]
  {
    var pool, score := [ANALYST, SYNTHESIZER], AnalystFirst();
    AnalystRanksFirst();
    BothPass();
    assert Take(pool, 1) == [ANALYST] && Names([ANALYST]) == ["a"];
    assert CosinePick(ONE_SLOT, score, pool) == ["a"];
    AnalystAlone();
    hide Finish, Contains, CosinePick;
  }

  /** The pool has a synthesizer, and neither router ends in it. */
  lemma SynthesizerIsCutOff()
    ensures var pool := [ANALYST, SYNTHESIZER];
            && UniqueNames(pool) && "z" in NamesWithRole(pool, ONE_SLOT.forced)
            && LogisticRoute(ONE_SLOT, AnalystFirst(), pool) == ["a"]
            && CosineRoute(ONE_SLOT, AnalystFirst(), pool) == ["a"]
  {
    AnalystAlone();
    LogisticCutsOff();
    CosineCutsOff();
  }
}
