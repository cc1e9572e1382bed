/** Tiered retention of `gc-live`: `compute_prune_set` and what it promises. */
module Retention {
  import opened Wrappers
  import opened Bytes
  import Sets

  type Name = seq<u8>

  /** A live snapshot; a sequence of them is in the order the computation receives them. */
  datatype Snap = Snap(name: Name, ts: int)

  /** Minutes for which everything, or one snapshot a day, is kept. */
  datatype Policy = Policy(all: nat, daily: Option<nat>)

  // The seconds that chrono can turn into a date.
  const FIRST_SECOND := -8_334_601_228_800
  const LAST_SECOND := 8_210_266_876_799

  predicate InRange(ts: int) { FIRST_SECOND <= ts <= LAST_SECOND }

  /** The UTC day of a timestamp; one out of range counts for the current day. */
  function Day(ts: int, now: int): int {
    if InRange(ts) then ts / 86400 else if InRange(now) then now / 86400 else 0
  }

  function AllCutoff(p: Policy, now: int): int { now - p.all * 60 }

  /** Kept or pruned by the daily rule. */
  predicate InDaily(p: Policy, now: int, ts: int) {
    p.daily.Some? && now - p.daily.value * 60 <= ts < AllCutoff(p, now)
  }

  predicate SameDay(p: Policy, now: int, a: Snap, b: Snap) {
    InDaily(p, now, a.ts) && InDaily(p, now, b.ts) && Day(a.ts, now) == Day(b.ts, now)
  }

  /** The `j`-th snapshot is preferred to the `i`-th: newer, or as new and listed before it. */
  predicate Beats(q: seq<Snap>, j: nat, i: nat)
    requires j < |q| && i < |q|
  {
    q[j].ts > q[i].ts || (q[j].ts == q[i].ts && j < i)
  }

  /** What retention promises: recent snapshots stay, and of each day the preferred one. */
  predicate Keeps(p: Policy, now: int, q: seq<Snap>, i: nat)
    requires i < |q|
  {
    || q[i].ts >= AllCutoff(p, now)
    || (&& InDaily(p, now, q[i].ts)
        && forall j :: 0 <= j < |q| && SameDay(p, now, q[j], q[i]) ==> !Beats(q, j, i))
  }

  /** Names of the snapshots among the first `k` that are not kept, for too old ones and the days in `days`. */
  function Pruned(p: Policy, now: int, q: seq<Snap>, days: set<int>, k: nat): multiset<Name>
    requires k <= |q|
  {
    if k == 0 then multiset{}
    else
      var x := q[k - 1];
      var rest := Pruned(p, now, q, days, k - 1);
      if !Keeps(p, now, q, k - 1) && (InDaily(p, now, x.ts) ==> Day(x.ts, now) in days)
      then rest + multiset{x.name} else rest
  }

  function AllPruned(p: Policy, now: int, q: seq<Snap>): multiset<Name> {
    Pruned(p, now, q, DaysOf(q, now), |q|)
  }

  function DaysOf(q: seq<Snap>, now: int): set<int> {
    set i | 0 <= i < |q| :: Day(q[i].ts, now)
  }

  /** A day has 86400 seconds, from midnight to midnight; what chrono cannot show counts as now. */
  lemma DayExactly(ts: int, now: int, d: int)
    ensures var shown := if -8_334_601_228_800 <= ts <= 8_210_266_876_799 then ts
                         else if -8_334_601_228_800 <= now <= 8_210_266_876_799 then now else 0;
            Day(ts, now) == d <==> 86400 * d <= shown < 86400 * d + 86400
  {
    var shown := if InRange(ts) then ts else if InRange(now) then now else 0;
    assert shown == 86400 * (shown / 86400) + shown % 86400;
  }

  /**
   * Exactly what is kept: all of the last minutes of the first window, and before that, in the
   * daily window, what no other one of its day beats, being newer, or as new and listed before.
   */
  lemma KeptExactly(p: Policy, now: int, q: seq<Snap>, i: nat)
    requires i < |q|
    ensures var ts, from := q[i].ts, now - 60 * p.all;
            Keeps(p, now, q, i) <==>
              || ts >= from
              || (&& p.daily.Some? && ts >= now - 60 * p.daily.value
                  && forall j :: 0 <= j < |q| && now - 60 * p.daily.value <= q[j].ts < from
                                 && Day(q[j].ts, now) == Day(ts, now) ==>
                       q[j].ts < ts || (q[j].ts == ts && i <= j))
  {
  }

  // ---- The winner of a day ----

  /** Index of the preferred snapshot of day `d` among the first `k`. */
  function Winner(p: Policy, now: int, q: seq<Snap>, d: int, k: nat): (w: Option<nat>)
    requires k <= |q|
    ensures w.Some? ==> w.value < k && InDaily(p, now, q[w.value].ts) && Day(q[w.value].ts, now) == d
  {
    if k == 0 then None
    else
      var best := Winner(p, now, q, d, k - 1);
      var x := q[k - 1];
      if InDaily(p, now, x.ts) && Day(x.ts, now) == d && (best.None? || q[best.value].ts < x.ts)
      then Some(k - 1) else best
  }

  lemma {:induction false} WinnerBest(p: Policy, now: int, q: seq<Snap>, d: int, k: nat, j: nat)
    requires j < k <= |q| && InDaily(p, now, q[j].ts) && Day(q[j].ts, now) == d
    ensures var w := Winner(p, now, q, d, k);
            w.Some? && !Beats(q, j, w.value) && (j == w.value || Beats(q, w.value, j))
  {
    if j < k - 1 {
      WinnerBest(p, now, q, d, k - 1, j);
    } else if Winner(p, now, q, d, k - 1).Some? {
      WinnerBest(p, now, q, d, k - 1, Winner(p, now, q, d, k - 1).value);
    }
  }

  /** In the daily window, exactly the winner of its day is kept. */
  lemma KeepsWinner(p: Policy, now: int, q: seq<Snap>, i: nat)
    requires i < |q| && InDaily(p, now, q[i].ts)
    ensures Keeps(p, now, q, i) <==> Winner(p, now, q, Day(q[i].ts, now), |q|) == Some(i)
  {
    hide Winner;
    var d := Day(q[i].ts, now);
    var w := Winner(p, now, q, d, |q|);
    forall j | 0 <= j < |q| && SameDay(p, now, q[j], q[i])
      ensures w.Some? && !Beats(q, j, w.value) && (j == w.value || Beats(q, w.value, j))
    {
      WinnerBest(p, now, q, d, |q|, j);
    }
    assert SameDay(p, now, q[i], q[i]);
    assert SameDay(p, now, q[w.value], q[i]);
  }

  /** Every day with a snapshot in the window keeps exactly one of them, a newest one. */
  lemma OnePerDay(p: Policy, now: int, q: seq<Snap>, i: nat)
    requires i < |q| && InDaily(p, now, q[i].ts)
    ensures exists w :: 0 <= w < |q| && SameDay(p, now, q[w], q[i]) && Keeps(p, now, q, w)
    ensures forall w, j ::
              (&& 0 <= w < |q| && SameDay(p, now, q[w], q[i]) && Keeps(p, now, q, w)
               && 0 <= j < |q| && SameDay(p, now, q[j], q[i]))
              ==> q[j].ts <= q[w].ts && (Keeps(p, now, q, j) ==> j == w)
  {
    hide Winner;
    WinnerBest(p, now, q, Day(q[i].ts, now), |q|, i);
    var w := Winner(p, now, q, Day(q[i].ts, now), |q|).value;
    assert SameDay(p, now, q[w], q[i]);
    KeepsWinner(p, now, q, w);
    forall j | 0 <= j < |q| && SameDay(p, now, q[j], q[i])
      ensures Keeps(p, now, q, j) <==> j == w
    {
      KeepsWinner(p, now, q, j);
    }
  }

  /** Recent snapshots are kept, and those older than both windows are pruned. */
  lemma AgeRules(p: Policy, now: int, q: seq<Snap>, i: nat)
    requires i < |q|
    ensures q[i].ts >= AllCutoff(p, now) ==> Keeps(p, now, q, i)
    ensures q[i].ts < AllCutoff(p, now) && !InDaily(p, now, q[i].ts) ==> !Keeps(p, now, q, i)
  {
  }

  // ---- The computation ----

  /** A stable sort, newest first (`sort_by_key` on `Reverse`). */
  function Insert(x: Snap, s: seq<Snap>): (r: seq<Snap>)
    ensures |r| == |s| + 1
    ensures r[0] == if s == [] || s[0].ts <= x.ts then x else s[0]
  {
    if s == [] || s[0].ts <= x.ts then [x] + s else [s[0]] + Insert(x, s[1..])
  }

  function SortNewestFirst(s: seq<Snap>): (r: seq<Snap>)
    ensures |r| == |s|
  {
    if s == [] then [] else Insert(s[0], SortNewestFirst(s[1..]))
  }

  function Names(s: seq<Snap>): multiset<Name> {
    if s == [] then multiset{} else multiset{s[0].name} + Names(s[1..])
  }

  lemma {:induction false} NamesSnoc(a: seq<Snap>, x: Snap)
    ensures Names(a + [x]) == Names(a) + multiset{x.name}
  {
    if a == [] {
      assert (a + [x])[1..] == [];
    } else {
      NamesSnoc(a[1..], x);
      assert (a + [x])[1..] == a[1..] + [x];
    }
  }

  lemma {:induction false} NamesInsert(x: Snap, s: seq<Snap>)
    ensures Names(Insert(x, s)) == multiset{x.name} + Names(s)
  {
    if s == [] || s[0].ts <= x.ts {
      assert ([x] + s)[1..] == s;
    } else {
      NamesInsert(x, s[1..]);
      assert ([s[0]] + Insert(x, s[1..]))[1..] == Insert(x, s[1..]);
    }
  }

  lemma {:induction false} NamesSort(s: seq<Snap>)
    ensures Names(SortNewestFirst(s)) == Names(s)
  {
    if s != [] {
      NamesSort(s[1..]);
      NamesInsert(s[0], SortNewestFirst(s[1..]));
    }
  }

  /** The daily snapshots of day `d` among the first `k`, in order. */
  function Group(p: Policy, now: int, q: seq<Snap>, d: int, k: nat): seq<Snap>
    requires k <= |q|
  {
    if k == 0 then []
    else
      var g := Group(p, now, q, d, k - 1);
      if InDaily(p, now, q[k - 1].ts) && Day(q[k - 1].ts, now) == d then g + [q[k - 1]] else g
  }

  /** The head of the sorted sequence after one more element at the end. */
  lemma {:induction false} SortHeadSnoc(s: seq<Snap>, x: Snap)
    ensures SortNewestFirst(s + [x])[0] ==
            if s == [] || SortNewestFirst(s)[0].ts < x.ts then x else SortNewestFirst(s)[0]
  {
    hide Insert;
    if s == [] {
      assert (s + [x])[0] == x;
      assert (s + [x])[1..] == [];
    } else {
      SortHeadSnoc(s[1..], x);
      assert (s + [x])[1..] == s[1..] + [x];
    }
  }

  lemma {:induction false} GroupHead(p: Policy, now: int, q: seq<Snap>, d: int, k: nat)
    requires k <= |q|
    ensures var g, w := Group(p, now, q, d, k), Winner(p, now, q, d, k);
            && (g == [] <==> w == None)
            && (g != [] ==> SortNewestFirst(g)[0] == q[w.value])
  {
    hide SortNewestFirst;
    if k > 0 {
      GroupHead(p, now, q, d, k - 1);
      SortHeadSnoc(Group(p, now, q, d, k - 1), q[k - 1]);
    }
  }

  lemma PrunedStep(p: Policy, now: int, q: seq<Snap>, days: set<int>, k: nat, n: Name)
    requires k < |q|
    ensures Pruned(p, now, q, days, k + 1)[n] == Pruned(p, now, q, days, k)[n] +
            (if && q[k].name == n && !Keeps(p, now, q, k)
                && (InDaily(p, now, q[k].ts) ==> Day(q[k].ts, now) in days) then 1 else 0)
  {
    hide Keeps;
    hide InDaily;
    hide Day;
  }

  lemma GroupStep(p: Policy, now: int, q: seq<Snap>, d: int, k: nat, n: Name)
    requires k < |q|
    ensures Names(Group(p, now, q, d, k + 1))[n] == Names(Group(p, now, q, d, k))[n] +
            (if q[k].name == n && InDaily(p, now, q[k].ts) && Day(q[k].ts, now) == d then 1 else 0)
  {
    hide Names;
    hide InDaily;
    hide Day;
    NamesSnoc(Group(p, now, q, d, k), q[k]);
  }

  /** How often `n` occurs among the losers of day `d`: as in its group, without its winner. */
  lemma {:induction false} GroupLosers(p: Policy, now: int, q: seq<Snap>, d: int, days: set<int>, k: nat, n: Name)
    requires k <= |q| && d !in days
    ensures Pruned(p, now, q, days + {d}, k)[n] + Won(p, now, q, d, k, n)
            == Pruned(p, now, q, days, k)[n] + Names(Group(p, now, q, d, k))[n]
  {
    hide *;
    if k == 0 {
      NothingPruned(p, now, q, d, days, n);
    } else {
      GroupLosers(p, now, q, d, days, k - 1, n);
      LosersStep(p, now, q, d, days, k - 1, n);
    }
  }

  /** Whether the winner of day `d` is among the first `k` and named `n`. */
  function Won(p: Policy, now: int, q: seq<Snap>, d: int, k: nat, n: Name): nat
    requires k <= |q|
  {
    var w := Winner(p, now, q, d, |q|);
    if w.Some? && w.value < k && q[w.value].name == n then 1 else 0
  }

  lemma NothingPruned(p: Policy, now: int, q: seq<Snap>, d: int, days: set<int>, n: Name)
    ensures Pruned(p, now, q, days, 0)[n] == 0 && Pruned(p, now, q, days + {d}, 0)[n] == 0
    ensures Won(p, now, q, d, 0, n) == 0 && Names(Group(p, now, q, d, 0))[n] == 0
  {
    hide Winner;
  }

  lemma LosersStep(p: Policy, now: int, q: seq<Snap>, d: int, days: set<int>, k: nat, n: Name)
    requires k < |q| && d !in days
    ensures Pruned(p, now, q, days + {d}, k + 1)[n] + Won(p, now, q, d, k + 1, n)
            + Pruned(p, now, q, days, k)[n] + Names(Group(p, now, q, d, k))[n]
            == Pruned(p, now, q, days + {d}, k)[n] + Won(p, now, q, d, k, n)
            + Pruned(p, now, q, days, k + 1)[n] + Names(Group(p, now, q, d, k + 1))[n]
  {
    hide Winner;
    hide Keeps;
    hide Names;
    hide Group;
    hide Pruned;
    PrunedStep(p, now, q, days, k, n);
    PrunedStep(p, now, q, days + {d}, k, n);
    GroupStep(p, now, q, d, k, n);
    if InDaily(p, now, q[k].ts) {
      KeepsWinner(p, now, q, k);
    }
  }

  /** One day's worth of pruning: everything behind the head of the sorted group. */
  lemma DayPruned(p: Policy, now: int, q: seq<Snap>, d: int, days: set<int>)
    requires d !in days && Group(p, now, q, d, |q|) != []
    ensures Pruned(p, now, q, days + {d}, |q|) ==
            Pruned(p, now, q, days, |q|) + Names(SortNewestFirst(Group(p, now, q, d, |q|))[1..])
  {
    hide Pruned;
    hide SortNewestFirst;
    hide Group;
    var g := Group(p, now, q, d, |q|);
    GroupHead(p, now, q, d, |q|);
    NamesSort(g);
    var s := SortNewestFirst(g);
    assert Names(s) == multiset{s[0].name} + Names(s[1..]);
    forall n: Name
      ensures Pruned(p, now, q, days + {d}, |q|)[n] == Pruned(p, now, q, days, |q|)[n] + Names(s[1..])[n]
    {
      GroupLosers(p, now, q, d, days, |q|, n);
    }
  }

  function NamesOf(s: seq<Snap>): (r: seq<Name>)
    ensures multiset(r) == Names(s)
  {
    if s == [] then [] else [s[0].name] + NamesOf(s[1..])
  }

  lemma {:induction false} DaysIrrelevant(p: Policy, now: int, q: seq<Snap>, a: set<int>, b: set<int>, k: nat)
    requires k <= |q|
    requires forall i :: 0 <= i < |q| && InDaily(p, now, q[i].ts) ==>
               (Day(q[i].ts, now) in a <==> Day(q[i].ts, now) in b)
    ensures Pruned(p, now, q, a, k) == Pruned(p, now, q, b, k)
  {
    if k > 0 {
      DaysIrrelevant(p, now, q, a, b, k - 1);
    }
  }

  lemma Nothing(p: Policy, now: int, q: seq<Snap>)
    ensures Pruned(p, now, q, {}, 0) == multiset{}
    ensures forall d :: Group(p, now, q, d, 0) == []
  {
  }

  /** What one more snapshot does to the groups and to the names pruned for age. */
  lemma OneMore(p: Policy, now: int, q: seq<Snap>, k: nat)
    requires k < |q|
    ensures forall d :: Group(p, now, q, d, k + 1) ==
              if InDaily(p, now, q[k].ts) && Day(q[k].ts, now) == d
              then Group(p, now, q, d, k) + [q[k]] else Group(p, now, q, d, k)
    ensures Pruned(p, now, q, {}, k + 1) ==
            if q[k].ts < AllCutoff(p, now) && !InDaily(p, now, q[k].ts)
            then Pruned(p, now, q, {}, k) + multiset{q[k].name} else Pruned(p, now, q, {}, k)
  {
    hide Day;
    AgeRules(p, now, q, k);
  }

  /**
   * `compute_prune_set`: the names of exactly the snapshots that are not kept, in an
   * order that depends on how the day groups are visited.
   */
  method ComputePruneSet(q: seq<Snap>, p: Policy, now: int) returns (toPrune: seq<Name>)
    ensures multiset(toPrune) == AllPruned(p, now, q)
  {
    hide Keeps;
    hide Winner;
    hide Group;
    hide Pruned;
    hide Day;
    toPrune := [];
    if p.daily.None? {
      toPrune := OlderThan(q, p, now);
      return;
    }
    var daily: map<int, seq<Snap>> := map[];
    Nothing(p, now, q);
    for k := 0 to |q|
      invariant multiset(toPrune) == Pruned(p, now, q, {}, k)
      invariant forall d :: d in daily <==> Group(p, now, q, d, k) != []
      invariant forall d :: d in daily ==> daily[d] == Group(p, now, q, d, k)
    {
      OneMore(p, now, q, k);
      var x := q[k];
      if x.ts >= AllCutoff(p, now) {
      } else if now - p.daily.value * 60 <= x.ts {
        var d := Day(x.ts, now);
        daily := daily[d := (if d in daily then daily[d] else []) + [x]];
      } else {
        toPrune := toPrune + [x.name];
      }
    }
    var dayTails := DayTails(q, p, now, daily);
    toPrune := toPrune + dayTails;
  }

  /** The early return for a policy without a daily window. */
  method OlderThan(q: seq<Snap>, p: Policy, now: int) returns (toPrune: seq<Name>)
    requires p.daily.None?
    ensures multiset(toPrune) == AllPruned(p, now, q)
  {
    hide Keeps;
    toPrune := [];
    for k := 0 to |q|
      invariant multiset(toPrune) == Pruned(p, now, q, DaysOf(q, now), k)
    {
      AgeRules(p, now, q, k);
      if q[k].ts < AllCutoff(p, now) {
        toPrune := toPrune + [q[k].name];
      }
    }
  }

  method AnyDay(days: set<int>) returns (d: int)
    requires days != {}
    ensures d in days
  {
    Sets.EmptyOrNot(days);
    d :| d in days;
  }

  /** The second loop: of every day, all but the newest. */
  method DayTails(q: seq<Snap>, p: Policy, now: int, daily: map<int, seq<Snap>>) returns (tails: seq<Name>)
    requires forall d :: d in daily <==> Group(p, now, q, d, |q|) != []
    requires forall d :: d in daily ==> daily[d] == Group(p, now, q, d, |q|)
    ensures Pruned(p, now, q, {}, |q|) + multiset(tails) == AllPruned(p, now, q)
  {
    hide Keeps;
    hide Winner;
    hide Names;
    hide Pruned;
    hide Group;
    tails := [];
    ghost var done: set<int> := {};
    var left := daily.Keys;
    while left != {}
      invariant left <= daily.Keys
      invariant done == daily.Keys - left
      invariant Pruned(p, now, q, {}, |q|) + multiset(tails) == Pruned(p, now, q, done, |q|)
      decreases left
    {
      var d := AnyDay(left);
      DayPruned(p, now, q, d, done);
      tails := tails + NamesOf(SortNewestFirst(daily[d])[1..]);
      left := left - {d};
      done := done + {d};
    }
    forall i | 0 <= i < |q| && InDaily(p, now, q[i].ts)
      ensures Day(q[i].ts, now) in done
    {
      InGroup(p, now, q, i, |q|);
    }
    DaysIrrelevant(p, now, q, done, DaysOf(q, now), |q|);
  }

  lemma {:induction false} InGroup(p: Policy, now: int, q: seq<Snap>, i: nat, k: nat)
    requires i < k <= |q| && InDaily(p, now, q[i].ts)
    ensures Group(p, now, q, Day(q[i].ts, now), k) != []
  {
    if i < k - 1 {
      InGroup(p, now, q, i, k - 1);
    }
  }

  // ---- Which names end up in the prune set ----

  lemma PrunedNone(p: Policy, now: int, q: seq<Snap>, days: set<int>)
    ensures Pruned(p, now, q, days, 0) == multiset{}
  {
  }

  lemma {:induction false} PrunedName(p: Policy, now: int, q: seq<Snap>, i: nat, k: nat)
    requires i < |q| && k <= |q|
    requires DistinctNames(q)
    ensures Pruned(p, now, q, DaysOf(q, now), k)[q[i].name] == if i < k && !Keeps(p, now, q, i) then 1 else 0
  {
    hide Keeps;
    hide Pruned;
    if k == 0 {
      PrunedNone(p, now, q, DaysOf(q, now));
    } else {
      PrunedName(p, now, q, i, k - 1);
      PrunedStep(p, now, q, DaysOf(q, now), k - 1, q[i].name);
    }
  }

  /** What a run leaves behind. */
  function Kept(p: Policy, now: int, q: seq<Snap>): set<Snap> {
    set i | 0 <= i < |q| && Keeps(p, now, q, i) :: q[i]
  }

  lemma {:induction false} PrunedIsListed(p: Policy, now: int, q: seq<Snap>, k: nat, n: Name) returns (i: nat)
    requires k <= |q| && n in Pruned(p, now, q, DaysOf(q, now), k)
    ensures i < k && q[i].name == n
  {
    hide Keeps;
    hide Pruned;
    i := 0;
    if k == 0 {
      PrunedNone(p, now, q, DaysOf(q, now));
    } else {
      PrunedStep(p, now, q, DaysOf(q, now), k - 1, n);
      i := k - 1;
      if q[i].name != n {
        i := PrunedIsListed(p, now, q, k - 1, n);
      }
    }
  }

  predicate DistinctNames(q: seq<Snap>) { forall a, b :: 0 <= a < b < |q| ==> q[a].name != q[b].name }

  function NotKept(p: Policy, now: int, q: seq<Snap>): set<Name> {
    set i | 0 <= i < |q| && !Keeps(p, now, q, i) :: q[i].name
  }

  /** The names computed for a listing of distinct names are those of exactly the snapshots not kept. */
  lemma PrunedExactly(p: Policy, now: int, q: seq<Snap>, toPrune: seq<Name>)
    requires DistinctNames(q) && multiset(toPrune) == AllPruned(p, now, q)
    ensures (set n | n in toPrune) == NotKept(p, now, q)
    ensures forall i :: 0 <= i < |q| ==> (q[i].name in toPrune <==> !Keeps(p, now, q, i))
  {
    hide Keeps;
    forall i | 0 <= i < |q|
      ensures q[i].name in toPrune <==> !Keeps(p, now, q, i)
    {
      PrunedName(p, now, q, i, |q|);
      assert q[i].name in toPrune <==> q[i].name in multiset(toPrune);
    }
    forall n | n in toPrune
      ensures n in NotKept(p, now, q)
    {
      assert n in multiset(toPrune);
      var i := PrunedIsListed(p, now, q, |q|, n);
    }
  }

  /** Dropping the computed names from a listing of distinct names leaves exactly `Kept`. */
  lemma PruneLeavesKept(p: Policy, now: int, q: seq<Snap>, toPrune: seq<Name>)
    requires DistinctNames(q) && multiset(toPrune) == AllPruned(p, now, q)
    ensures (set x | x in q && x.name !in toPrune) == Kept(p, now, q)
  {
    hide Keeps;
    PrunedExactly(p, now, q, toPrune);
  }

  // ---- Runs over time ----

  /** Something of the day of `x` is left. */
  ghost predicate DayKept(p: Policy, now: int, left: set<Snap>, x: Snap) {
    exists y :: y in left && SameDay(p, now, y, x)
  }

  /**
   * What retention allows a run to leave of `stored`: everything recent, nothing too old,
   * and of each day in the daily window exactly one snapshot, a newest one.
   */
  ghost predicate Outcome(p: Policy, now: int, stored: set<Snap>, left: set<Snap>) {
    && left <= stored
    && (forall x :: x in stored && x.ts >= AllCutoff(p, now) ==> x in left)
    && (forall x :: x in left ==> x.ts >= AllCutoff(p, now) || InDaily(p, now, x.ts))
    && (forall x :: x in stored && InDaily(p, now, x.ts) ==> DayKept(p, now, left, x))
    && (forall x, y :: x in left && y in stored && SameDay(p, now, y, x) ==> y.ts <= x.ts)
    && (forall x, y :: x in left && y in left && SameDay(p, now, y, x) ==> y == x)
  }

  /** In whatever order the manifests arrive, a run's result is such an outcome. */
  lemma RunIsOutcome(p: Policy, now: int, q: seq<Snap>)
    ensures Outcome(p, now, (set x | x in q), Kept(p, now, q))
  {
    hide Keeps;
    var stored := set x | x in q;
    var left := Kept(p, now, q);
    hide Beats;
    hide InDaily;
    hide Day;
    forall i | 0 <= i < |q|
      ensures q[i].ts >= AllCutoff(p, now) ==> q[i] in left
      ensures Keeps(p, now, q, i) ==> q[i].ts >= AllCutoff(p, now) || InDaily(p, now, q[i].ts)
    {
      AgeRules(p, now, q, i);
    }
    forall i | 0 <= i < |q| && InDaily(p, now, q[i].ts)
      ensures DayKept(p, now, left, q[i])
    {
      OnePerDay(p, now, q, i);
      var w :| 0 <= w < |q| && SameDay(p, now, q[w], q[i]) && Keeps(p, now, q, w);
      assert q[w] in left;
    }
    hide DayKept;
    forall x, y | x in left && y in stored && SameDay(p, now, y, x)
      ensures y.ts <= x.ts && (y in left ==> y == x)
    {
      var i :| 0 <= i < |q| && Keeps(p, now, q, i) && q[i] == x;
      var j :| 0 <= j < |q| && q[j] == y;
      OnePerDay(p, now, q, i);
      if y in left {
        var k :| 0 <= k < |q| && Keeps(p, now, q, k) && q[k] == y;
      }
    }
  }

  lemma DayNewest(p: Policy, now: int, left: set<Snap>, x: Snap) returns (z: Snap)
    requires DayKept(p, now, left, x)
    ensures z in left && SameDay(p, now, z, x)
  {
    z :| z in left && SameDay(p, now, z, x);
  }

  /** Two snapshots of one day in the daily window are both its newest. */
  ghost predicate Tied(p: Policy, now: int, stored: set<Snap>) {
    exists x, y :: x in stored && y in stored && TiedPair(p, now, stored, x, y)
  }

  ghost predicate TiedPair(p: Policy, now: int, stored: set<Snap>, x: Snap, y: Snap) {
    x != y && SameDay(p, now, x, y) && x.ts == y.ts && Newest(p, now, stored, x)
  }

  ghost predicate Newest(p: Policy, now: int, stored: set<Snap>, x: Snap) {
    forall z :: z in stored && SameDay(p, now, z, x) ==> z.ts <= x.ts
  }

  lemma InBothOutcomes(p: Policy, now: int, stored: set<Snap>, a: set<Snap>, b: set<Snap>, x: Snap)
    requires Outcome(p, now, stored, a) && Outcome(p, now, stored, b) && x in a && !Tied(p, now, stored)
    ensures x in b
  {
    hide DayKept;
    if InDaily(p, now, x.ts) {
      assert DayKept(p, now, b, x);
      var z := DayNewest(p, now, b, x);
      assert SameDay(p, now, x, z);
      assert Newest(p, now, stored, x);
      assert !TiedPair(p, now, stored, x, z);
    }
  }

  /** Without such a tie the outcome is unique. */
  lemma OutcomeUnique(p: Policy, now: int, stored: set<Snap>, a: set<Snap>, b: set<Snap>)
    requires Outcome(p, now, stored, a) && Outcome(p, now, stored, b) && !Tied(p, now, stored)
    ensures a == b
  {
    assert a <= stored && b <= stored;
    hide Outcome;
    hide Tied;
    forall x | x in a ensures x in b { InBothOutcomes(p, now, stored, a, b, x); }
    forall x | x in b ensures x in a { InBothOutcomes(p, now, stored, b, a, x); }
  }

  /** `q` lists `stored`. */
  ghost predicate Lists(q: seq<Snap>, stored: set<Snap>) { forall x :: x in q <==> x in stored }

  lemma ListingWithFirst(stored: set<Snap>, x: Snap) returns (q: seq<Snap>)
    requires x in stored
    ensures Lists(q, stored) && q[0] == x
    decreases stored
  {
    var rest := stored - {x};
    if rest == {} {
      q := [x];
    } else {
      var y :| y in rest;
      var front := ListingWithFirst(rest, y);
      q := [x] + front;
    }
  }

  lemma ListedOutcome(p: Policy, now: int, q: seq<Snap>, stored: set<Snap>)
    requires Lists(q, stored)
    ensures Outcome(p, now, stored, Kept(p, now, q))
  {
    hide *;
    RunIsOutcome(p, now, q);
    ListsSet(q, stored);
  }

  lemma ListsSet(q: seq<Snap>, stored: set<Snap>)
    requires Lists(q, stored)
    ensures (set x | x in q) == stored
  {
  }

  /** The first of a listing is kept when it is a newest of its day. */
  lemma FirstNewestKept(p: Policy, now: int, q: seq<Snap>, stored: set<Snap>)
    requires Lists(q, stored) && q != [] && InDaily(p, now, q[0].ts) && Newest(p, now, stored, q[0])
    ensures q[0] in Kept(p, now, q)
  {
    forall j | 0 <= j < |q| && SameDay(p, now, q[j], q[0])
      ensures !Beats(q, j, 0)
    {
      assert q[j] in q;
    }
    assert Keeps(p, now, q, 0);
  }

  /** With a tie, two listings of the same snapshots leave different ones. */
  lemma TieDecides(p: Policy, now: int, stored: set<Snap>) returns (q: seq<Snap>, r: seq<Snap>)
    requires Tied(p, now, stored)
    ensures Lists(q, stored) && Lists(r, stored) && Kept(p, now, q) != Kept(p, now, r)
  {
    var x, y :| x in stored && y in stored && TiedPair(p, now, stored, x, y);
    q := ListingWithFirst(stored, x);
    r := ListingWithFirst(stored, y);
    assert forall z :: SameDay(p, now, z, y) ==> SameDay(p, now, z, x);
    assert Newest(p, now, stored, y);
    FirstNewestKept(p, now, q, stored);
    FirstNewestKept(p, now, r, stored);
    ListedOutcome(p, now, q, stored);
    ListedOutcome(p, now, r, stored);
    assert SameDay(p, now, y, x);
  }

  /** What is left is the same in whatever order the manifests arrive, exactly without a tie. */
  lemma OrderIrrelevantExactly(p: Policy, now: int, stored: set<Snap>)
    ensures (forall q, r :: Lists(q, stored) && Lists(r, stored) ==> Kept(p, now, q) == Kept(p, now, r))
            <==> !Tied(p, now, stored)
  {
    hide *;
    if Tied(p, now, stored) {
      var q, r := TieDecides(p, now, stored);
    } else {
      forall q, r | Lists(q, stored) && Lists(r, stored)
        ensures Kept(p, now, q) == Kept(p, now, r)
      {
        ListedOutcome(p, now, q, stored);
        ListedOutcome(p, now, r, stored);
        OutcomeUnique(p, now, stored, Kept(p, now, q), Kept(p, now, r));
      }
    }
  }

  predicate AllInRange(s: set<Snap>) { forall x :: x in s ==> InRange(x.ts) }

  /** A snapshot an earlier run dropped is beaten by one that run left, also later. */
  lemma DroppedStaysBeaten(p: Policy, t1: int, t2: int, stored: set<Snap>, left: set<Snap>, x: Snap) returns (z: Snap)
    requires t1 <= t2 && AllInRange(stored) && Outcome(p, t1, stored, left)
    requires x in stored && x !in left && InDaily(p, t2, x.ts)
    ensures z in left && SameDay(p, t2, z, x) && x.ts <= z.ts
  {
    z :| z in left && SameDay(p, t1, z, x);
  }

  /** Pruning early and again later allows nothing that pruning once, later, does not allow. */
  lemma PruneTwice(p: Policy, t1: int, t2: int, stored: set<Snap>, left: set<Snap>,
                   arrivals: set<Snap>, last: set<Snap>)
    requires t1 <= t2 && AllInRange(stored) && AllInRange(arrivals)
    requires Outcome(p, t1, stored, left) && Outcome(p, t2, left + arrivals, last)
    ensures Outcome(p, t2, stored + arrivals, last)
  {
    forall x | x in stored + arrivals && InDaily(p, t2, x.ts)
      ensures DayKept(p, t2, last, x)
    {
      if x !in left + arrivals {
        var z := DroppedStaysBeaten(p, t1, t2, stored, left, x);
        var y :| y in last && SameDay(p, t2, y, z);
        assert SameDay(p, t2, y, x);
      }
    }
    forall x, y | x in last && y in stored + arrivals && SameDay(p, t2, y, x)
      ensures y.ts <= x.ts
    {
      if y !in left + arrivals {
        var z := DroppedStaysBeaten(p, t1, t2, stored, left, y);
        assert SameDay(p, t2, z, x);
      }
    }
  }

  /** One `gc-live` run and the live snapshots that appear before it. */
  datatype Round = Round(now: int, arrivals: set<Snap>)

  function Arrived(rounds: seq<Round>): set<Snap> {
    if rounds == [] then {} else Arrived(rounds[..|rounds| - 1]) + rounds[|rounds| - 1].arrivals
  }

  /** `states[i]` is what is stored before round `i`. */
  ghost predicate Schedule(p: Policy, rounds: seq<Round>, states: seq<set<Snap>>) {
    && |states| == |rounds| + 1
    && (forall i :: 0 <= i < |rounds| ==> Outcome(p, rounds[i].now, states[i] + rounds[i].arrivals, states[i + 1]))
    && (forall i, j :: 0 <= i < j < |rounds| ==> rounds[i].now <= rounds[j].now)
    && (forall i :: 0 <= i < |rounds| ==> AllInRange(rounds[i].arrivals))
  }

  /** However often it ran before, what retention leaves is what its last run alone would leave. */
  lemma {:induction false} ScheduleIndependence(p: Policy, rounds: seq<Round>, states: seq<set<Snap>>)
    requires rounds != [] && Schedule(p, rounds, states) && AllInRange(states[0])
    ensures AllInRange(states[0] + Arrived(rounds))
    ensures Outcome(p, rounds[|rounds| - 1].now, states[0] + Arrived(rounds), states[|rounds|])
  {
    hide Outcome;
    var n := |rounds| - 1;
    var all := states[0] + Arrived(rounds);
    if n == 0 {
      assert Arrived(rounds[..0]) == {};
      assert all == states[0] + rounds[0].arrivals;
    } else {
      var before := rounds[..n];
      assert Schedule(p, before, states[..n + 1]);
      ScheduleIndependence(p, before, states[..n + 1]);
      var stored := states[0] + Arrived(before);
      assert all == stored + rounds[n].arrivals;
      PruneTwice(p, before[n - 1].now, rounds[n].now, stored, states[n], rounds[n].arrivals, states[n + 1]);
    }
  }

  /**
   * A single run at the end keeps exactly what the whole schedule kept, in whatever order
   * manifests arrive in any of the runs, exactly when its snapshots have no tie.
   */
  lemma ScheduleEqualsLastRun(p: Policy, rounds: seq<Round>, states: seq<set<Snap>>)
    requires rounds != [] && Schedule(p, rounds, states) && AllInRange(states[0])
    ensures var now, all := rounds[|rounds| - 1].now, states[0] + Arrived(rounds);
            (forall q :: Lists(q, all) ==> Kept(p, now, q) == states[|rounds|]) <==> !Tied(p, now, all)
  {
    assert |states| == |rounds| + 1;
    hide *;
    var now, all := rounds[|rounds| - 1].now, states[0] + Arrived(rounds);
    ScheduleIndependence(p, rounds, states);
    if Tied(p, now, all) {
      var q, r := TieDecides(p, now, all);
    } else {
      forall q | Lists(q, all)
        ensures Kept(p, now, q) == states[|rounds|]
      {
        ListedOutcome(p, now, q, all);
        OutcomeUnique(p, now, all, states[|rounds|], Kept(p, now, q));
      }
    }
  }

  /** With equal timestamps the listing decides which snapshot of the day survives. */
  lemma TieFollowsListing(p: Policy, now: int, a: Snap, b: Snap)
    requires a != b && a.ts == b.ts && InDaily(p, now, a.ts)
    ensures Kept(p, now, [a, b]) == {a} && Kept(p, now, [b, a]) == {b}
  {
    KeepsFirst(p, now, a, b);
    KeepsFirst(p, now, b, a);
  }

  lemma KeepsFirst(p: Policy, now: int, a: Snap, b: Snap)
    requires a.ts == b.ts && InDaily(p, now, a.ts)
    ensures Kept(p, now, [a, b]) == {a}
  {
    var q := [a, b];
    assert SameDay(p, now, q[0], q[1]);
    assert Beats(q, 0, 1);
    assert Keeps(p, now, q, 0) && !Keeps(p, now, q, 1);
  }

  // ---- Runs over time, manifests arriving in a fixed order ----

  /** The kept ones among the first `k`, in order. */
  function Survivors(p: Policy, now: int, q: seq<Snap>, k: nat): seq<Snap>
    requires k <= |q|
  {
    if k == 0 then []
    else
      var rest := Survivors(p, now, q, k - 1);
      if Keeps(p, now, q, k - 1) then rest + [q[k - 1]] else rest
  }

  function Surviving(p: Policy, now: int, q: seq<Snap>): seq<Snap> { Survivors(p, now, q, |q|) }

  /** Where they stand in `q`. */
  function Places(p: Policy, now: int, q: seq<Snap>, k: nat): seq<nat>
    requires k <= |q|
  {
    if k == 0 then []
    else
      var rest := Places(p, now, q, k - 1);
      if Keeps(p, now, q, k - 1) then rest + [k - 1] else rest
  }

  lemma {:induction false} PlacesRight(p: Policy, now: int, q: seq<Snap>, k: nat)
    requires k <= |q|
    ensures var f := Places(p, now, q, k);
            && |f| == |Survivors(p, now, q, k)| && Increasing(f)
            && (forall i :: 0 <= i < |f| ==> f[i] < k && Survivors(p, now, q, k)[i] == q[f[i]])
            && (forall o :: o in f <==> 0 <= o < k && Keeps(p, now, q, o))
  {
    hide Keeps;
    if k > 0 {
      PlacesRight(p, now, q, k - 1);
    }
  }

  /** They are what a run leaves. */
  lemma SurvivingIsKept(p: Policy, now: int, q: seq<Snap>)
    ensures forall x :: x in Surviving(p, now, q) <==> x in Kept(p, now, q)
  {
    hide Keeps;
    var f, left := Places(p, now, q, |q|), Surviving(p, now, q);
    PlacesRight(p, now, q, |q|);
    hide Places;
    hide Survivors;
    forall x | x in left
      ensures x in Kept(p, now, q)
    {
      var i :| 0 <= i < |left| && left[i] == x;
      assert f[i] in f;
    }
    forall o | 0 <= o < |q| && Keeps(p, now, q, o)
      ensures q[o] in left
    {
      assert o in f;
      var i :| 0 <= i < |f| && f[i] == o;
      assert left[i] == q[o];
    }
  }

  predicate Increasing(f: seq<nat>) {
    forall i, j :: 0 <= i < j < |f| ==> f[i] < f[j]
  }

  /** `a` lists part of what `c` lists, in the same order; `f` says where. */
  predicate Embeds(a: seq<Snap>, c: seq<Snap>, f: seq<nat>) {
    |f| == |a| && Increasing(f) && forall i :: 0 <= i < |a| ==> f[i] < |c| && a[i] == c[f[i]]
  }

  /** At its place `o` in `c`, a snapshot was dropped by the earlier run on `s`. */
  ghost predicate DroppedAt(p: Policy, t1: int, s: seq<Snap>, f: seq<nat>, o: nat)
    requires |f| == |s|
  {
    exists x :: 0 <= x < |s| && f[x] == o && !Keeps(p, t1, s, x)
  }

  /** What the earlier run dropped from the daily window is beaten by something it left. */
  lemma DroppedIsBeaten(p: Policy, t1: int, t2: int, s: seq<Snap>, c: seq<Snap>, f: seq<nat>, x: nat) returns (w: nat)
    requires t1 <= t2 && Embeds(s, c, f) && (forall o :: 0 <= o < |c| ==> InRange(c[o].ts))
    requires x < |s| && !Keeps(p, t1, s, x) && InDaily(p, t2, s[x].ts)
    ensures w < |s| && Keeps(p, t1, s, w) && SameDay(p, t2, c[f[w]], c[f[x]]) && Beats(c, f[w], f[x])
  {
    WinnerBest(p, t1, s, Day(s[x].ts, t1), |s|, x);
    w := Winner(p, t1, s, Day(s[x].ts, t1), |s|).value;
    KeepsWinner(p, t1, s, x);
    KeepsWinner(p, t1, s, w);
    hide Winner;
    assert Beats(s, w, x);
  }

  /** What the earlier run dropped, the later run drops from the full listing. */
  lemma DroppedStaysDropped(p: Policy, t1: int, t2: int, s: seq<Snap>, c: seq<Snap>, f: seq<nat>, x: nat)
    requires t1 <= t2 && Embeds(s, c, f) && (forall o :: 0 <= o < |c| ==> InRange(c[o].ts))
    requires x < |s| && !Keeps(p, t1, s, x)
    ensures !Keeps(p, t2, c, f[x])
  {
    if InDaily(p, t2, s[x].ts) {
      var w := DroppedIsBeaten(p, t1, t2, s, c, f, x);
    }
  }

  /** What is left is judged alike with and without what was dropped. */
  lemma LeftJudgedAlike(p: Policy, t1: int, t2: int, s: seq<Snap>, a: seq<Snap>, c: seq<Snap>,
                        f: seq<nat>, g: seq<nat>, i: nat)
    requires t1 <= t2 && Embeds(s, c, f) && Embeds(a, c, g) && (forall o :: 0 <= o < |c| ==> InRange(c[o].ts))
    requires forall o :: 0 <= o < |c| ==> (o in g <==> !DroppedAt(p, t1, s, f, o))
    requires i < |a|
    ensures Keeps(p, t2, a, i) <==> Keeps(p, t2, c, g[i])
  {
    if InDaily(p, t2, a[i].ts) {
      if Keeps(p, t2, a, i) {
        forall o | 0 <= o < |c| && SameDay(p, t2, c[o], c[g[i]])
          ensures !Beats(c, o, g[i])
        {
          NoBeater(p, t1, t2, s, a, c, f, g, i, o);
        }
      } else {
        var j :| 0 <= j < |a| && SameDay(p, t2, a[j], a[i]) && Beats(a, j, i);
        assert Beats(c, g[j], g[i]);
      }
    }
  }

  lemma NoBeater(p: Policy, t1: int, t2: int, s: seq<Snap>, a: seq<Snap>, c: seq<Snap>,
                 f: seq<nat>, g: seq<nat>, i: nat, o: nat)
    requires t1 <= t2 && Embeds(s, c, f) && Embeds(a, c, g) && (forall k :: 0 <= k < |c| ==> InRange(c[k].ts))
    requires forall k :: 0 <= k < |c| ==> (k in g <==> !DroppedAt(p, t1, s, f, k))
    requires i < |a| && InDaily(p, t2, a[i].ts) && Keeps(p, t2, a, i)
    requires o < |c| && SameDay(p, t2, c[o], c[g[i]])
    ensures !Beats(c, o, g[i])
  {
    if Beats(c, o, g[i]) {
      var best := o;
      if DroppedAt(p, t1, s, f, o) {
        var x :| 0 <= x < |s| && f[x] == o && !Keeps(p, t1, s, x);
        var w := DroppedIsBeaten(p, t1, t2, s, c, f, x);
        best := f[w];
        LeftIsNotDropped(p, t1, s, f, w);
      }
      assert best in g;
      var j :| 0 <= j < |g| && g[j] == best;
      assert Beats(a, j, i) && SameDay(p, t2, a[j], a[i]);
    }
  }

  lemma LeftIsNotDropped(p: Policy, t1: int, s: seq<Snap>, f: seq<nat>, w: nat)
    requires |f| == |s| && Increasing(f) && w < |s| && Keeps(p, t1, s, w)
    ensures !DroppedAt(p, t1, s, f, f[w])
  {
  }

  /** A partial listing survives like the full one when it lacks only what the full one drops. */
  lemma {:induction false} SameSurvivors(p: Policy, now: int, a: seq<Snap>, c: seq<Snap>, g: seq<nat>, i: nat, j: nat)
    requires Embeds(a, c, g) && i <= |a| && j <= |c|
    requires forall x :: 0 <= x < |a| ==> (g[x] < j <==> x < i) && (Keeps(p, now, a, x) <==> Keeps(p, now, c, g[x]))
    requires forall o :: 0 <= o < |c| && o !in g ==> !Keeps(p, now, c, o)
    ensures Survivors(p, now, a, i) == Survivors(p, now, c, j)
  {
    hide Keeps;
    if j > 0 {
      if i > 0 && g[i - 1] == j - 1 {
        SameSurvivors(p, now, a, c, g, i - 1, j - 1);
      } else {
        assert j - 1 !in g;
        SameSurvivors(p, now, a, c, g, i, j - 1);
      }
    }
  }

  /**
   * Pruning `s` and later, with other snapshots, what was left is pruning everything once,
   * later: the same snapshots stay, ties included. The listings agree in their order.
   */
  lemma PruneTwiceInOrder(p: Policy, t1: int, t2: int, s: seq<Snap>, a: seq<Snap>, c: seq<Snap>,
                          f: seq<nat>, g: seq<nat>)
    requires t1 <= t2 && Embeds(s, c, f) && Embeds(a, c, g) && (forall o :: 0 <= o < |c| ==> InRange(c[o].ts))
    requires forall o :: 0 <= o < |c| ==> (o in g <==> !DroppedAt(p, t1, s, f, o))
    ensures Surviving(p, t2, a) == Surviving(p, t2, c)
  {
    forall x | 0 <= x < |a|
      ensures Keeps(p, t2, a, x) <==> Keeps(p, t2, c, g[x])
    {
      LeftJudgedAlike(p, t1, t2, s, a, c, f, g, x);
    }
    forall o | 0 <= o < |c| && o !in g
      ensures !Keeps(p, t2, c, o)
    {
      var x :| 0 <= x < |s| && f[x] == o && !Keeps(p, t1, s, x);
      DroppedStaysDropped(p, t1, t2, s, c, f, x);
    }
    hide Keeps;
    SameSurvivors(p, t2, a, c, g, |a|, |c|);
  }

  /** The case of snapshots that arrive behind those that are there. */
  lemma PruneTwiceAppended(p: Policy, t1: int, t2: int, s: seq<Snap>, arrivals: seq<Snap>)
    requires t1 <= t2 && (forall x :: x in s + arrivals ==> InRange(x.ts))
    ensures Surviving(p, t2, Surviving(p, t1, s) + arrivals) == Surviving(p, t2, s + arrivals)
  {
    hide Keeps;
    var a, c := Surviving(p, t1, s) + arrivals, s + arrivals;
    var f := seq(|s|, i => i);
    var places := Places(p, t1, s, |s|);
    PlacesRight(p, t1, s, |s|);
    hide Places;
    hide Survivors;
    var g := places + seq(|arrivals|, i => |s| + i);
    forall o | 0 <= o < |c|
      ensures o in g <==> !DroppedAt(p, t1, s, f, o)
    {
      if o >= |s| {
        assert g[|places| + (o - |s|)] == o;
      } else {
        assert f[o] == o;
        assert o in g <==> o in places;
      }
    }
    forall o | 0 <= o < |c| ensures InRange(c[o].ts) {
      assert c[o] in c;
    }
    PruneTwiceInOrder(p, t1, t2, s, a, c, f, g);
  }

  /** One run and the snapshots that arrive before it, in order. */
  datatype Arrival = Arrival(now: int, snaps: seq<Snap>)

  function AllArrived(rounds: seq<Arrival>): seq<Snap> {
    if rounds == [] then [] else AllArrived(rounds[..|rounds| - 1]) + rounds[|rounds| - 1].snaps
  }

  /** What a sequence of runs leaves, each run on what the one before left and what arrived. */
  function AfterRuns(p: Policy, rounds: seq<Arrival>, stored: seq<Snap>): seq<Snap> {
    if rounds == [] then stored
    else
      var last := rounds[|rounds| - 1];
      Surviving(p, last.now, AfterRuns(p, rounds[..|rounds| - 1], stored) + last.snaps)
  }

  /** Any sequence of runs leaves exactly what its last run alone would have left, ties included. */
  lemma {:induction false} RunsEqualLastRun(p: Policy, rounds: seq<Arrival>, stored: seq<Snap>)
    requires rounds != [] && (forall x :: x in stored + AllArrived(rounds) ==> InRange(x.ts))
    requires forall i, j :: 0 <= i < j < |rounds| ==> rounds[i].now <= rounds[j].now
    ensures AfterRuns(p, rounds, stored) == Surviving(p, rounds[|rounds| - 1].now, stored + AllArrived(rounds))
  {
    hide Surviving;
    var n := |rounds| - 1;
    var before, last := rounds[..n], rounds[n];
    if n == 0 {
      assert AllArrived(before) == [];
      assert [] + last.snaps == last.snaps;
    } else {
      var earlier := stored + AllArrived(before);
      assert earlier + last.snaps == stored + AllArrived(rounds);
      RunsEqualLastRun(p, before, stored);
      PruneTwiceAppended(p, before[n - 1].now, last.now, earlier, last.snaps);
    }
  }
}
