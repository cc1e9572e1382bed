/** What `gc-live` prunes: the choice `prune_old_live_snapshots` makes among the manifests it has read. */
module GcLive {
  import opened Bytes
  import opened Retention
  import Latest

  /** The prefix of automatic names. */
  predicate IsLive(name: Name) { Latest.LIVE + [Latest.UNDERSCORE] <= name }

  /** An automatic name is live, whoever made it and when. */
  lemma AutomaticIsLive(shard: seq<u8>, replica: seq<u8>, t: Latest.Stamp, uuid: seq<u8>)
    ensures IsLive(Latest.AutoName(shard, replica, t, uuid))
  {
    hide Latest.Format;
    var front := Latest.LIVE + [Latest.UNDERSCORE];
    assert Latest.Prefix(shard, replica) == front + (shard + [Latest.UNDERSCORE] + replica + [Latest.UNDERSCORE]);
    assert Latest.AutoName(shard, replica, t, uuid) ==
           front + (shard + [Latest.UNDERSCORE] + replica + [Latest.UNDERSCORE]
                    + Latest.Format(t, [Latest.UNDERSCORE] + uuid));
  }

  /** A name is live exactly when it starts with the five bytes of `live_`. */
  lemma LiveExactly(name: Name)
    ensures IsLive(name) <==> |name| >= 5 && name[..5] == [0x6C, 0x69, 0x76, 0x65, 0x5F]
  {
    assert Latest.LIVE + [Latest.UNDERSCORE] == [0x6C, 0x69, 0x76, 0x65, 0x5F];
  }

  function LiveOf(names: set<Name>): set<Name> { set n | n in names && IsLive(n) }

  /** The live ones among some names: all that start with these bytes, and no others. */
  lemma LiveOfExactly(names: set<Name>, name: Name)
    ensures name in LiveOf(names) <==>
            name in names && |name| >= 5 && name[..5] == [0x6C, 0x69, 0x76, 0x65, 0x5F]
  {
    LiveExactly(name);
  }

  predicate OldestFirst(q: seq<Snap>) { forall i, j :: 0 <= i < j < |q| ==> q[i].ts <= q[j].ts }

  /** `q` lists each of `names` once, with its timestamp, oldest first. */
  ghost predicate ListsNames(q: seq<Snap>, names: set<Name>, stamp: Name -> int) {
    && DistinctNames(q) && OldestFirst(q)
    && (forall i :: 0 <= i < |q| ==> q[i].name in names && q[i].ts == stamp(q[i].name))
    && forall n :: n in names ==> exists i :: 0 <= i < |q| && q[i].name == n
  }

  /** A stable sort (`sort_by_key`): the new one comes behind those as old as it is. */
  method InsertLast(q: seq<Snap>, x: Snap) returns (r: seq<Snap>, ghost at: nat)
    requires OldestFirst(q)
    ensures at <= |q| && r == q[..at] + [x] + q[at..] && OldestFirst(r)
  {
    var k := |q|;
    while k > 0 && q[k - 1].ts > x.ts
      invariant 0 <= k <= |q| && (k < |q| ==> q[k].ts > x.ts)
    {
      k := k - 1;
    }
    r, at := q[..k] + [x] + q[k..], k;
  }

  lemma ListsOneMore(q: seq<Snap>, names: set<Name>, stamp: Name -> int, n: Name, r: seq<Snap>, at: nat)
    requires ListsNames(q, names, stamp) && n !in names
    requires at <= |q| && r == q[..at] + [Snap(n, stamp(n))] + q[at..] && OldestFirst(r)
    ensures ListsNames(r, names + {n}, stamp)
  {
    forall m | m in names
      ensures exists i :: 0 <= i < |r| && r[i].name == m
    {
      var i :| 0 <= i < |q| && q[i].name == m;
      assert r[if i < at then i else i + 1].name == m;
    }
    assert r[at].name == n;
  }

  /** The live snapshots of a listing, oldest first, in the order of arrival where equally old. */
  method LiveByAge(names: set<Name>, stamp: Name -> int) returns (q: seq<Snap>)
    ensures ListsNames(q, LiveOf(names), stamp)
  {
    hide ListsNames;
    q := [];
    var left := LiveOf(names);
    ghost var taken: set<Name> := {};
    NoNames(stamp);
    while left != {}
      invariant taken !! left && taken + left == LiveOf(names)
      invariant ListsNames(q, taken, stamp)
      decreases left
    {
      var n :| n in left;
      ghost var at;
      ghost var before := q;
      ListingIsSorted(q, taken, stamp);
      q, at := InsertLast(q, Snap(n, stamp(n)));
      ListsOneMore(before, taken, stamp, n, q, at);
      left, taken := left - {n}, taken + {n};
    }
  }

  lemma NoNames(stamp: Name -> int)
    ensures ListsNames([], {}, stamp)
  {
  }

  lemma ListingIsSorted(q: seq<Snap>, names: set<Name>, stamp: Name -> int)
    requires ListsNames(q, names, stamp)
    ensures OldestFirst(q) && DistinctNames(q)
  {
  }

  /** The names to prune are those of exactly the live snapshots that retention does not keep. */
  method ChoosePrune(names: set<Name>, stamp: Name -> int, p: Policy, now: int)
      returns (q: seq<Snap>, prune: set<Name>)
    ensures ListsNames(q, LiveOf(names), stamp)
    ensures prune == NotKept(p, now, q) && prune <= names
    ensures forall n :: n in prune ==> |n| >= 5 && n[..5] == [0x6C, 0x69, 0x76, 0x65, 0x5F]
  {
    hide ListsNames;
    hide Keeps;
    q := LiveByAge(names, stamp);
    ListingIsSorted(q, LiveOf(names), stamp);
    var toPrune := ComputePruneSet(q, p, now);
    PrunedExactly(p, now, q, toPrune);
    prune := set n | n in toPrune;
    NotKeptIsListed(q, names, stamp, p, now);
    forall n | n in prune
      ensures |n| >= 5 && n[..5] == [0x6C, 0x69, 0x76, 0x65, 0x5F]
    {
      LiveExactly(n);
    }
  }

  lemma NotKeptIsListed(q: seq<Snap>, names: set<Name>, stamp: Name -> int, p: Policy, now: int)
    requires ListsNames(q, LiveOf(names), stamp)
    ensures forall n :: n in NotKept(p, now, q) ==> n in names && IsLive(n)
  {
  }
}
