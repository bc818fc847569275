/** `ConvertToSortedSlice`: from a map, iterated in any order, to one well-determined sorted slice. */
module SortedSlice {
  import opened Wrappers
  import opened Seqs
  import opened AccountStats

  /** `Less`: by reward when both are set, by share otherwise, larger first; ties by address. */
  predicate Before(a: Stat, b: Stat)
  {
    var byReward := a.reward.Some? && b.reward.Some?;
    var x := if byReward then a.reward.value else a.share;
    var y := if byReward then b.reward.value else b.share;
    if x != y then x > y else a.account < b.account
  }

  /** What a sort with `Less` establishes: no element is before its predecessor. */
  predicate Sorted(s: seq<Stat>)
  {
    forall i :: 0 < i < |s| ==> !Before(s[i], s[i - 1])
  }

  predicate DistinctAccounts(s: seq<Stat>)
  {
    forall i, j :: 0 <= i < j < |s| ==> s[i].account != s[j].account
  }

  /** Rewards are all set or all unset. */
  predicate Homogeneous(s: seq<Stat>)
  {
    Unrewarded(s) || forall i :: 0 <= i < |s| ==> s[i].reward.Some?
  }

  /** Without homogeneous rewards `Less` can run in a circle, so no order is right. */
  lemma MixedRewardsCycle()
    ensures exists a: Stat, b: Stat, c: Stat ::
              && a.account != b.account && b.account != c.account && a.account != c.account
              && Before(a, b) && Before(b, c) && Before(c, a)
  {
    var a, b, c := Stat(1, Some(2), 1, 0), Stat(2, Some(1), 3, 0), Stat(3, None, 2, 0);
    assert Before(a, b) && Before(b, c) && Before(c, a);
  }

  /** With homogeneous rewards and distinct accounts, a sorted slice is sorted for every pair, not just neighbours. */
  lemma {:induction false} SortedPairs(s: seq<Stat>, i: nat, j: nat)
    requires Sorted(s) && DistinctAccounts(s) && Homogeneous(s)
    requires i < j < |s|
    ensures Before(s[i], s[j]) && !Before(s[j], s[i])
  {
    if i < j - 1 {
      SortedPairs(s, i, j - 1);
      assert Before(s[j - 1], s[j]);
    }
  }

  /** What the order means: larger shares first before rewards are set, larger rewards first after; ties by the lower
      address. */
  lemma SortedMeans(s: seq<Stat>, i: nat, j: nat)
    requires Sorted(s) && DistinctAccounts(s) && i < j < |s|
    ensures Unrewarded(s) ==>
              s[i].share > s[j].share || (s[i].share == s[j].share && s[i].account < s[j].account)
    ensures (forall k :: 0 <= k < |s| ==> s[k].reward.Some?) ==>
              || s[i].reward.value > s[j].reward.value
              || (s[i].reward.value == s[j].reward.value && s[i].account < s[j].account)
  {
    if Homogeneous(s) {
      SortedPairs(s, i, j);
    }
  }

  lemma SameFirst(s: seq<Stat>, t: seq<Stat>)
    requires Sorted(s) && Sorted(t) && multiset(s) == multiset(t) && |s| > 0 && |t| > 0
    requires DistinctAccounts(s) && DistinctAccounts(t) && Homogeneous(s) && Homogeneous(t)
    ensures s[0] == t[0]
  {
    assert s[0] in multiset(t) && t[0] in multiset(s);
    var i :| 0 <= i < |s| && s[i] == t[0];
    var j :| 0 <= j < |t| && t[j] == s[0];
    if i > 0 && j > 0 {
      SortedPairs(s, 0, i);
      SortedPairs(t, 0, j);
    }
  }

  lemma MultisetTail(s: seq<Stat>)
    requires |s| > 0
    ensures multiset(s[1..]) == multiset(s) - multiset{s[0]}
  {
    assert s == [s[0]] + s[1..];
  }

  /** Two sorted arrangements of the same statistics are the same slice: `Less` is a strict total order on them. */
  lemma {:induction false} SortedUnique(s: seq<Stat>, t: seq<Stat>)
    requires Sorted(s) && Sorted(t) && multiset(s) == multiset(t)
    requires DistinctAccounts(s) && DistinctAccounts(t) && Homogeneous(s) && Homogeneous(t)
    ensures s == t
  {
    SameLength(s, t);
    if |s| > 0 {
      SameFirst(s, t);
      MultisetTail(s);
      MultisetTail(t);
      SortedUnique(s[1..], t[1..]);
      HeadTail(s);
      HeadTail(t);
    }
  }

  /** Stands for the library sort: any permutation without inversions between neighbours. */
  method Sort(s: seq<AccountStat>) returns (r: seq<AccountStat>)
    ensures Sorted(Views(r)) && multiset(Views(r)) == multiset(Views(s))
    ensures forall o :: o in r ==> o in s
  {
    r := [];
    ghost var views := Views(s);
    for i := 0 to |s|
      invariant Sorted(Views(r)) && multiset(Views(r)) == multiset(views[..i])
      invariant forall o :: o in r ==> o in s
    {
      r := Insert(r, s[i]);
      assert views[i] == s[i].View();
      TakeNext(views, i);
    }
    TakeAll(views);
  }

  lemma InsertedSorted(s: seq<Stat>, j: nat, x: Stat)
    requires Sorted(s) && j <= |s|
    requires j > 0 ==> !Before(x, s[j - 1])
    requires j < |s| ==> Before(x, s[j])
    ensures Sorted(s[..j] + [x] + s[j..])
  {
    var r := s[..j] + [x] + s[j..];
    forall i | 0 < i < |r|
      ensures !Before(r[i], r[i - 1])
    {
      assert i < j ==> r[i] == s[i] && r[i - 1] == s[i - 1];
      assert i > j + 1 ==> r[i] == s[i - 1] && r[i - 1] == s[i - 2];
    }
  }

  lemma InsertedElements(s: seq<Stat>, j: nat, x: Stat)
    requires j <= |s|
    ensures multiset(s[..j] + [x] + s[j..]) == multiset(s) + multiset{x}
  {
    assert s == s[..j] + s[j..];
  }

  lemma InsertedViews(s: seq<AccountStat>, j: nat, x: AccountStat)
    requires j <= |s|
    ensures Views(s[..j] + [x] + s[j..]) == Views(s)[..j] + [x.View()] + Views(s)[j..]
  {
  }

  method Insert(s: seq<AccountStat>, x: AccountStat) returns (r: seq<AccountStat>)
    requires Sorted(Views(s))
    ensures Sorted(Views(r)) && multiset(Views(r)) == multiset(Views(s)) + multiset{x.View()}
    ensures forall o :: o in r ==> o in s || o == x
  {
    var j := |s|;
    while j > 0 && Before(x.View(), s[j - 1].View())
      invariant 0 <= j <= |s|
      invariant j < |s| ==> Before(x.View(), Views(s)[j])
    {
      j := j - 1;
    }
    InsertedSorted(Views(s), j, x.View());
    InsertedElements(Views(s), j, x.View());
    InsertedViews(s, j, x);
    r := s[..j] + [x] + s[j..];
  }

  /** Statistics filed under their own account. */
  predicate WellKeyed(m: map<nat, Stat>)
  {
    forall k :: k in m ==> m[k].account == k
  }

  /** The statistics a slice keeps: those with a positive share. */
  ghost function Kept(m: map<nat, Stat>): set<Stat>
  {
    KeptFrom(m, m.Keys)
  }

  ghost function KeptFrom(m: map<nat, Stat>, keys: set<nat>): set<Stat>
    requires keys <= m.Keys
  {
    set k | k in keys && m[k].share > 0 :: m[k]
  }

  lemma KeepOne(m: map<nat, Stat>, seen: set<nat>, key: nat)
    requires WellKeyed(m) && key in m && seen <= m.Keys && key !in seen
    ensures m[key] !in KeptFrom(m, seen)
    ensures KeptFrom(m, seen + {key}) == KeptFrom(m, seen) + if m[key].share > 0 then {m[key]} else {}
  {
  }

  ghost predicate IsSortedSliceOf(r: seq<Stat>, m: map<nat, Stat>)
  {
    Sorted(r) && multiset(r) == multiset(Kept(m))
  }

  /** What has been listed when only `keys` are left. */
  ghost predicate ListedBut(views: seq<Stat>, m: map<nat, Stat>, keys: set<nat>)
  {
    keys <= m.Keys && multiset(views) == multiset(KeptFrom(m, m.Keys - keys))
  }

  lemma ListOne(views: seq<Stat>, m: map<nat, Stat>, keys: set<nat>, key: nat)
    requires WellKeyed(m) && ListedBut(views, m, keys) && key in keys
    ensures ListedBut(if m[key].share > 0 then views + [m[key]] else views, m, keys - {key})
  {
    KeepOne(m, m.Keys - keys, key);
    assert m.Keys - (keys - {key}) == m.Keys - keys + {key};
  }

  /** The entries with a positive share, as the map is walked in an arbitrary order. */
  method ListPositive(statMap: map<nat, AccountStat>) returns (accountStats: seq<AccountStat>)
    requires Filed(statMap)
    ensures multiset(Views(accountStats)) == multiset(Kept(StatViews(statMap)))
    ensures forall o :: o in accountStats ==> o in statMap.Values
  {
    accountStats := [];
    var keys := statMap.Keys;
    ghost var m := StatViews(statMap);
    while keys != {}
      invariant ListedBut(Views(accountStats), m, keys)
      invariant forall o :: o in accountStats ==> o in statMap.Values
      decreases keys
    {
      var key :| key in keys;
      ListOne(Views(accountStats), m, keys, key);
      if statMap[key].share > 0 {
        AppendedViews(accountStats, statMap[key]);
        accountStats := accountStats + [statMap[key]];
      }
      keys := keys - {key};
    }
    assert m.Keys - {} == m.Keys;
  }

  method ConvertToSortedSlice(statMap: map<nat, AccountStat>) returns (r: seq<AccountStat>)
    requires Filed(statMap)
    ensures IsSortedSliceOf(Views(r), StatViews(statMap))
    ensures forall o :: o in r ==> o in statMap.Values
    ensures Distinct(r)
  {
    var accountStats := ListPositive(statMap);
    r := Sort(accountStats);
    SliceContents(Views(r), StatViews(statMap));
    DistinctObjects(r);
  }

  lemma AppendedViews(s: seq<AccountStat>, x: AccountStat)
    ensures Views(s + [x]) == Views(s) + [x.View()]
  {
  }

  lemma DistinctObjects(s: seq<AccountStat>)
    requires DistinctAccounts(Views(s))
    ensures Distinct(s)
  {
    assert forall i :: 0 <= i < |s| ==> Views(s)[i].account == s[i].account;
  }

  /** A slice of a well-keyed map has distinct accounts and exactly the map's positive entries. */
  lemma SliceContents(r: seq<Stat>, m: map<nat, Stat>)
    requires WellKeyed(m) && IsSortedSliceOf(r, m)
    ensures DistinctAccounts(r)
    ensures forall i :: 0 <= i < |r| ==> r[i].share > 0 && r[i].account in m && m[r[i].account] == r[i]
    ensures forall k :: k in m && m[k].share > 0 ==> m[k] in r
  {
    forall i | 0 <= i < |r|
      ensures r[i].share > 0 && r[i].account in m && m[r[i].account] == r[i]
    {
      assert r[i] in multiset(r);
    }
    forall k | k in m && m[k].share > 0
      ensures m[k] in r
    {
      assert m[k] in multiset(Kept(m));
    }
    forall i, j | 0 <= i < j < |r|
      ensures r[i].account != r[j].account
    {
      if r[i] == r[j] {
        DuplicateCount(r, i, j);
      }
    }
  }

  lemma DuplicateCount(r: seq<Stat>, i: nat, j: nat)
    requires i < j < |r| && r[i] == r[j]
    ensures multiset(r)[r[i]] >= 2
  {
    assert r == r[..i] + [r[i]] + r[i + 1..j] + [r[j]] + r[j + 1..];
  }

  /** Determinism: whatever order the map is walked in, the slice is the same. */
  lemma SliceDetermined(m: map<nat, Stat>, r: seq<Stat>, r': seq<Stat>)
    requires WellKeyed(m) && IsSortedSliceOf(r, m) && IsSortedSliceOf(r', m)
    requires (forall k :: k in m ==> m[k].reward.Some?) || (forall k :: k in m ==> m[k].reward.None?)
    ensures r == r'
  {
    SliceContents(r, m);
    SliceContents(r', m);
    SortedUnique(r, r');
  }

  /** A slice sorted before any reward is set lists its shares in non-increasing order. */
  lemma SortedByShare(s: seq<Stat>)
    requires Sorted(s) && DistinctAccounts(s) && Unrewarded(s)
    ensures NonIncreasing(Shares(s))
  {
    forall i, j | 0 <= i < j < |s|
      ensures Shares(s)[i] >= Shares(s)[j]
    {
      SortedPairs(s, i, j);
    }
  }
}
