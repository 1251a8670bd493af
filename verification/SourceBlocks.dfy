/** Grouping by source, each group where its source first appears. */
module SourceBlocks {
  import opened Placing

  function FirstOf(keys: seq<string>, key: string): (i: nat)
    ensures i <= |keys|
    ensures key in keys ==> i < |keys| && keys[i] == key
    ensures forall j :: 0 <= j < i ==> keys[j] != key
  {
    if keys == [] || keys[0] == key then 0
    else
      var i := 1 + FirstOf(keys[1..], key);
      assert forall j :: 0 < j < i ==> keys[j] == keys[1..][j - 1];
      i
  }

  /** First appearance of the source first, then the position: a stable grouping. */
  function BlockPlaces(keys: seq<string>): (places: seq<Place>)
    ensures |places| == |keys|
  {
    seq(|keys|, i requires 0 <= i < |keys| => Place(0, FirstOf(keys, keys[i]), 0, 0))
  }

  function Flattened(groups: seq<seq<nat>>): seq<nat> {
    if groups == [] then [] else Flattened(groups[..|groups| - 1]) + groups[|groups| - 1]
  }

  // Group `g` lists the positions of its key below `n`, in order.
  ghost predicate IsGroup(keys: seq<string>, n: nat, first: nat, group: seq<nat>) {
    && first < n <= |keys| && group != [] && group[0] == first
    && (forall k :: 0 <= k < |group| ==> group[k] < n && keys[group[k]] == keys[first])
    && (forall i :: 0 <= i < n && keys[i] == keys[first] ==> i in group)
    && (forall j, k :: 0 <= j < k < |group| ==> group[j] < group[k])
  }

  // After `n` keys: one group per key seen, in the order of first appearance.
  ghost predicate Grouped(keys: seq<string>, n: nat, groups: seq<seq<nat>>, index: map<string, nat>) {
    && n <= |keys|
    && (forall g :: 0 <= g < |groups| ==>
        groups[g] != [] && groups[g][0] < n && IsGroup(keys, n, groups[g][0], groups[g]))
    && (forall g, h :: 0 <= g < h < |groups| ==>
          groups[g][0] < groups[h][0] && keys[groups[g][0]] != keys[groups[h][0]])
    && (forall key :: key in index ==> index[key] < |groups| && keys[groups[index[key]][0]] == key)
    && (forall i :: 0 <= i < n ==> keys[i] in index)
  }

  lemma GroupGrows(keys: seq<string>, n: nat, group: seq<nat>)
    requires group != [] && IsGroup(keys, n, group[0], group) && n < |keys| && keys[n] == keys[group[0]]
    ensures IsGroup(keys, n + 1, group[0], group + [n])
  {
    var next := group + [n];
    assert next[|group|] == n && forall k :: 0 <= k < |group| ==> next[k] == group[k];
    forall i | 0 <= i < n + 1 && keys[i] == keys[group[0]] ensures i in next {
      if i < n { assert i in group; }
    }
  }

  lemma GroupStays(keys: seq<string>, n: nat, group: seq<nat>)
    requires group != [] && IsGroup(keys, n, group[0], group) && n < |keys| && keys[n] != keys[group[0]]
    ensures IsGroup(keys, n + 1, group[0], group)
  {}

  lemma JoinsItsGroup(keys: seq<string>, n: nat, groups: seq<seq<nat>>, index: map<string, nat>)
    requires Grouped(keys, n, groups, index) && n < |keys| && keys[n] in index
    ensures var g := index[keys[n]];
      Grouped(keys, n + 1, groups[g := groups[g] + [n]], index)
  {
    var g := index[keys[n]];
    var next := groups[g := groups[g] + [n]];
    assert forall h :: 0 <= h < |next| ==> next[h] != [] && next[h][0] == groups[h][0];
    forall h | 0 <= h < |next| ensures IsGroup(keys, n + 1, next[h][0], next[h]) {
      if h == g {
        GroupGrows(keys, n, groups[g]);
      } else {
        OtherKey(keys, n, groups, index, g, h);
        GroupStays(keys, n, groups[h]);
      }
    }
  }

  lemma OtherKey(keys: seq<string>, n: nat, groups: seq<seq<nat>>, index: map<string, nat>, g: nat, h: nat)
    requires Grouped(keys, n, groups, index) && g < |groups| && h < |groups| && g != h
    ensures keys[groups[g][0]] != keys[groups[h][0]]
  {
    var low, high := if g < h then g else h, if g < h then h else g;
    assert keys[groups[low][0]] != keys[groups[high][0]];
  }

  lemma StartsAGroup(keys: seq<string>, n: nat, groups: seq<seq<nat>>, index: map<string, nat>)
    requires Grouped(keys, n, groups, index) && n < |keys| && keys[n] !in index
    ensures Grouped(keys, n + 1, groups + [[n]], index[keys[n] := |groups|])
  {
    var next := groups + [[n]];
    assert forall h :: 0 <= h < |groups| ==> keys[groups[h][0]] in index;
    forall h | 0 <= h < |next| ensures IsGroup(keys, n + 1, next[h][0], next[h]) {
      if h < |groups| { GroupStays(keys, n, groups[h]); }
    }
  }

  method AddToGroup(keys: seq<string>, i: nat, groups: seq<seq<nat>>, index: map<string, nat>)
    returns (groups': seq<seq<nat>>, index': map<string, nat>)
    requires i < |keys| && Grouped(keys, i, groups, index)
    ensures Grouped(keys, i + 1, groups', index')
  {
    if keys[i] in index {
      JoinsItsGroup(keys, i, groups, index);
      var g := index[keys[i]];
      return groups[g := groups[g] + [i]], index;
    }
    StartsAGroup(keys, i, groups, index);
    return groups + [[i]], index[keys[i] := |groups|];
  }

  /** source_block_indices: a stable grouping by first appearance. */
  method SourceBlockIndices(keys: seq<string>) returns (order: seq<nat>)
    ensures IsOrdering(BlockPlaces(keys), order)
  {
    var groups: seq<seq<nat>> := [];
    var index: map<string, nat> := map[];
    for i := 0 to |keys|
      invariant Grouped(keys, i, groups, index)
    {
      groups, index := AddToGroup(keys, i, groups, index);
    }
    GroupsAreOrdering(keys, groups, index);
    return Flattened(groups);
  }

  lemma GroupPlace(keys: seq<string>, first: nat, group: seq<nat>, k: nat)
    requires IsGroup(keys, |keys|, first, group) && k < |group|
    ensures BlockPlaces(keys)[group[k]] == Place(0, first, 0, 0)
  {
    var f := FirstOf(keys, keys[group[k]]);
    assert f in group;
  }

  lemma GroupInOrder(keys: seq<string>, first: nat, group: seq<nat>)
    requires IsGroup(keys, |keys|, first, group)
    ensures InOrder(BlockPlaces(keys), group) && forall k :: 0 <= k < |group| ==>
      BlockPlaces(keys)[group[k]] == Place(0, first, 0, 0)
  {
    forall k | 0 <= k < |group| ensures BlockPlaces(keys)[group[k]] == Place(0, first, 0, 0) {
      GroupPlace(keys, first, group, k);
    }
  }

  // Every place in the list is that of a group headed at or before `last`.
  ghost predicate UpTo(places: seq<Place>, order: seq<nat>, last: nat) {
    InRange(places, order)
    && forall k :: 0 <= k < |order| ==>
      places[order[k]] == Place(0, places[order[k]].a, 0, 0) && places[order[k]].a <= last
  }

  lemma NextGroup(places: seq<Place>, before: seq<nat>, last: nat, group: seq<nat>, first: nat)
    requires InOrder(places, before) && UpTo(places, before, last) && last < first
    requires InOrder(places, group) && forall k :: 0 <= k < |group| ==> places[group[k]] == Place(0, first, 0, 0)
    ensures InOrder(places, before + group) && UpTo(places, before + group, first)
  {
    Concatenated(places, before, group);
    forall k | 0 <= k < |before + group|
      ensures var p := places[(before + group)[k]]; p == Place(0, p.a, 0, 0) && p.a <= first
    {
      assert (before + group)[k] == if k < |before| then before[k] else group[k - |before|];
    }
  }

  lemma FlattenedSnoc(groups: seq<seq<nat>>, m: nat)
    requires 0 < m <= |groups|
    ensures Flattened(groups[..m]) == Flattened(groups[..m - 1]) + groups[m - 1]
  {
    assert groups[..m][..m - 1] == groups[..m - 1];
  }

  lemma {:induction false} GroupsInOrder(keys: seq<string>, groups: seq<seq<nat>>, index: map<string, nat>, m: nat)
    requires Grouped(keys, |keys|, groups, index) && 0 < m <= |groups|
    ensures InOrder(BlockPlaces(keys), Flattened(groups[..m]))
    ensures UpTo(BlockPlaces(keys), Flattened(groups[..m]), groups[m - 1][0])
  {
    var group := groups[m - 1];
    FlattenedSnoc(groups, m);
    GroupInOrder(keys, group[0], group);
    if m > 1 {
      GroupsInOrder(keys, groups, index, m - 1);
      assert groups[m - 2][0] < group[0];
      NextGroup(BlockPlaces(keys), Flattened(groups[..m - 1]), groups[m - 2][0], group, group[0]);
    } else {
      assert Flattened(groups[..0]) == [] && [] + group == group;
    }
  }

  lemma {:induction false} FlattenedHolds(groups: seq<seq<nat>>, g: nat, x: nat)
    requires g < |groups| && x in groups[g]
    ensures x in Flattened(groups)
  {
    if g < |groups| - 1 { FlattenedHolds(groups[..|groups| - 1], g, x); }
  }

  lemma GroupsAreOrdering(keys: seq<string>, groups: seq<seq<nat>>, index: map<string, nat>)
    requires Grouped(keys, |keys|, groups, index)
    ensures IsOrdering(BlockPlaces(keys), Flattened(groups))
  {
    if groups != [] {
      GroupsInOrder(keys, groups, index, |groups|);
      assert groups[..|groups|] == groups;
    }
    forall i | 0 <= i < |keys| ensures i in Flattened(groups) {
      var g := index[keys[i]];
      assert IsGroup(keys, |keys|, groups[g][0], groups[g]);
      FlattenedHolds(groups, g, i);
    }
  }

  lemma BlocksEarlier(keys: seq<string>, i: nat, j: nat)
    requires i < j < |keys| && FirstOf(keys, keys[i]) <= FirstOf(keys, keys[j])
    ensures Earlier(BlockPlaces(keys), i, j)
  {}

  /** Where the positions are already grouped, in the order of first appearance, grouping changes nothing. */
  lemma GroupedStays(keys: seq<string>, order: seq<nat>)
    requires IsOrdering(BlockPlaces(keys), order)
    requires forall i, j :: 0 <= i < j < |keys| ==> FirstOf(keys, keys[i]) <= FirstOf(keys, keys[j])
    ensures order == Identity(|keys|)
  {
    forall i, j | 0 <= i < j < |keys| ensures Earlier(BlockPlaces(keys), i, j) {
      BlocksEarlier(keys, i, j);
    }
    OrderedStays(BlockPlaces(keys), order);
  }
}
