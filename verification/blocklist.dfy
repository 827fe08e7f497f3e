/**
 * The blocklist reconciler: given a user's persisted blocklist rows and
 * either a target tag list or nothing (account creation), compute the rows
 * to insert and the rows to delete. It performs no mutation; `ApplyPlan`
 * is what a caller does with the result.
 */
module Blocklist {
  import opened Wrappers
  import opened UserModel
  import Text

  /** The ids of a tag list, in order. */
  function TagIds(tags: seq<Tag>): (r: seq<int>)
    ensures |r| == |tags|
    ensures forall k :: 0 <= k < |tags| ==> r[k] == tags[k].id
  {
    seq(|tags|, k requires 0 <= k < |tags| => tags[k].id)
  }

  /** The tag ids of blocklist rows, in order. */
  function EntryIds(entries: seq<BlocklistEntry>): (r: seq<int>)
    ensures |r| == |entries|
    ensures forall k :: 0 <= k < |entries| ==> r[k] == entries[k].tagId
  {
    seq(|entries|, k requires 0 <= k < |entries| => entries[k].tagId)
  }

  /** New rows owned by `userId`, one per id, in order. */
  function EntriesFor(userId: Option<int>, ids: seq<int>): (r: seq<BlocklistEntry>)
    ensures |r| == |ids|
    ensures forall k :: 0 <= k < |ids| ==> r[k] == BlocklistEntry(userId, ids[k])
  {
    seq(|ids|, k requires 0 <= k < |ids| => BlocklistEntry(userId, ids[k]))
  }

  lemma EntryIdsOfEntriesFor(userId: Option<int>, ids: seq<int>)
    ensures EntryIds(EntriesFor(userId, ids)) == ids
  {
  }

  // Reference definitions of the plan. Each keeps the elements of a sequence
  // that pass a test, in their original order; they are defined on the last
  // element so that a left-to-right loop extends them one step at a time.

  /** The persisted rows whose tag is not in the target: the rows to delete. */
  function Stale(persisted: seq<BlocklistEntry>, targetIds: seq<int>): seq<BlocklistEntry>
    decreases |persisted|
  {
    if persisted == [] then []
    else
      var last := persisted[|persisted| - 1];
      Stale(persisted[..|persisted| - 1], targetIds) + (if last.tagId in targetIds then [] else [last])
  }

  /** The target ids that are not persisted: the tags to insert, repeats included. */
  function FreshIds(targetIds: seq<int>, persistedIds: seq<int>): seq<int>
    decreases |targetIds|
  {
    if targetIds == [] then []
    else
      var last := targetIds[|targetIds| - 1];
      FreshIds(targetIds[..|targetIds| - 1], persistedIds) + (if last in persistedIds then [] else [last])
  }

  /** The persisted ids whose tag is still in the target. */
  function KeptIds(ids: seq<int>, targetIds: seq<int>): seq<int>
    decreases |ids|
  {
    if ids == [] then []
    else
      var last := ids[|ids| - 1];
      KeptIds(ids[..|ids| - 1], targetIds) + (if last in targetIds then [last] else [])
  }

  /** The rows left once the rows in `removed` are deleted. */
  function Without(entries: seq<BlocklistEntry>, removed: seq<BlocklistEntry>): seq<BlocklistEntry>
    decreases |entries|
  {
    if entries == [] then []
    else
      var last := entries[|entries| - 1];
      Without(entries[..|entries| - 1], removed) + (if last in removed then [] else [last])
  }

  /** The rows to insert when no target is given: one per tag the configured default names resolve to. */
  function DefaultAdditions(userId: Option<int>, defaultTagBlocklist: Option<string>,
                            tagsByNames: seq<string> -> seq<Tag>): seq<BlocklistEntry>
  {
    if defaultTagBlocklist.None? then []
    else EntriesFor(userId, TagIds(tagsByNames(Text.Split(defaultTagBlocklist.value, ' '))))
  }

  /** What the caller does with a plan: delete the stale rows, then insert the new ones. */
  function ApplyPlan(persisted: seq<BlocklistEntry>, toAdd: seq<BlocklistEntry>,
                     toRemove: seq<BlocklistEntry>): seq<BlocklistEntry>
  {
    Without(persisted, toRemove) + toAdd
  }

  // Membership of the reference definitions.

  lemma {:induction false} StaleMembers(persisted: seq<BlocklistEntry>, targetIds: seq<int>)
    ensures forall e :: e in Stale(persisted, targetIds) <==> e in persisted && e.tagId !in targetIds
    decreases |persisted|
  {
    if persisted != [] {
      var init := persisted[..|persisted| - 1];
      StaleMembers(init, targetIds);
      assert persisted == init + [persisted[|persisted| - 1]];
    }
  }

  lemma {:induction false} FreshMembers(targetIds: seq<int>, persistedIds: seq<int>)
    ensures forall t :: t in FreshIds(targetIds, persistedIds) <==> t in targetIds && t !in persistedIds
    decreases |targetIds|
  {
    if targetIds != [] {
      var init := targetIds[..|targetIds| - 1];
      FreshMembers(init, persistedIds);
      assert targetIds == init + [targetIds[|targetIds| - 1]];
    }
  }

  lemma {:induction false} KeptMembers(ids: seq<int>, targetIds: seq<int>)
    ensures forall t :: t in KeptIds(ids, targetIds) <==> t in ids && t in targetIds
    decreases |ids|
  {
    if ids != [] {
      var init := ids[..|ids| - 1];
      KeptMembers(init, targetIds);
      assert ids == init + [ids[|ids| - 1]];
    }
  }

  lemma {:induction false} WithoutMembers(entries: seq<BlocklistEntry>, removed: seq<BlocklistEntry>)
    ensures forall e :: e in Without(entries, removed) <==> e in entries && e !in removed
    decreases |entries|
  {
    if entries != [] {
      var init := entries[..|entries| - 1];
      WithoutMembers(init, removed);
      assert entries == init + [entries[|entries| - 1]];
    }
  }

  /** The position of the first occurrence of `x`. */
  function FirstPos(xs: seq<int>, x: int): (k: nat)
    requires x in xs
    ensures k < |xs| && xs[k] == x && x !in xs[..k]
  {
    if xs[0] == x then 0
    else
      assert xs[1..][..FirstPos(xs[1..], x)] == xs[1..1 + FirstPos(xs[1..], x)];
      1 + FirstPos(xs[1..], x)
  }

  /**
   * Python's `list.remove`: drop the first occurrence of `x`; the elements
   * before it stay in place and those after it move up by one.
   */
  function RemoveFirst(xs: seq<int>, x: int): (r: seq<int>)
    requires x in xs
    ensures |r| == |xs| - 1
    ensures forall i :: 0 <= i < FirstPos(xs, x) ==> r[i] == xs[i]
    ensures forall i :: FirstPos(xs, x) <= i < |r| ==> r[i] == xs[i + 1]
    ensures multiset(r) == multiset(xs) - multiset{x}
  {
    var k := FirstPos(xs, x);
    assert xs == xs[..k] + [x] + xs[k + 1..];
    xs[..k] + xs[k + 1..]
  }

  /**
   * `update_user_blocklist`. With no target, the configured default tags
   * become additions and nothing is removed. With a target, the first loop
   * collects the persisted rows whose tag left the target, striking each
   * from a working copy of the persisted ids; the second adds every target
   * id missing from that working copy.
   */
  method ReconcileBlocklist(user: User, target: Option<seq<Tag>>, persisted: seq<BlocklistEntry>,
                            defaultTagBlocklist: Option<string>,
                            tagsByNames: seq<string> -> seq<Tag>)
    returns (toAdd: seq<BlocklistEntry>, toRemove: seq<BlocklistEntry>)
    ensures target.None? ==> toRemove == []
    ensures target.None? ==> toAdd == DefaultAdditions(user.id, defaultTagBlocklist, tagsByNames)
    ensures target.Some? ==> toRemove == Stale(persisted, TagIds(target.value))
    ensures target.Some? ==>
      toAdd == EntriesFor(user.id, FreshIds(TagIds(target.value), EntryIds(persisted)))
  {
    if target.None? {
      toRemove := [];
      if defaultTagBlocklist.Some? {
        toAdd := DefaultEntries(user.id, tagsByNames(Text.Split(defaultTagBlocklist.value, ' ')));
      } else {
        toAdd := [];
      }
    } else {
      var newIds := TagIds(target.value);
      var remaining;
      toRemove, remaining := CollectStale(persisted, newIds);
      var added := CollectAdditions(newIds, remaining);
      FreshIdsDependsOnMembership(newIds, remaining, EntryIds(persisted));
      toAdd := EntriesFor(user.id, added);
    }
  }

  /** One new row per tag, in order. */
  method DefaultEntries(userId: Option<int>, tags: seq<Tag>) returns (toAdd: seq<BlocklistEntry>)
    ensures |toAdd| == |tags|
    ensures forall k :: 0 <= k < |tags| ==> toAdd[k] == BlocklistEntry(userId, tags[k].id)
  {
    toAdd := [];
    for k := 0 to |tags|
      invariant |toAdd| == k
      invariant forall i :: 0 <= i < k ==> toAdd[i] == BlocklistEntry(userId, tags[i].id)
    {
      toAdd := toAdd + [BlocklistEntry(userId, tags[k].id)];
    }
  }

  /**
   * The removal loop: the rows whose tag is not in the target, in persisted
   * order, and the persisted ids left once each of them is struck out.
   */
  method CollectStale(persisted: seq<BlocklistEntry>, newIds: seq<int>)
    returns (toRemove: seq<BlocklistEntry>, previousIds: seq<int>)
    ensures toRemove == Stale(persisted, newIds)
    ensures forall t :: t in previousIds <==> t in EntryIds(persisted) && t in newIds
  {
    var original := EntryIds(persisted);
    previousIds := original;
    toRemove := [];
    for i := 0 to |original|
      invariant toRemove == Stale(persisted[..i], newIds)
      invariant multiset(previousIds) == multiset(KeptIds(original[..i], newIds)) + multiset(original[i..])
    {
      var oldId := original[i];
      StaleStep(persisted, newIds, i);
      InWorkingCopy(previousIds, original, newIds, i);
      ghost var before := previousIds;
      if oldId !in newIds {
        toRemove := toRemove + [persisted[i]];
        previousIds := RemoveFirst(previousIds, oldId);
      }
      StrikeStep(before, previousIds, original, newIds, i);
    }
    assert persisted[..|persisted|] == persisted;
    WorkingCopyAtEnd(previousIds, original, newIds);
  }

  /** The id the removal loop visits is still in the working copy. */
  lemma InWorkingCopy(before: seq<int>, original: seq<int>, targetIds: seq<int>, i: nat)
    requires i < |original|
    requires multiset(before) == multiset(KeptIds(original[..i], targetIds)) + multiset(original[i..])
    ensures original[i] in before
  {
    assert original[i..] == [original[i]] + original[i + 1..];
    assert original[i] in multiset(before);
  }

  /** Once every persisted id is visited, the working copy holds exactly the targeted ones. */
  lemma WorkingCopyAtEnd(remaining: seq<int>, original: seq<int>, targetIds: seq<int>)
    requires multiset(remaining) ==
      multiset(KeptIds(original[..|original|], targetIds)) + multiset(original[|original|..])
    ensures forall t :: t in remaining <==> t in original && t in targetIds
  {
    assert original[..|original|] == original;
    assert original[|original|..] == [];
    SameMultisetSameMembers(remaining, KeptIds(original, targetIds));
    KeptMembers(original, targetIds);
  }

  lemma StaleStep(persisted: seq<BlocklistEntry>, targetIds: seq<int>, i: nat)
    requires i < |persisted|
    ensures Stale(persisted[..i + 1], targetIds) ==
      Stale(persisted[..i], targetIds) + (if persisted[i].tagId in targetIds then [] else [persisted[i]])
  {
    assert persisted[..i + 1][..i] == persisted[..i];
  }

  lemma KeptStep(ids: seq<int>, targetIds: seq<int>, i: nat)
    requires i < |ids|
    ensures KeptIds(ids[..i + 1], targetIds) ==
      KeptIds(ids[..i], targetIds) + (if ids[i] in targetIds then [ids[i]] else [])
  {
    assert ids[..i + 1][..i] == ids[..i];
  }

  /** One turn of the removal loop keeps the working copy equal to the kept prefix plus the unvisited suffix. */
  lemma StrikeStep(before: seq<int>, after: seq<int>, original: seq<int>, targetIds: seq<int>, i: nat)
    requires i < |original|
    requires multiset(before) == multiset(KeptIds(original[..i], targetIds)) + multiset(original[i..])
    requires original[i] in targetIds ==> after == before
    requires original[i] !in targetIds ==> multiset(after) == multiset(before) - multiset{original[i]}
    ensures multiset(after) == multiset(KeptIds(original[..i + 1], targetIds)) + multiset(original[i + 1..])
  {
    var x := original[i];
    var k := multiset(KeptIds(original[..i], targetIds));
    var rest := multiset(original[i + 1..]);
    KeptStep(original, targetIds, i);
    assert original[i..] == [x] + original[i + 1..];
    assert multiset(original[i..]) == multiset{x} + rest;
    assert multiset(before) == k + multiset{x} + rest;
    if x in targetIds {
      assert multiset(KeptIds(original[..i + 1], targetIds)) == k + multiset{x};
    } else {
      assert KeptIds(original[..i + 1], targetIds) == KeptIds(original[..i], targetIds);
      assert multiset(after) == k + rest;
    }
  }

  lemma SameMultisetSameMembers(a: seq<int>, b: seq<int>)
    requires multiset(a) == multiset(b)
    ensures forall t :: t in a <==> t in b
  {
    forall t
      ensures t in a <==> t in b
    {
      assert t in a <==> t in multiset(a);
      assert t in b <==> t in multiset(b);
    }
  }

  /** The addition loop: every target id missing from `previousIds`, repeats included. */
  method CollectAdditions(newIds: seq<int>, previousIds: seq<int>) returns (added: seq<int>)
    ensures forall t :: t in added ==> t in newIds && t !in previousIds
    ensures forall t :: t !in previousIds ==> multiset(added)[t] == multiset(newIds)[t]
    ensures |added| <= |newIds|
    ensures added == FreshIds(newIds, previousIds)
  {
    added := [];
    for j := 0 to |newIds|
      invariant added == FreshIds(newIds[..j], previousIds)
    {
      assert newIds[..j + 1][..j] == newIds[..j];
      if newIds[j] !in previousIds {
        added := added + [newIds[j]];
      }
    }
    assert newIds[..|newIds|] == newIds;
    FreshMembers(newIds, previousIds);
    FreshLength(newIds, previousIds);
    forall t | t !in previousIds
      ensures multiset(added)[t] == multiset(newIds)[t]
    {
      AdditionMultiplicity(newIds, previousIds, t);
    }
  }

  lemma {:induction false} FreshLength(targetIds: seq<int>, persistedIds: seq<int>)
    ensures |FreshIds(targetIds, persistedIds)| <= |targetIds|
    decreases |targetIds|
  {
    if targetIds != [] {
      FreshLength(targetIds[..|targetIds| - 1], persistedIds);
    }
  }

  /** The additions depend only on which target ids are persisted. */
  lemma {:induction false} FreshIdsDependsOnMembership(targetIds: seq<int>, a: seq<int>, b: seq<int>)
    requires forall t :: t in targetIds ==> (t in a <==> t in b)
    ensures FreshIds(targetIds, a) == FreshIds(targetIds, b)
    decreases |targetIds|
  {
    if targetIds != [] {
      var init := targetIds[..|targetIds| - 1];
      assert forall t :: t in init ==> t in targetIds;
      FreshIdsDependsOnMembership(init, a, b);
    }
  }

  /**
   * The round trip: deleting the stale rows and inserting the new ones
   * leaves a blocklist whose set of tags is exactly the target's.
   */
  lemma RoundTrip(userId: Option<int>, persisted: seq<BlocklistEntry>, targetIds: seq<int>)
    ensures var after := ApplyPlan(persisted, EntriesFor(userId, FreshIds(targetIds, EntryIds(persisted))),
                                   Stale(persisted, targetIds));
      forall t :: t in EntryIds(after) <==> t in targetIds
  {
    var toRemove := Stale(persisted, targetIds);
    var added := FreshIds(targetIds, EntryIds(persisted));
    var kept := Without(persisted, toRemove);
    var after := kept + EntriesFor(userId, added);
    StaleMembers(persisted, targetIds);
    WithoutMembers(persisted, toRemove);
    FreshMembers(targetIds, EntryIds(persisted));
    EntryIdsOfEntriesFor(userId, added);
    assert EntryIds(after) == EntryIds(kept) + added;
    forall t
      ensures t in EntryIds(after) <==> t in targetIds
    {
      if t in EntryIds(kept) {
        var k :| 0 <= k < |kept| && EntryIds(kept)[k] == t;
        assert kept[k] in kept;
      }
      if t in targetIds && t in EntryIds(persisted) {
        var k :| 0 <= k < |persisted| && EntryIds(persisted)[k] == t;
        assert persisted[k] in kept;
        assert EntryIds(kept)[IndexIn(kept, persisted[k])] == t;
      }
    }
  }

  /** A position of `e` in `s`. */
  function IndexIn(s: seq<BlocklistEntry>, e: BlocklistEntry): (k: nat)
    requires e in s
    ensures k < |s| && s[k] == e
  {
    if s[0] == e then 0 else 1 + IndexIn(s[1..], e)
  }

  /**
   * Repeats in the target are not collapsed: an id that is not persisted is
   * added as many times as the target lists it, and a persisted id never.
   */
  lemma {:induction false} AdditionMultiplicity(targetIds: seq<int>, persistedIds: seq<int>, t: int)
    ensures multiset(FreshIds(targetIds, persistedIds))[t] ==
            (if t in persistedIds then 0 else multiset(targetIds)[t])
    decreases |targetIds|
  {
    if targetIds != [] {
      var init := targetIds[..|targetIds| - 1];
      AdditionMultiplicity(init, persistedIds, t);
      assert targetIds == init + [targetIds[|targetIds| - 1]];
    }
  }

  /** No two rows carry the same tag. */
  predicate Distinct(ids: seq<int>)
  {
    forall i, j :: 0 <= i < j < |ids| ==> ids[i] != ids[j]
  }

  lemma {:induction false} WithoutKeepsDistinct(entries: seq<BlocklistEntry>, removed: seq<BlocklistEntry>)
    requires Distinct(EntryIds(entries))
    ensures Distinct(EntryIds(Without(entries, removed)))
    decreases |entries|
  {
    if entries != [] {
      var init := entries[..|entries| - 1];
      var last := entries[|entries| - 1];
      assert EntryIds(init) == EntryIds(entries)[..|entries| - 1];
      WithoutKeepsDistinct(init, removed);
      var w := Without(init, removed);
      WithoutMembers(init, removed);
      if last !in removed {
        forall k | 0 <= k < |w|
          ensures EntryIds(w)[k] != last.tagId
        {
          assert w[k] in init;
          var i := IndexIn(init, w[k]);
          assert EntryIds(entries)[i] == w[k].tagId;
          assert EntryIds(entries)[|entries| - 1] == last.tagId;
        }
        assert EntryIds(w + [last]) == EntryIds(w) + [last.tagId];
      }
    }
  }

  lemma {:induction false} FreshKeepsDistinct(targetIds: seq<int>, persistedIds: seq<int>)
    requires Distinct(targetIds)
    ensures Distinct(FreshIds(targetIds, persistedIds))
    decreases |targetIds|
  {
    if targetIds != [] {
      var init := targetIds[..|targetIds| - 1];
      var last := targetIds[|targetIds| - 1];
      FreshKeepsDistinct(init, persistedIds);
      FreshMembers(init, persistedIds);
      assert last !in init;
    }
  }

  /**
   * Reconciling keeps the one-row-per-tag invariant: from a duplicate-free
   * blocklist and a duplicate-free target, the applied plan is duplicate-free
   * and has exactly one row per target tag.
   */
  lemma ReconcileKeepsRowsUnique(userId: Option<int>, persisted: seq<BlocklistEntry>, targetIds: seq<int>)
    requires Distinct(EntryIds(persisted))
    requires Distinct(targetIds)
    ensures var after := ApplyPlan(persisted, EntriesFor(userId, FreshIds(targetIds, EntryIds(persisted))),
                                   Stale(persisted, targetIds));
      Distinct(EntryIds(after)) && |after| == |targetIds|
  {
    var toRemove := Stale(persisted, targetIds);
    var added := FreshIds(targetIds, EntryIds(persisted));
    var kept := Without(persisted, toRemove);
    var after := kept + EntriesFor(userId, added);
    WithoutKeepsDistinct(persisted, toRemove);
    FreshKeepsDistinct(targetIds, EntryIds(persisted));
    FreshMembers(targetIds, EntryIds(persisted));
    WithoutMembers(persisted, toRemove);
    EntryIdsOfEntriesFor(userId, added);
    var ids := EntryIds(after);
    assert ids == EntryIds(kept) + added;
    forall i, j | 0 <= i < j < |ids|
      ensures ids[i] != ids[j]
    {
      if i < |kept| && j >= |kept| {
        assert kept[i] in persisted;
        var p := IndexIn(persisted, kept[i]);
        assert EntryIds(persisted)[p] == ids[i];
        assert ids[j] == added[j - |kept|] && added[j - |kept|] in added;
      }
    }
    RoundTrip(userId, persisted, targetIds);
    DistinctSameSetSameSize(ids, targetIds);
  }

  /** Two duplicate-free sequences with the same members have the same length. */
  lemma DistinctSameSetSameSize(a: seq<int>, b: seq<int>)
    requires Distinct(a) && Distinct(b)
    requires forall t :: t in a <==> t in b
    ensures |a| == |b|
  {
    DistinctSetSize(a);
    DistinctSetSize(b);
    assert (set t | t in a) == (set t | t in b);
  }

  lemma {:induction false} DistinctSetSize(a: seq<int>)
    requires Distinct(a)
    ensures |set t | t in a| == |a|
    decreases |a|
  {
    if a != [] {
      var init := a[..|a| - 1];
      DistinctSetSize(init);
      assert (set t | t in a) == (set t | t in init) + {a[|a| - 1]};
      assert a[|a| - 1] !in init;
    }
  }

  /**
   * The worked case: persisted tags 1, 2, 3 against target 2, 4 delete the
   * rows for 1 and 3 and insert 4; an explicit empty target against an
   * empty blocklist changes nothing.
   */
  lemma WorkedExamples(u: Option<int>)
    ensures Stale([BlocklistEntry(u, 1), BlocklistEntry(u, 2), BlocklistEntry(u, 3)], [2, 4])
            == [BlocklistEntry(u, 1), BlocklistEntry(u, 3)]
    ensures FreshIds([2, 4], [1, 2, 3]) == [4]
    ensures Stale([], []) == [] && FreshIds([], []) == []
  {
    var p := [BlocklistEntry(u, 1), BlocklistEntry(u, 2), BlocklistEntry(u, 3)];
    assert p[..2] == [BlocklistEntry(u, 1), BlocklistEntry(u, 2)];
    assert p[..2][..1] == [BlocklistEntry(u, 1)];
    assert [BlocklistEntry(u, 1)][..0] == [];
    assert Stale([BlocklistEntry(u, 1)], [2, 4]) == [BlocklistEntry(u, 1)];
    assert Stale(p[..2], [2, 4]) == [BlocklistEntry(u, 1)];
    assert [2, 4][..1] == [2];
  }
}
