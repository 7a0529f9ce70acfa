/** The list transforms the handlers apply to the card list: `findIndex` by
    id, the `map` of an update, and the `filter` on ids shared by delete and
    by the import and sample merges. */
module Collection {
  import opened Cards

  /** `new Set(cards.map(card => card.id))`: every card's id is in it, and
      nothing else is. */
  function IdSet(cs: seq<Card>): (ids: set<int>)
    ensures forall i :: 0 <= i < |cs| ==> cs[i].id in ids
    ensures forall id :: id in ids ==> exists i :: 0 <= i < |cs| && cs[i].id == id
  {
    set i | 0 <= i < |cs| :: cs[i].id
  }

  /** The id set has at most one entry per card, and exactly one per card
      when the ids are distinct. */
  lemma {:induction false} IdSetSize(cs: seq<Card>)
    ensures |IdSet(cs)| <= |cs|
    ensures DistinctIds(cs) ==> |IdSet(cs)| == |cs|
  {
    if cs != [] {
      var tail := cs[1..];
      IdSetSize(tail);
      assert IdSet(cs) == IdSet(tail) + {cs[0].id} by {
        forall id | id in IdSet(cs) ensures id in IdSet(tail) + {cs[0].id} {
          var i :| 0 <= i < |cs| && cs[i].id == id;
          if i > 0 { assert tail[i - 1] == cs[i]; }
        }
        forall id | id in IdSet(tail) ensures id in IdSet(cs) {
          var i :| 0 <= i < |tail| && tail[i].id == id;
          assert cs[i + 1] == tail[i];
        }
      }
      if DistinctIds(cs) {
        DistinctTail(cs);
      }
    }
  }

  /** `cards.findIndex(card => card.id === id)`: the first position holding
      `id`, or -1 when no card has it. */
  function FindIndex(cs: seq<Card>, id: int): (k: int)
    ensures -1 <= k < |cs|
    ensures k >= 0 ==> cs[k].id == id
    ensures forall j :: 0 <= j < |cs| && (k < 0 || j < k) ==> cs[j].id != id
  {
    if cs == [] then -1
    else if cs[0].id == id then 0
    else
      var k := FindIndex(cs[1..], id);
      if k < 0 then -1 else k + 1
  }

  /** FindIndex finds something exactly when the id is in the id set. */
  lemma FindIndexFindsIds(cs: seq<Card>, id: int)
    ensures FindIndex(cs, id) >= 0 <==> id in IdSet(cs)
  {
    if id in IdSet(cs) {
      var i :| 0 <= i < |cs| && cs[i].id == id;
    }
  }

  /** `cards.map(card => card.id === id ? card2 : card)`: the same positions,
      every card with that id replaced by `card2`, every other card kept. */
  function ReplaceById(cs: seq<Card>, id: int, card2: Card): (r: seq<Card>)
    ensures |r| == |cs|
    ensures forall i :: 0 <= i < |cs| ==> r[i] == (if cs[i].id == id then card2 else cs[i])
  {
    if cs == [] then []
    else [if cs[0].id == id then card2 else cs[0]] + ReplaceById(cs[1..], id, card2)
  }

  /** Replacing by a card that keeps the id leaves the id set as it was, and
      keeps the ids distinct when they were. */
  lemma ReplaceKeepsIds(cs: seq<Card>, id: int, card2: Card)
    requires card2.id == id
    ensures IdSet(ReplaceById(cs, id, card2)) == IdSet(cs)
    ensures DistinctIds(cs) ==> DistinctIds(ReplaceById(cs, id, card2))
  {
    var r := ReplaceById(cs, id, card2);
    assert forall i :: 0 <= i < |cs| ==> r[i].id == cs[i].id;
    assert IdSet(r) == IdSet(cs);
  }

  /** `cs.filter(card => !ids.has(card.id))`: the cards whose id is not in
      `ids`, each with the multiplicity it had, in their original order. */
  function WithoutIds(cs: seq<Card>, ids: set<int>): (r: seq<Card>)
    ensures |r| <= |cs|
    ensures forall c :: multiset(r)[c] == if c.id in ids then 0 else multiset(cs)[c]
    ensures (forall i :: 0 <= i < |cs| ==> cs[i].id !in ids) ==> r == cs
    ensures (forall i :: 0 <= i < |cs| ==> cs[i].id in ids) ==> r == []
  {
    if cs == [] then []
    else
      var rest := WithoutIds(cs[1..], ids);
      assert cs == [cs[0]] + cs[1..];
      if cs[0].id in ids then rest else [cs[0]] + rest
  }

  /** A filter commutes with concatenation, so it keeps the relative order
      of what it keeps. */
  lemma {:induction false} WithoutIdsAppend(a: seq<Card>, b: seq<Card>, ids: set<int>)
    ensures WithoutIds(a + b, ids) == WithoutIds(a, ids) + WithoutIds(b, ids)
  {
    if a == [] {
      assert a + b == b;
    } else {
      assert (a + b)[1..] == a[1..] + b;
      WithoutIdsAppend(a[1..], b, ids);
    }
  }

  /** What the filter keeps has none of the dropped ids; everything else
      survives. */
  lemma WithoutIdsIdSet(cs: seq<Card>, ids: set<int>)
    ensures IdSet(WithoutIds(cs, ids)) == IdSet(cs) - ids
  {
    var r := WithoutIds(cs, ids);
    forall id | id in IdSet(r) ensures id in IdSet(cs) - ids {
      var i :| 0 <= i < |r| && r[i].id == id;
      assert multiset(r)[r[i]] > 0;
    }
    forall id | id in IdSet(cs) - ids ensures id in IdSet(r) {
      var i :| 0 <= i < |cs| && cs[i].id == id;
      assert multiset(cs)[cs[i]] > 0;
      assert multiset(r)[cs[i]] > 0;
      assert cs[i] in r;
    }
  }

  /** A sub-filter of a list with distinct ids keeps them distinct. */
  lemma {:induction false} WithoutIdsDistinct(cs: seq<Card>, ids: set<int>)
    requires DistinctIds(cs)
    ensures DistinctIds(WithoutIds(cs, ids))
  {
    if cs != [] {
      DistinctTail(cs);
      WithoutIdsDistinct(cs[1..], ids);
      WithoutIdsIdSet(cs[1..], ids);
    }
  }

  /** The tail of a list with distinct ids has distinct ids and lacks the
      head's id. */
  lemma DistinctTail(cs: seq<Card>)
    requires cs != [] && DistinctIds(cs)
    ensures DistinctIds(cs[1..])
    ensures cs[0].id !in IdSet(cs[1..])
  {
    var tail := cs[1..];
    forall i, j | 0 <= i < j < |tail| ensures tail[i].id != tail[j].id {
      assert tail[i] == cs[i + 1] && tail[j] == cs[j + 1];
    }
    forall i | 0 <= i < |tail| ensures tail[i].id != cs[0].id {
      assert tail[i] == cs[i + 1];
    }
  }

  /** Deleting an id that exactly one card holds shortens the list by one:
      with distinct ids, the confirmed delete removes exactly one card. */
  lemma {:induction false} RemoveUniqueShrinksByOne(cs: seq<Card>, id: int)
    requires DistinctIds(cs) && id in IdSet(cs)
    ensures |WithoutIds(cs, {id})| == |cs| - 1
  {
    DistinctTail(cs);
    var tail := cs[1..];
    var rest := WithoutIds(tail, {id});
    if cs[0].id != id {
      var k :| 0 <= k < |cs| && cs[k].id == id;
      assert tail[k - 1] == cs[k];
      RemoveUniqueShrinksByOne(tail, id);
      assert WithoutIds(cs, {id}) == [cs[0]] + rest;
    } else {
      assert forall i :: 0 <= i < |tail| ==> tail[i].id !in {id};
      assert rest == tail;
      assert WithoutIds(cs, {id}) == rest;
    }
  }

  // ------------------------------------------------------------------------
  // Merge by id (importCards, generateSampleCards)

  /** `[...cards, ...incoming.filter(card => !existingIds.has(card.id))]`
      with `existingIds` built from `cards` alone. */
  function MergeById(cs: seq<Card>, incoming: seq<Card>): (r: seq<Card>)
    ensures |cs| <= |r| <= |cs| + |incoming|
    ensures r[..|cs|] == cs
  {
    cs + WithoutIds(incoming, IdSet(cs))
  }

  /** The id set of a concatenation is the union of the two id sets. */
  lemma IdSetAppend(a: seq<Card>, b: seq<Card>)
    ensures IdSet(a + b) == IdSet(a) + IdSet(b)
  {
    var r := a + b;
    forall id | id in IdSet(r) ensures id in IdSet(a) + IdSet(b) {
      var i :| 0 <= i < |r| && r[i].id == id;
      if i >= |a| { assert b[i - |a|] == r[i]; } else { assert a[i] == r[i]; }
    }
    forall id | id in IdSet(b) ensures id in IdSet(r) {
      var i :| 0 <= i < |b| && b[i].id == id;
      assert r[|a| + i] == b[i];
    }
    forall id | id in IdSet(a) ensures id in IdSet(r) {
      var i :| 0 <= i < |a| && a[i].id == id;
      assert r[i] == a[i];
    }
  }

  /** After a merge every incoming id is present, and no other new id. */
  lemma MergeIdSet(cs: seq<Card>, incoming: seq<Card>)
    ensures IdSet(MergeById(cs, incoming)) == IdSet(cs) + IdSet(incoming)
  {
    WithoutIdsIdSet(incoming, IdSet(cs));
    IdSetAppend(cs, WithoutIds(incoming, IdSet(cs)));
  }

  /** Importing the current list again adds nothing. */
  lemma ReimportAddsNothing(cs: seq<Card>)
    ensures WithoutIds(cs, IdSet(cs)) == []
    ensures MergeById(cs, cs) == cs
  {
    assert forall i :: 0 <= i < |cs| ==> cs[i].id in IdSet(cs);
  }

  /** Importing the same document twice is the same as importing it once. */
  lemma MergeIdempotent(cs: seq<Card>, incoming: seq<Card>)
    ensures MergeById(MergeById(cs, incoming), incoming) == MergeById(cs, incoming)
  {
    var once := MergeById(cs, incoming);
    MergeIdSet(cs, incoming);
    assert forall i :: 0 <= i < |incoming| ==> incoming[i].id in IdSet(once);
  }

  /** A merge keeps ids distinct when both the list and the incoming
      document have distinct ids. */
  lemma MergeKeepsDistinct(cs: seq<Card>, incoming: seq<Card>)
    requires DistinctIds(cs) && DistinctIds(incoming)
    ensures DistinctIds(MergeById(cs, incoming))
  {
    var added := WithoutIds(incoming, IdSet(cs));
    WithoutIdsDistinct(incoming, IdSet(cs));
    WithoutIdsIdSet(incoming, IdSet(cs));
    var r := cs + added;
    forall i, j | 0 <= i < j < |r| ensures r[i].id != r[j].id {
      if i < |cs| && j >= |cs| {
        assert added[j - |cs|].id in IdSet(added);
        assert r[i].id in IdSet(cs);
      }
    }
  }

  /** The existing-id set is built from the current list only, so two
      incoming records sharing an id that the list lacks both get through,
      and the result has a duplicate id; when the list already holds that
      id, both are dropped. */
  lemma MergeKeepsIncomingDuplicates(cs: seq<Card>, c1: Card, c2: Card)
    requires c1.id == c2.id
    ensures c1.id !in IdSet(cs) ==> MergeById(cs, [c1, c2]) == cs + [c1, c2]
    ensures c1.id !in IdSet(cs) ==> !DistinctIds(MergeById(cs, [c1, c2]))
    ensures c1.id in IdSet(cs) ==> MergeById(cs, [c1, c2]) == cs
  {
    assert [c1, c2][1..] == [c2];
    if c1.id !in IdSet(cs) {
      var r := MergeById(cs, [c1, c2]);
      assert r[|cs|] == c1 && r[|cs| + 1] == c2;
    }
  }

  /** Sample generation on a list holding none of the twenty sample ids adds
      all twenty, in their order. */
  lemma FreshSamplesAllAdded(cs: seq<Card>, clock: seq<int>, stamps: seq<string>)
    requires |clock| == 20 && |stamps| == 20
    requires forall i :: 0 <= i < 20 ==> clock[i] + i + 1 !in IdSet(cs)
    ensures MergeById(cs, SampleCards(clock, stamps)) == cs + SampleCards(clock, stamps)
    ensures |MergeById(cs, SampleCards(clock, stamps))| == |cs| + 20
  {
    var samples := SampleCards(clock, stamps);
    forall i | 0 <= i < |samples| ensures samples[i].id !in IdSet(cs) {
      assert samples[i].id == clock[i] + i + 1;
    }
    assert WithoutIds(samples, IdSet(cs)) == samples;
  }
}
