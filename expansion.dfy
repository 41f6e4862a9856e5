/** Sub-technique expansion: every entry with a subtechniqueID gets a copy,
    keyed by that subtechniqueID and coloured from its STIDs count; the
    copies are appended after all the original entries. */
module Expansion {
  import opened Techniques
  import opened Colouring

  /** Every entry with a truthy subtechniqueID has a positive STIDs count. */
  predicate HasSubtechniqueCounts(ts: seq<Technique>) {
    forall i :: 0 <= i < |ts| && Truthy(ts[i].subtechniqueID) ==>
      ts[i].stids.Some? && ts[i].stids.value >= 1
  }

  /** The shallow copy made for an entry with a subtechniqueID. */
  function SubtechniqueCopy(t: Technique): (c: Technique)
    requires t.stids.Some? && t.stids.value >= 1
    ensures c.techniqueID == t.subtechniqueID
    ensures c.color == Some(Colour(t.stids.value))
    ensures c.(techniqueID := t.techniqueID, color := t.color) == t
  {
    t.(techniqueID := t.subtechniqueID, color := Some(Colour(t.stids.value)))
  }

  /** The copies, in the order of the entries they come from. */
  function SubtechniqueCopies(ts: seq<Technique>): (r: seq<Technique>)
    requires HasSubtechniqueCounts(ts)
    ensures |r| <= |ts|
    ensures forall k :: 0 <= k < |r| ==> Truthy(r[k].techniqueID)
  {
    if ts == [] then []
    else
      var last := ts[|ts| - 1];
      SubtechniqueCopies(ts[..|ts| - 1]) +
        (if Truthy(last.subtechniqueID) then [SubtechniqueCopy(last)] else [])
  }

  /** The positions of the entries with a truthy subtechniqueID, ascending. */
  function SubtechniqueIndices(ts: seq<Technique>): seq<nat>
  {
    if ts == [] then []
    else
      SubtechniqueIndices(ts[..|ts| - 1]) +
        (if Truthy(ts[|ts| - 1].subtechniqueID) then [|ts| - 1] else [])
  }

  /** The k-th copy is the copy of the k-th entry that has a subtechniqueID:
      one copy per such entry, in their order, and none for the others. */
  lemma {:induction false} CopiesInOrder(ts: seq<Technique>)
    requires HasSubtechniqueCounts(ts)
    ensures |SubtechniqueCopies(ts)| == |SubtechniqueIndices(ts)|
    ensures forall k :: 0 <= k < |SubtechniqueIndices(ts)| ==>
      SubtechniqueIndices(ts)[k] < |ts| &&
      Truthy(ts[SubtechniqueIndices(ts)[k]].subtechniqueID) &&
      SubtechniqueCopies(ts)[k] == SubtechniqueCopy(ts[SubtechniqueIndices(ts)[k]])
    ensures forall k, l :: 0 <= k < l < |SubtechniqueIndices(ts)| ==>
      SubtechniqueIndices(ts)[k] < SubtechniqueIndices(ts)[l]
    ensures forall i :: 0 <= i < |ts| && Truthy(ts[i].subtechniqueID) ==> i in SubtechniqueIndices(ts)
  {
    if ts != [] {
      var init := ts[..|ts| - 1];
      CopiesInOrder(init);
      forall k | 0 <= k < |SubtechniqueIndices(init)|
        ensures ts[SubtechniqueIndices(init)[k]] == init[SubtechniqueIndices(init)[k]]
      {
      }
    }
  }

  /** The list walked by the dedup loop: the coloured entries, then the copies. */
  function Expanded(ts: seq<Technique>): (r: seq<Technique>)
    requires HasSubtechniqueCounts(ts)
    ensures |ts| <= |r| <= 2 * |ts|
    ensures r[..|ts|] == ts
  {
    ts + SubtechniqueCopies(ts)
  }

  /** Every techniqueID of the copies is the truthy subtechniqueID of an entry. */
  lemma {:induction false} CopyIDs(ts: seq<Technique>)
    requires HasSubtechniqueCounts(ts)
    ensures forall x :: x in TechniqueIDs(SubtechniqueCopies(ts)) <==>
      exists i :: 0 <= i < |ts| && Truthy(ts[i].subtechniqueID) && ts[i].subtechniqueID == x
  {
    CopiesInOrder(ts);
    var cs, idx := SubtechniqueCopies(ts), SubtechniqueIndices(ts);
    forall x | x in TechniqueIDs(cs)
      ensures exists i :: 0 <= i < |ts| && Truthy(ts[i].subtechniqueID) && ts[i].subtechniqueID == x
    {
      var k :| 0 <= k < |cs| && TechniqueIDs(cs)[k] == x;
      assert ts[idx[k]].subtechniqueID == x;
    }
    forall x | exists i :: 0 <= i < |ts| && Truthy(ts[i].subtechniqueID) && ts[i].subtechniqueID == x
      ensures x in TechniqueIDs(cs)
    {
      var i :| 0 <= i < |ts| && Truthy(ts[i].subtechniqueID) && ts[i].subtechniqueID == x;
      var k :| 0 <= k < |idx| && idx[k] == i;
      assert TechniqueIDs(cs)[k] == x;
    }
  }

  /** The expansion loops of main: collect the copies, then append each. */
  method ExpandSubtechniques(all: seq<Technique>) returns (r: seq<Technique>)
    requires HasSubtechniqueCounts(all)
    ensures r == Expanded(all)
    ensures r[..|all|] == all
    ensures r[|all|..] == SubtechniqueCopies(all)
  {
    var stidTechniques := [];
    for i := 0 to |all|
      invariant stidTechniques == SubtechniqueCopies(all[..i])
    {
      assert all[..i + 1][..i] == all[..i];
      var technique := all[i];
      if Truthy(technique.subtechniqueID) {
        var stidTechnique := SubtechniqueCopy(technique);
        stidTechniques := stidTechniques + [stidTechnique];
      }
    }
    assert all[..|all|] == all;
    r := all;
    for j := 0 to |stidTechniques|
      invariant r == all + stidTechniques[..j]
    {
      assert stidTechniques[..j + 1] == stidTechniques[..j] + [stidTechniques[j]];
      r := r + [stidTechniques[j]];
    }
    assert stidTechniques[..|stidTechniques|] == stidTechniques;
  }
}
