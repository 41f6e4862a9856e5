/** Frequency counting: every entry gets the number of entries sharing its
    techniqueID (TIDs) and the number sharing its subtechniqueID (STIDs).
    Entries without the key are not grouped and get no count. */
module Counting {
  import opened Techniques

  /** Number of positions of `ids` holding `id`. */
  function Occurrences(ids: seq<Option<string>>, id: Option<string>): nat
  {
    if ids == [] then 0
    else Occurrences(ids[..|ids| - 1], id) + (if ids[|ids| - 1] == id then 1 else 0)
  }

  /** The count one groupby-count gives an entry whose key is `id`. */
  function CountOf(ids: seq<Option<string>>, id: Option<string>): Option<nat>
  {
    if id.None? then None else Some(Occurrences(ids, id))
  }

  /** Occurrences agrees with the multiplicity in the multiset of the column. */
  lemma {:induction false} OccurrencesIsMultiplicity(ids: seq<Option<string>>, id: Option<string>)
    ensures Occurrences(ids, id) == multiset(ids)[id]
  {
    if ids != [] {
      var init := ids[..|ids| - 1];
      assert ids == init + [ids[|ids| - 1]];
      OccurrencesIsMultiplicity(init, id);
    }
  }

  /** A value that occurs in the column is counted at least once. */
  lemma {:induction false} OccurrencesPositive(ids: seq<Option<string>>, i: nat)
    requires i < |ids|
    ensures Occurrences(ids, ids[i]) >= 1
  {
    var init := ids[..|ids| - 1];
    if i < |ids| - 1 {
      OccurrencesPositive(init, i);
    }
  }

  /** The entries annotated with their two counts, all other keys unchanged. */
  function Counted(ts: seq<Technique>): (r: seq<Technique>)
    ensures |r| == |ts|
  {
    var tidColumn := TechniqueIDs(ts);
    var stidColumn := SubtechniqueIDs(ts);
    seq(|ts|, i requires 0 <= i < |ts| =>
      ts[i].(tids := CountOf(tidColumn, ts[i].techniqueID),
             stids := CountOf(stidColumn, ts[i].subtechniqueID)))
  }

  /** Every entry with a techniqueID has a TIDs count equal to the number of
      entries with that techniqueID, hence at least 1; the same for the
      subtechniqueID and STIDs. Nothing else changes. */
  lemma CountedCounts(ts: seq<Technique>, i: nat)
    requires i < |ts|
    ensures Counted(ts)[i].(tids := ts[i].tids, stids := ts[i].stids) == ts[i]
    ensures ts[i].techniqueID.None? ==> Counted(ts)[i].tids.None?
    ensures ts[i].techniqueID.Some? ==>
      Counted(ts)[i].tids == Some(multiset(TechniqueIDs(ts))[ts[i].techniqueID]) &&
      Counted(ts)[i].tids.value >= 1
    ensures ts[i].subtechniqueID.None? ==> Counted(ts)[i].stids.None?
    ensures ts[i].subtechniqueID.Some? ==>
      Counted(ts)[i].stids == Some(multiset(SubtechniqueIDs(ts))[ts[i].subtechniqueID]) &&
      Counted(ts)[i].stids.value >= 1
  {
    OccurrencesIsMultiplicity(TechniqueIDs(ts), ts[i].techniqueID);
    OccurrencesIsMultiplicity(SubtechniqueIDs(ts), ts[i].subtechniqueID);
    OccurrencesPositive(TechniqueIDs(ts), i);
    OccurrencesPositive(SubtechniqueIDs(ts), i);
  }

  /** Count of `x` in a frequency map, 0 when absent. */
  function Lookup(m: map<string, nat>, x: string): nat {
    if x in m then m[x] else 0
  }

  /** One pass over a column building the frequency of every present value. */
  method Frequencies(ids: seq<Option<string>>) returns (m: map<string, nat>)
    ensures forall x :: Lookup(m, x) == Occurrences(ids, Some(x))
    ensures forall x :: x in m <==> Some(x) in ids
  {
    m := map[];
    for i := 0 to |ids|
      invariant forall x :: Lookup(m, x) == Occurrences(ids[..i], Some(x))
      invariant forall x :: x in m <==> Some(x) in ids[..i]
    {
      assert ids[..i + 1][..i] == ids[..i];
      assert ids[..i + 1] == ids[..i] + [ids[i]];
      match ids[i] {
        case Some(x) => m := m[x := Lookup(m, x) + 1];
        case None =>
      }
    }
    assert ids[..|ids|] == ids;
  }

  /** The two groupby-count passes over the entries. */
  method AddCounts(ts: seq<Technique>) returns (r: seq<Technique>)
    ensures r == Counted(ts)
  {
    var tidCounts := Frequencies(TechniqueIDs(ts));
    var stidCounts := Frequencies(SubtechniqueIDs(ts));
    r := [];
    for i := 0 to |ts|
      invariant |r| == i
      invariant forall k :: 0 <= k < i ==> r[k] == Counted(ts)[k]
    {
      var t := ts[i];
      var tidCount := if t.techniqueID.Some? then Some(Lookup(tidCounts, t.techniqueID.value)) else None;
      var stidCount := if t.subtechniqueID.Some? then Some(Lookup(stidCounts, t.subtechniqueID.value)) else None;
      r := r + [t.(tids := tidCount, stids := stidCount)];
    }
  }
}
