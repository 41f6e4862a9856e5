/** Colour bucketing: a count selects one of five fixed colours, and every
    count of five or more selects the darkest. */
module Colouring {
  import opened Techniques

  /** The color_choice table of main. */
  const ColorChoice: map<nat, string> :=
    map[1 := "#e6c8ff", 2 := "#bc99d9", 3 := "#926db5", 4 := "#6a4391", 5 := "#41196f"]

  /** The colour of a count: color_choice[5] from five on, else
      color_choice[count]. A count of 0 is not a key of the table. */
  function Colour(count: nat): (c: string)
    requires count >= 1
    ensures 1 <= count <= 4 ==> c == ColorChoice[count]
    ensures count >= 5 ==> c == "#41196f"
  {
    if count >= 5 then ColorChoice[5] else ColorChoice[count]
  }

  /** The lookup is total on positive counts, always one of the five table
      colours, and counts 1 to 5 get five different colours. */
  lemma ColourBuckets(m: nat, n: nat)
    requires m >= 1 && n >= 1
    ensures Colour(m) in ColorChoice.Values
    ensures Colour(m) == Colour(if m >= 5 then 5 else m)
    ensures m <= 5 && n <= 5 && m != n ==> Colour(m) != Colour(n)
  {
  }

  /** Every entry that the colour loop can handle has a positive TIDs count. */
  predicate HasTechniqueCounts(ts: seq<Technique>) {
    forall i :: 0 <= i < |ts| ==> ts[i].tids.Some? && ts[i].tids.value >= 1
  }

  /** The entries with their color key set from their TIDs count. */
  function Coloured(ts: seq<Technique>): (r: seq<Technique>)
    requires HasTechniqueCounts(ts)
    ensures |r| == |ts|
  {
    seq(|ts|, i requires 0 <= i < |ts| && HasTechniqueCounts(ts) =>
      ts[i].(color := Some(Colour(ts[i].tids.value))))
  }

  /** The colour loop of main, writing the color key of every entry in place. */
  method AssignColours(all: array<Technique>)
    requires HasTechniqueCounts(all[..])
    modifies all
    ensures all[..] == Coloured(old(all[..]))
  {
    ghost var before := all[..];
    for i := 0 to all.Length
      invariant forall k :: 0 <= k < i ==> all[k] == Coloured(before)[k]
      invariant forall k :: i <= k < all.Length ==> all[k] == before[k]
    {
      var tidCount := all[i].tids.value;
      var color := Colour(tidCount);
      all[i] := all[i].(color := Some(color));
    }
  }
}
