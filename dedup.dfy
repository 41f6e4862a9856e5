/** The dedup loop of main: walking the list in order, the first entry seen
    for each techniqueID is consolidated in place and kept; later entries
    with an ID already completed are dropped. */
module Dedup {
  import opened Techniques
  import opened Consolidation

  /** Reference definition: the values of `s` without their repetitions,
      each where it first occurs. */
  function FirstOccurrences<T(==)>(s: seq<T>): seq<T>
  {
    if s == [] then []
    else
      var init := s[..|s| - 1];
      FirstOccurrences(init) + (if s[|s| - 1] in init then [] else [s[|s| - 1]])
  }

  /** No value occurs twice. */
  predicate NoRepeats<T(==)>(s: seq<T>) {
    forall i, j :: 0 <= i < j < |s| ==> s[i] != s[j]
  }

  /** FirstOccurrences keeps exactly the values of `s`, each once. */
  lemma {:induction false} FirstOccurrencesProperties<T>(s: seq<T>)
    ensures forall x :: x in FirstOccurrences(s) <==> x in s
    ensures NoRepeats(FirstOccurrences(s))
  {
    if s != [] {
      var init := s[..|s| - 1];
      FirstOccurrencesProperties(init);
      assert s == init + [s[|s| - 1]];
    }
  }

  /** A list without repetitions is its own FirstOccurrences. */
  lemma {:induction false} FirstOccurrencesOfNoRepeats<T>(s: seq<T>)
    requires NoRepeats(s)
    ensures FirstOccurrences(s) == s
  {
    if s != [] {
      var init := s[..|s| - 1];
      FirstOccurrencesOfNoRepeats(init);
      assert s == init + [s[|s| - 1]];
    }
  }

  /** The entry at `i` is the first with its techniqueID. */
  predicate IsFirst(ts: seq<Technique>, i: nat)
    requires i < |ts|
  {
    ts[i].techniqueID !in TechniqueIDs(ts)[..i]
  }

  /** No kept entry executes `None += ...` in consolidate_techniques. */
  predicate AllJoinable(ts: seq<Technique>) {
    forall p :: 0 <= p < |ts| && IsFirst(ts, p) ==> Joinable(ts, p)
  }

  /** The consolidated entries collected by the loop after visiting ts[..n]. */
  function Deduplicated(ts: seq<Technique>, n: nat): (r: seq<Technique>)
    requires n <= |ts| && AllJoinable(ts)
  {
    if n == 0 then []
    else Deduplicated(ts, n - 1) + (if IsFirst(ts, n - 1) then [Consolidated(ts, n - 1)] else [])
  }

  /** The positions of ts[..n] that are first occurrences, ascending. */
  function FirstIndices(ts: seq<Technique>, n: nat): seq<nat>
    requires n <= |ts|
  {
    if n == 0 then []
    else FirstIndices(ts, n - 1) + (if IsFirst(ts, n - 1) then [n - 1] else [])
  }

  /** The list after the loop has visited ts[..i]: the first occurrences
      before `i` consolidated in place, every other entry untouched. */
  function PartlyDeduplicated(ts: seq<Technique>, i: nat): (r: seq<Technique>)
    requires i <= |ts| && AllJoinable(ts)
    ensures |r| == |ts|
  {
    seq(|ts|, k requires 0 <= k < |ts| && AllJoinable(ts) =>
      if k < i && IsFirst(ts, k) then Consolidated(ts, k) else ts[k])
  }

  /** The list as the loop leaves it: every first occurrence consolidated in place. */
  function AfterDedup(ts: seq<Technique>): (r: seq<Technique>)
    requires AllJoinable(ts)
    ensures |r| == |ts|
  {
    PartlyDeduplicated(ts, |ts|)
  }

  /** The techniqueIDs of the output are those of the input, in order of
      first occurrence, so they are pairwise distinct and every techniqueID
      of the input is present. */
  lemma {:induction false} DeduplicatedIDs(ts: seq<Technique>, n: nat)
    requires n <= |ts| && AllJoinable(ts)
    ensures TechniqueIDs(Deduplicated(ts, n)) == FirstOccurrences(TechniqueIDs(ts)[..n])
  {
    if n > 0 {
      DeduplicatedIDs(ts, n - 1);
      var ids := TechniqueIDs(ts)[..n];
      assert ids[..n - 1] == TechniqueIDs(ts)[..n - 1];
      var prev := Deduplicated(ts, n - 1);
      if IsFirst(ts, n - 1) {
        assert TechniqueIDs(prev + [Consolidated(ts, n - 1)]) == TechniqueIDs(prev) + [ts[n - 1].techniqueID];
      } else {
        assert prev + [] == prev;
      }
    }
  }

  /** FirstIndices lists, in ascending order, exactly the first occurrences. */
  lemma {:induction false} FirstIndicesProperties(ts: seq<Technique>, n: nat)
    requires n <= |ts|
    ensures forall k :: 0 <= k < |FirstIndices(ts, n)| ==>
      FirstIndices(ts, n)[k] < n && IsFirst(ts, FirstIndices(ts, n)[k])
    ensures forall k, l :: 0 <= k < l < |FirstIndices(ts, n)| ==> FirstIndices(ts, n)[k] < FirstIndices(ts, n)[l]
    ensures forall p :: 0 <= p < n && IsFirst(ts, p) ==> p in FirstIndices(ts, n)
  {
    if n > 0 {
      FirstIndicesProperties(ts, n - 1);
    }
  }

  /** Each output entry is the consolidated form of the first occurrence at
      the same place of FirstIndices. */
  lemma {:induction false} DeduplicatedOrigins(ts: seq<Technique>, n: nat)
    requires n <= |ts| && AllJoinable(ts)
    ensures |Deduplicated(ts, n)| == |FirstIndices(ts, n)|
    ensures forall k :: 0 <= k < |FirstIndices(ts, n)| ==>
      FirstIndices(ts, n)[k] < n && IsFirst(ts, FirstIndices(ts, n)[k]) &&
      Deduplicated(ts, n)[k] == Consolidated(ts, FirstIndices(ts, n)[k])
  {
    FirstIndicesProperties(ts, n);
    if n > 0 {
      DeduplicatedOrigins(ts, n - 1);
      var prev, out := FirstIndices(ts, n - 1), Deduplicated(ts, n - 1);
      if IsFirst(ts, n - 1) {
        assert FirstIndices(ts, n) == prev + [n - 1];
        assert Deduplicated(ts, n) == out + [Consolidated(ts, n - 1)];
      } else {
        assert FirstIndices(ts, n) == prev;
        assert Deduplicated(ts, n) == out;
      }
    }
  }

  /** A first occurrence differs in techniqueID from every entry before it. */
  lemma FirstDiffers(ts: seq<Technique>, i: nat)
    requires i < |ts| && IsFirst(ts, i)
    ensures forall k :: 0 <= k < i ==> ts[k].techniqueID != ts[i].techniqueID
  {
    forall k | 0 <= k < i
      ensures ts[k].techniqueID != ts[i].techniqueID
    {
      assert TechniqueIDs(ts)[..i][k] == ts[k].techniqueID;
    }
  }

  /** A list whose techniqueIDs are already distinct comes out unchanged. */
  lemma {:induction false} DistinctUnchanged(ts: seq<Technique>, n: nat)
    requires n <= |ts| && NoRepeats(TechniqueIDs(ts))
    ensures AllJoinable(ts)
    ensures Deduplicated(ts, n) == ts[..n]
  {
    var ids := TechniqueIDs(ts);
    forall p | 0 <= p < |ts|
      ensures IsFirst(ts, p) && Joinable(ts, p) && Consolidated(ts, p) == ts[p]
    {
      forall k | 0 <= k < |ts| && k != p
        ensures ts[k].techniqueID != ts[p].techniqueID
      {
        assert ids[k] == ts[k].techniqueID && ids[p] == ts[p].techniqueID;
      }
      LoneEntryUnchanged(ts, p, |ts|);
    }
    if n > 0 {
      DistinctUnchanged(ts, n - 1);
      assert ts[..n] == ts[..n - 1] + [ts[n - 1]];
    }
  }

  /** Deduplication is idempotent: its output has distinct techniqueIDs, so
      deduplicating it again changes nothing. */
  lemma DeduplicatedIdempotent(ts: seq<Technique>)
    requires AllJoinable(ts)
    ensures NoRepeats(TechniqueIDs(Deduplicated(ts, |ts|)))
    ensures FirstOccurrences(TechniqueIDs(Deduplicated(ts, |ts|))) == TechniqueIDs(Deduplicated(ts, |ts|))
    ensures AllJoinable(Deduplicated(ts, |ts|))
    ensures Deduplicated(Deduplicated(ts, |ts|), |Deduplicated(ts, |ts|)|) == Deduplicated(ts, |ts|)
  {
    var out := Deduplicated(ts, |ts|);
    DeduplicatedIDs(ts, |ts|);
    FirstOccurrencesProperties(TechniqueIDs(ts)[..|ts|]);
    DistinctUnchanged(out, |out|);
    FirstOccurrencesOfNoRepeats(TechniqueIDs(out));
    assert out[..|out|] == out;
  }

  /** One iteration of the dedup loop at a first occurrence: consolidating
      in the partly deduplicated list gives the same entry as in the input,
      and leaves the list deduplicated one step further. */
  lemma ConsolidateStep(before: seq<Technique>, i: nat, current: seq<Technique>)
    requires i < |before| && AllJoinable(before) && IsFirst(before, i)
    requires current == PartlyDeduplicated(before, i)
    ensures Joinable(current, i)
    ensures Consolidated(current, i) == Consolidated(before, i)
    ensures current[i := Consolidated(current, i)] == PartlyDeduplicated(before, i + 1)
    ensures Deduplicated(before, i + 1) == Deduplicated(before, i) + [Consolidated(before, i)]
  {
    FirstDiffers(before, i);
    MergedCommentFrame(before, current, i, |before|);
  }

  /** One iteration of the dedup loop at a repeated techniqueID changes nothing. */
  lemma SkipStep(before: seq<Technique>, i: nat)
    requires i < |before| && AllJoinable(before) && !IsFirst(before, i)
    ensures PartlyDeduplicated(before, i) == PartlyDeduplicated(before, i + 1)
    ensures Deduplicated(before, i + 1) == Deduplicated(before, i)
  {
  }

  /** The techniqueIDs seen after visiting one more entry. */
  lemma IDsPrefixStep(ts: seq<Technique>, i: nat)
    requires i < |ts|
    ensures TechniqueIDs(ts)[..i + 1] == TechniqueIDs(ts)[..i] + [ts[i].techniqueID]
  {
  }

  /** The dedup loop over `all`, returning consolidated_techniques. */
  method Deduplicate(all: array<Technique>) returns (consolidated: seq<Technique>)
    requires AllJoinable(all[..])
    modifies all
    ensures consolidated == Deduplicated(old(all[..]), all.Length)
    ensures all[..] == AfterDedup(old(all[..]))
  {
    ghost var before := all[..];
    var completed: seq<Option<string>> := [];
    consolidated := [];
    for i := 0 to all.Length
      invariant completed == TechniqueIDs(before)[..i]
      invariant consolidated == Deduplicated(before, i)
      invariant all[..] == PartlyDeduplicated(before, i)
    {
      assert all[i] == before[i];
      IDsPrefixStep(before, i);
      var id := all[i].techniqueID;
      if id !in completed {
        ConsolidateStep(before, i, all[..]);
        var technique := ConsolidateTechniques(all, i);
        consolidated := consolidated + [technique];
      } else {
        SkipStep(before, i);
      }
      completed := completed + [id];
    }
  }
}
