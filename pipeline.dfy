/** The technique-list pipeline of main: convert the records, count,
    colour, expand sub-techniques and consolidate. */
module Pipeline {
  import opened Techniques
  import opened Counting
  import opened Colouring
  import opened Expansion
  import opened Consolidation
  import opened Dedup

  /** Every record has a truthy TID. A record without one gets no TIDs count,
      and the colour loop then compares None with 5, which raises. */
  predicate EveryRowHasTID(records: seq<Row>) {
    forall i :: 0 <= i < |records| ==> Truthy(records[i].tid)
  }

  /** Some record has a truthy STID. Otherwise no entry has the key
      subtechniqueID, the DataFrame has no such column, and grouping by it
      raises. */
  predicate SomeRowHasSTID(records: seq<Row>) {
    exists i :: 0 <= i < |records| && Truthy(records[i].stid)
  }

  /** After counting, the colour loop and the expansion find the counts they read. */
  lemma CountsReady(records: seq<Row>)
    requires EveryRowHasTID(records)
    ensures HasTechniqueCounts(Counted(Converted(records)))
    ensures HasSubtechniqueCounts(Coloured(Counted(Converted(records))))
  {
    var ts := Converted(records);
    forall i | 0 <= i < |ts| {
      CountedCounts(ts, i);
    }
  }

  /** The list the dedup loop walks: coloured entries, then sub-technique copies. */
  function Prepared(records: seq<Row>): seq<Technique>
    requires EveryRowHasTID(records)
  {
    CountsReady(records);
    Expanded(Coloured(Counted(Converted(records))))
  }

  /** What `main` needs of the records to finish without raising. */
  predicate PipelineDemands(records: seq<Row>) {
    EveryRowHasTID(records) && SomeRowHasSTID(records) && AllJoinable(Prepared(records))
  }

  /** The techniques of the Navigator layer built from the records. */
  function TechniqueList(records: seq<Row>): seq<Technique>
    requires PipelineDemands(records)
  {
    var all := Prepared(records);
    Deduplicated(all, |all|)
  }

  /** Lines 104-153 of main, on the records read from the worksheet. */
  method BuildTechniqueList(records: seq<Row>) returns (techniques: seq<Technique>)
    requires PipelineDemands(records)
    ensures techniques == TechniqueList(records)
  {
    var converted := ConvertAll(records);
    var counted := AddCounts(converted);
    CountsReady(records);
    var all := new Technique[|counted|](i requires 0 <= i < |counted| => counted[i]);
    assert all[..] == counted;
    AssignColours(all);
    var expanded := ExpandSubtechniques(all[..]);
    var walked := new Technique[|expanded|](i requires 0 <= i < |expanded| => expanded[i]);
    assert walked[..] == expanded;
    techniques := Deduplicate(walked);
  }

  /** The coloured entries carry their record's TID and truthy STID, are
      enabled, hide their sub-techniques and have a colour. */
  lemma ColouredEntries(records: seq<Row>)
    requires EveryRowHasTID(records)
    ensures HasTechniqueCounts(Counted(Converted(records)))
    ensures |Coloured(Counted(Converted(records)))| == |records|
    ensures forall i :: 0 <= i < |records| ==>
      var c := Coloured(Counted(Converted(records)))[i];
      c.techniqueID == records[i].tid &&
      c.subtechniqueID == (if Truthy(records[i].stid) then records[i].stid else None) &&
      c.enabled && !c.showSubtechniques && c.color.Some?
  {
    CountsReady(records);
    forall i | 0 <= i < |records| {
      CountedCounts(Converted(records), i);
    }
  }

  /** Every entry of the walked list is enabled, hides its sub-techniques,
      has a colour and a non-empty techniqueID. */
  lemma PreparedFields(records: seq<Row>)
    requires EveryRowHasTID(records)
    ensures forall j :: 0 <= j < |Prepared(records)| ==>
      Prepared(records)[j].enabled && !Prepared(records)[j].showSubtechniques &&
      Prepared(records)[j].color.Some? && Truthy(Prepared(records)[j].techniqueID)
  {
    CountsReady(records);
    ColouredEntries(records);
    var cs := Coloured(Counted(Converted(records)));
    var copies := SubtechniqueCopies(cs);
    var all := Prepared(records);
    assert all == cs + copies;
    CopiesInOrder(cs);
    forall j | 0 <= j < |all|
      ensures all[j].enabled && !all[j].showSubtechniques && all[j].color.Some? && Truthy(all[j].techniqueID)
    {
      if j >= |cs| {
        assert all[j] == copies[j - |cs|];
      }
    }
  }

  /** The techniqueIDs of the walked list are the TIDs and the truthy STIDs
      of the records. */
  lemma PreparedIDs(records: seq<Row>)
    requires EveryRowHasTID(records)
    ensures forall x :: x in TechniqueIDs(Prepared(records)) <==>
      exists i :: 0 <= i < |records| && (x == records[i].tid || (Truthy(records[i].stid) && x == records[i].stid))
  {
    CountsReady(records);
    ColouredEntries(records);
    var cs := Coloured(Counted(Converted(records)));
    var copies := SubtechniqueCopies(cs);
    var all := Prepared(records);
    assert all == cs + copies;
    CopyIDs(cs);
    assert TechniqueIDs(all) == TechniqueIDs(cs) + TechniqueIDs(copies);
    forall x
      ensures x in TechniqueIDs(all) <==>
        exists i :: 0 <= i < |records| && (x == records[i].tid || (Truthy(records[i].stid) && x == records[i].stid))
    {
      if x in TechniqueIDs(cs) {
        var i :| 0 <= i < |cs| && TechniqueIDs(cs)[i] == x;
        assert x == records[i].tid;
      }
      if exists i :: 0 <= i < |records| && x == records[i].tid {
        var i :| 0 <= i < |records| && x == records[i].tid;
        assert TechniqueIDs(cs)[i] == x;
      }
      if exists i :: 0 <= i < |records| && Truthy(records[i].stid) && x == records[i].stid {
        var i :| 0 <= i < |records| && Truthy(records[i].stid) && x == records[i].stid;
        assert cs[i].subtechniqueID == x;
      }
    }
  }

  /** The layer's techniques: one entry per techniqueID, pairwise distinct,
      exactly the TIDs and truthy STIDs of the records, each non-empty, enabled,
      coloured, and with sub-techniques hidden. */
  lemma TechniqueListProperties(records: seq<Row>)
    requires PipelineDemands(records)
    ensures NoRepeats(TechniqueIDs(TechniqueList(records)))
    ensures forall x :: x in TechniqueIDs(TechniqueList(records)) <==>
      exists i :: 0 <= i < |records| && (x == records[i].tid || (Truthy(records[i].stid) && x == records[i].stid))
    ensures forall k :: 0 <= k < |TechniqueList(records)| ==>
      Truthy(TechniqueList(records)[k].techniqueID) && TechniqueList(records)[k].color.Some? &&
      TechniqueList(records)[k].enabled && !TechniqueList(records)[k].showSubtechniques
  {
    var all := Prepared(records);
    var out := TechniqueList(records);
    PreparedFields(records);
    PreparedIDs(records);
    DeduplicatedIDs(all, |all|);
    assert TechniqueIDs(all)[..|all|] == TechniqueIDs(all);
    FirstOccurrencesProperties(TechniqueIDs(all));
    DeduplicatedOrigins(all, |all|);
    forall k | 0 <= k < |out|
      ensures Truthy(out[k].techniqueID) && out[k].color.Some? && out[k].enabled && !out[k].showSubtechniques
    {
      var p := FirstIndices(all, |all|)[k];
      assert out[k] == Consolidated(all, p);
    }
  }

  /** The colour of every original entry of the walked list: the colour of
      the number of records with its TID. */
  lemma OriginalColours(records: seq<Row>)
    requires EveryRowHasTID(records)
    ensures |records| <= |Prepared(records)|
    ensures forall j :: 0 <= j < |records| ==>
      Prepared(records)[j].techniqueID == records[j].tid &&
      multiset(TechniqueIDs(Converted(records)))[records[j].tid] >= 1 &&
      Prepared(records)[j].color == Some(Colour(multiset(TechniqueIDs(Converted(records)))[records[j].tid]))
  {
    CountsReady(records);
    ColouredEntries(records);
    var ts := Converted(records);
    var cs := Coloured(Counted(ts));
    var all := Prepared(records);
    assert all == cs + SubtechniqueCopies(cs);
    var tidCounts := multiset(TechniqueIDs(ts));
    forall j | 0 <= j < |records|
      ensures all[j].techniqueID == records[j].tid && tidCounts[records[j].tid] >= 1 &&
        all[j].color == Some(Colour(tidCounts[records[j].tid]))
    {
      CountedCounts(ts, j);
      assert all[j] == cs[j];
    }
  }

  /** The colour of every sub-technique copy in the walked list: the colour
      of the number of records with the STID it is keyed by. */
  lemma CopyColours(records: seq<Row>)
    requires EveryRowHasTID(records)
    ensures |records| <= |Prepared(records)|
    ensures forall j :: |records| <= j < |Prepared(records)| ==>
      multiset(SubtechniqueIDs(Converted(records)))[Prepared(records)[j].techniqueID] >= 1 &&
      Prepared(records)[j].color ==
        Some(Colour(multiset(SubtechniqueIDs(Converted(records)))[Prepared(records)[j].techniqueID]))
  {
    CountsReady(records);
    var ts := Converted(records);
    var cs := Coloured(Counted(ts));
    var copies := SubtechniqueCopies(cs);
    var all := Prepared(records);
    assert all == cs + copies;
    CopiesInOrder(cs);
    var stidCounts := multiset(SubtechniqueIDs(ts));
    forall j | |records| <= j < |all|
      ensures stidCounts[all[j].techniqueID] >= 1 && all[j].color == Some(Colour(stidCounts[all[j].techniqueID]))
    {
      var i := SubtechniqueIndices(cs)[j - |records|];
      assert all[j] == copies[j - |records|] == SubtechniqueCopy(cs[i]);
      CountedCounts(ts, i);
      assert cs[i].subtechniqueID == ts[i].subtechniqueID && cs[i].stids == Counted(ts)[i].stids;
    }
  }

  /** The colour of every technique of the layer. An ID that is some
      record's TID has the colour of the number of records with that TID;
      any other ID is only an STID and has the colour of the number of
      records with that STID. So an ID that is one record's TID and another
      record's STID is coloured from its TID count alone. */
  lemma TechniqueListColours(records: seq<Row>)
    requires PipelineDemands(records)
    ensures forall k :: 0 <= k < |TechniqueList(records)| ==>
      ((exists i :: 0 <= i < |records| && records[i].tid == TechniqueList(records)[k].techniqueID) ==>
        multiset(TechniqueIDs(Converted(records)))[TechniqueList(records)[k].techniqueID] >= 1 &&
        TechniqueList(records)[k].color ==
          Some(Colour(multiset(TechniqueIDs(Converted(records)))[TechniqueList(records)[k].techniqueID])))
    ensures forall k :: 0 <= k < |TechniqueList(records)| ==>
      ((forall i :: 0 <= i < |records| ==> records[i].tid != TechniqueList(records)[k].techniqueID) ==>
        multiset(SubtechniqueIDs(Converted(records)))[TechniqueList(records)[k].techniqueID] >= 1 &&
        TechniqueList(records)[k].color ==
          Some(Colour(multiset(SubtechniqueIDs(Converted(records)))[TechniqueList(records)[k].techniqueID])))
  {
    var all := Prepared(records);
    var out := TechniqueList(records);
    var tidCounts, stidCounts := multiset(TechniqueIDs(Converted(records))), multiset(SubtechniqueIDs(Converted(records)));
    OriginalColours(records);
    CopyColours(records);
    DeduplicatedOrigins(all, |all|);
    forall k | 0 <= k < |out|
      ensures ((exists i :: 0 <= i < |records| && records[i].tid == out[k].techniqueID) ==>
        tidCounts[out[k].techniqueID] >= 1 && out[k].color == Some(Colour(tidCounts[out[k].techniqueID])))
      ensures ((forall i :: 0 <= i < |records| ==> records[i].tid != out[k].techniqueID) ==>
        stidCounts[out[k].techniqueID] >= 1 && out[k].color == Some(Colour(stidCounts[out[k].techniqueID])))
    {
      var p := FirstIndices(all, |all|)[k];
      assert out[k] == Consolidated(all, p);
      if p >= |records| {
        FirstDiffers(all, p);
        forall i | 0 <= i < |records|
          ensures records[i].tid != out[k].techniqueID
        {
          assert all[i].techniqueID == records[i].tid;
        }
      }
    }
  }

  /** The three records of the worked example. */
  const ExampleRecords: seq<Row> := [
    Row(Some("T1"), None, Some("a")),
    Row(Some("T1"), None, Some("b")),
    Row(Some("T2"), Some("T2.001"), Some("c"))]

  /** The counts of the worked example: T1 twice, T2 and T2.001 once. */
  lemma ExampleCounted()
    ensures Counted(Converted(ExampleRecords)) == [
      Technique(Some("T1"), None, true, Some("a"), false, Some(2), None, None),
      Technique(Some("T1"), None, true, Some("b"), false, Some(2), None, None),
      Technique(Some("T2"), Some("T2.001"), true, Some("c"), false, Some(1), Some(1), None)]
  {
    var converted := Converted(ExampleRecords);
    assert converted == [
      Technique(Some("T1"), None, true, Some("a"), false, None, None, None),
      Technique(Some("T1"), None, true, Some("b"), false, None, None, None),
      Technique(Some("T2"), Some("T2.001"), true, Some("c"), false, None, None, None)];
    var tidColumn := TechniqueIDs(converted);
    var stidColumn := SubtechniqueIDs(converted);
    assert tidColumn == [Some("T1"), Some("T1"), Some("T2")];
    assert stidColumn == [None, None, Some("T2.001")];
    assert tidColumn[..2] == [Some("T1"), Some("T1")];
    assert tidColumn[..2][..1] == [Some("T1")];
    assert stidColumn[..2] == [None, None];
    assert stidColumn[..2][..1] == [None];
    assert tidColumn[..2][..1][..0] == [] && stidColumn[..2][..1][..0] == [];
    assert Occurrences(tidColumn[..2][..1], Some("T1")) == 1;
    assert Occurrences(tidColumn[..2], Some("T1")) == 2;
    assert Occurrences(tidColumn, Some("T1")) == 2;
    assert Occurrences(tidColumn[..2][..1], Some("T2")) == 0;
    assert Occurrences(tidColumn[..2], Some("T2")) == 0;
    assert Occurrences(tidColumn, Some("T2")) == 1;
    assert Occurrences(stidColumn[..2][..1], Some("T2.001")) == 0;
    assert Occurrences(stidColumn[..2], Some("T2.001")) == 0;
    assert Occurrences(stidColumn, Some("T2.001")) == 1;
  }

  /** The list the dedup loop walks in the worked example. */
  const ExampleWalked: seq<Technique> := [
    Technique(Some("T1"), None, true, Some("a"), false, Some(2), None, Some("#bc99d9")),
    Technique(Some("T1"), None, true, Some("b"), false, Some(2), None, Some("#bc99d9")),
    Technique(Some("T2"), Some("T2.001"), true, Some("c"), false, Some(1), Some(1), Some("#e6c8ff")),
    Technique(Some("T2.001"), Some("T2.001"), true, Some("c"), false, Some(1), Some(1), Some("#e6c8ff"))]

  /** Converting, counting, colouring and expanding the worked example: T1
      counted twice and coloured #bc99d9, T2 once and #e6c8ff, then the copy
      keyed T2.001 with the colour of its STID count 1. */
  lemma ExamplePrepared()
    ensures EveryRowHasTID(ExampleRecords)
    ensures Prepared(ExampleRecords) == ExampleWalked
  {
    ExampleCounted();
    CountsReady(ExampleRecords);
    var coloured := Coloured(Counted(Converted(ExampleRecords)));
    assert Colour(2) == "#bc99d9" && Colour(1) == "#e6c8ff";
    assert coloured == [
      Technique(Some("T1"), None, true, Some("a"), false, Some(2), None, Some("#bc99d9")),
      Technique(Some("T1"), None, true, Some("b"), false, Some(2), None, Some("#bc99d9")),
      Technique(Some("T2"), Some("T2.001"), true, Some("c"), false, Some(1), Some(1), Some("#e6c8ff"))];
    var copy := Technique(Some("T2.001"), Some("T2.001"), true, Some("c"), false, Some(1), Some(1), Some("#e6c8ff"));
    assert coloured[..2][..1][..0] == [];
    assert SubtechniqueCopies(coloured[..2][..1]) == [];
    assert SubtechniqueCopies(coloured[..2]) == [];
    assert Truthy(Some("T2.001"));
    assert SubtechniqueCopies(coloured) == [copy];
  }

  /** In the worked example the second T1 entry is the only repetition. */
  lemma ExampleFirsts()
    ensures IsFirst(ExampleWalked, 0) && !IsFirst(ExampleWalked, 1)
    ensures IsFirst(ExampleWalked, 2) && IsFirst(ExampleWalked, 3)
    ensures AllJoinable(ExampleWalked)
  {
    var ids := TechniqueIDs(ExampleWalked);
    assert ids == [Some("T1"), Some("T1"), Some("T2"), Some("T2.001")];
    assert ids[..1] == [Some("T1")];
    assert ids[..2] == [Some("T1"), Some("T1")];
    assert ids[..3] == [Some("T1"), Some("T1"), Some("T2")];
    forall p | 0 <= p < |ExampleWalked|
      ensures Joinable(ExampleWalked, p)
    {
      assert ExampleWalked[p].comment.Some?;
    }
  }

  /** In the worked example T1 collects "b" and the other two keep "c". */
  lemma ExampleComments()
    ensures Joinable(ExampleWalked, 0) && Joinable(ExampleWalked, 2) && Joinable(ExampleWalked, 3)
    ensures MergedComment(ExampleWalked, 0, 4) == Some("a\n\nb")
    ensures MergedComment(ExampleWalked, 2, 4) == Some("c")
    ensures MergedComment(ExampleWalked, 3, 4) == Some("c")
  {
    var all := ExampleWalked;
    assert MergedComment(all, 0, 1) == Some("a");
    assert "a" + "\n\n" + Format(Some("b")) == "a\n\nb";
    assert MergedComment(all, 0, 2) == Some("a\n\nb");
    assert MergedComment(all, 0, 3) == Some("a\n\nb");
    LoneEntryUnchanged(all, 2, 4);
    LoneEntryUnchanged(all, 3, 4);
  }

  /** Consolidation in the worked example. */
  lemma ExampleDeduplicated()
    ensures AllJoinable(ExampleWalked)
    ensures Deduplicated(ExampleWalked, 4) == [
      Technique(Some("T1"), None, true, Some("a\n\nb"), false, Some(2), None, Some("#bc99d9")),
      Technique(Some("T2"), Some("T2.001"), true, Some("c"), false, Some(1), Some(1), Some("#e6c8ff")),
      Technique(Some("T2.001"), Some("T2.001"), true, Some("c"), false, Some(1), Some(1), Some("#e6c8ff"))]
  {
    ExampleFirsts();
    ExampleComments();
    var all := ExampleWalked;
    var first := Consolidated(all, 0);
    assert Deduplicated(all, 2) == [first];
    assert Deduplicated(all, 4) == [first, Consolidated(all, 2), Consolidated(all, 3)];
  }

  /** Three records (T1, "a"), (T1, "b"), (T2 with STID T2.001, "c"): T1
      merges both comments and has the colour of count 2, then T2 and its
      copy T2.001, both with the colour of count 1. */
  lemma WorkedExample()
    ensures PipelineDemands(ExampleRecords)
    ensures TechniqueList(ExampleRecords) == [
      Technique(Some("T1"), None, true, Some("a\n\nb"), false, Some(2), None, Some("#bc99d9")),
      Technique(Some("T2"), Some("T2.001"), true, Some("c"), false, Some(1), Some(1), Some("#e6c8ff")),
      Technique(Some("T2.001"), Some("T2.001"), true, Some("c"), false, Some(1), Some(1), Some("#e6c8ff"))]
  {
    ExamplePrepared();
    ExampleDeduplicated();
    assert Truthy(ExampleRecords[2].stid);
  }
}
