/** The records that flow through sheet2nav: the rows read from the
    spreadsheet and the ATT&CK Navigator technique entries built from them. */
module Techniques {

  datatype Option<+T> = None | Some(value: T)

  /** One record of the worksheet: the cells of its TID, STID and Notes
      columns. None means the worksheet has no such column. */
  datatype Row = Row(tid: Option<string>, stid: Option<string>, notes: Option<string>)

  /** A technique entry: a dictionary whose keys may be missing. None stands
      for a missing key or a JSON null (after the DataFrame round trip the
      two are the same). `tids` and `stids` are the TIDs and STIDs counts. */
  datatype Technique = Technique(
    techniqueID: Option<string>,
    subtechniqueID: Option<string>,
    enabled: bool,
    comment: Option<string>,
    showSubtechniques: bool,
    tids: Option<nat>,
    stids: Option<nat>,
    color: Option<string>)

  /** Python truthiness of a string cell fetched with `dict.get`. */
  predicate Truthy(v: Option<string>) {
    v.Some? && v.value != ""
  }

  /** convert_technique: the keys techniqueID and subtechniqueID are set only
      for truthy TID and STID cells; the comment is the Notes cell as is. */
  function ConvertTechnique(row: Row): (t: Technique)
    ensures t.enabled && !t.showSubtechniques
    ensures t.comment == row.notes
    ensures t.techniqueID.Some? <==> Truthy(row.tid)
    ensures t.techniqueID.Some? ==> t.techniqueID == row.tid
    ensures t.subtechniqueID.Some? <==> Truthy(row.stid)
    ensures t.subtechniqueID.Some? ==> t.subtechniqueID == row.stid
    ensures t.tids.None? && t.stids.None? && t.color.None?
  {
    Technique(
      techniqueID := if Truthy(row.tid) then row.tid else None,
      subtechniqueID := if Truthy(row.stid) then row.stid else None,
      enabled := true,
      comment := row.notes,
      showSubtechniques := false,
      tids := None,
      stids := None,
      color := None)
  }

  /** The entries converted from the records, in order. */
  function Converted(records: seq<Row>): seq<Technique> {
    seq(|records|, i requires 0 <= i < |records| => ConvertTechnique(records[i]))
  }

  /** The loop of main that converts every record and appends it. */
  method ConvertAll(records: seq<Row>) returns (all: seq<Technique>)
    ensures |all| == |records|
    ensures forall i :: 0 <= i < |records| ==> all[i] == ConvertTechnique(records[i])
    ensures all == Converted(records)
  {
    all := [];
    for i := 0 to |records|
      invariant |all| == i
      invariant forall k :: 0 <= k < i ==> all[k] == ConvertTechnique(records[k])
    {
      all := all + [ConvertTechnique(records[i])];
    }
  }

  /** The techniqueID column of a list of entries. */
  function TechniqueIDs(ts: seq<Technique>): (ids: seq<Option<string>>)
    ensures |ids| == |ts|
  {
    seq(|ts|, i requires 0 <= i < |ts| => ts[i].techniqueID)
  }

  /** The subtechniqueID column of a list of entries. */
  function SubtechniqueIDs(ts: seq<Technique>): (ids: seq<Option<string>>)
    ensures |ids| == |ts|
  {
    seq(|ts|, i requires 0 <= i < |ts| => ts[i].subtechniqueID)
  }
}
