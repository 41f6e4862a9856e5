/** consolidate_techniques: later entries with the same techniqueID extend
    the comment of an entry in place. The entry is always an element of the
    list it is consolidated against, so it is modelled as position `p` of
    that list: when the walk reaches `p` it compares the entry's comment with
    itself and adds nothing. */
module Consolidation {
  import opened Techniques

  /** `"{}".format(c)`: a missing comment is written as None. */
  function Format(c: Option<string>): string {
    match c
    case Some(s) => s
    case None => "None"
  }

  /** The walk never executes `None += ...`: if the entry at `p` has no
      comment, no entry with its techniqueID has one. (When the entry has no
      comment, the first entry with its techniqueID and a comment triggers
      that concatenation; entries without one compare equal.) */
  predicate Joinable(ts: seq<Technique>, p: nat)
    requires p < |ts|
  {
    ts[p].comment.None? ==>
      forall k :: 0 <= k < |ts| && ts[k].techniqueID == ts[p].techniqueID ==> ts[k].comment.None?
  }

  /** The comment of the entry at `p` once the walk has visited ts[..n]. */
  function MergedComment(ts: seq<Technique>, p: nat, n: nat): (r: Option<string>)
    requires p < |ts| && n <= |ts| && Joinable(ts, p)
    ensures r.Some? <==> ts[p].comment.Some?
  {
    if n == 0 then ts[p].comment
    else
      var acc := MergedComment(ts, p, n - 1);
      var t := ts[n - 1];
      if n - 1 != p && t.techniqueID == ts[p].techniqueID && t.comment != acc then
        Some(acc.value + "\n\n" + Format(t.comment))
      else acc
  }

  /** The entry at `p` after consolidate_techniques: only its comment changes. */
  function Consolidated(ts: seq<Technique>, p: nat): (r: Technique)
    requires p < |ts| && Joinable(ts, p)
    ensures r.(comment := ts[p].comment) == ts[p]
    ensures r.comment.Some? <==> ts[p].comment.Some?
  {
    ts[p].(comment := MergedComment(ts, p, |ts|))
  }

  /** consolidate_techniques(all[p], all). */
  method ConsolidateTechniques(all: array<Technique>, p: nat) returns (orig: Technique)
    requires p < all.Length && Joinable(all[..], p)
    modifies all
    ensures all[..] == old(all[..])[p := Consolidated(old(all[..]), p)]
    ensures orig == all[p]
  {
    ghost var before := all[..];
    for k := 0 to all.Length
      invariant all[..] == before[p := before[p].(comment := MergedComment(before, p, k))]
    {
      if all[p].techniqueID == all[k].techniqueID && all[p].comment != all[k].comment {
        all[p] := all[p].(comment := Some(all[p].comment.value + "\n\n" + Format(all[k].comment)));
      }
    }
    orig := all[p];
  }

  /** The comments of the entries of ts[..n] other than `p` that share its
      techniqueID, in order. */
  function SameIDComments(ts: seq<Technique>, p: nat, n: nat): seq<Option<string>>
    requires p < |ts| && n <= |ts|
  {
    if n == 0 then []
    else
      SameIDComments(ts, p, n - 1) +
        (if n - 1 != p && ts[n - 1].techniqueID == ts[p].techniqueID then [ts[n - 1].comment] else [])
  }

  /** Reference rule: starting from `acc`, append a blank line and each
      comment that differs from the text accumulated so far. */
  function JoinComments(acc: string, cs: seq<Option<string>>): string
  {
    if cs == [] then acc
    else
      var prev := JoinComments(acc, cs[..|cs| - 1]);
      var c := cs[|cs| - 1];
      if c != Some(prev) then prev + "\n\n" + Format(c) else prev
  }

  /** Entries with another techniqueID, and the entry itself, contribute
      nothing: the comment is the original joined with the same-ID comments. */
  lemma {:induction false} MergedCommentIsJoin(ts: seq<Technique>, p: nat, n: nat)
    requires p < |ts| && n <= |ts| && Joinable(ts, p)
    ensures ts[p].comment.None? ==> MergedComment(ts, p, n).None?
    ensures ts[p].comment.Some? ==>
      MergedComment(ts, p, n) == Some(JoinComments(ts[p].comment.value, SameIDComments(ts, p, n)))
  {
    if n > 0 {
      MergedCommentIsJoin(ts, p, n - 1);
      var cs := SameIDComments(ts, p, n);
      if n - 1 != p && ts[n - 1].techniqueID == ts[p].techniqueID {
        assert cs[..|cs| - 1] == SameIDComments(ts, p, n - 1);
      } else {
        assert cs == SameIDComments(ts, p, n - 1);
      }
    }
  }

  /** The original comment is always a prefix of the joined comment. */
  lemma {:induction false} JoinExtends(acc: string, cs: seq<Option<string>>)
    ensures acc <= JoinComments(acc, cs)
  {
    if cs != [] {
      JoinExtends(acc, cs[..|cs| - 1]);
    }
  }

  /** Comments equal to the original add nothing. */
  lemma {:induction false} JoinOfEqualComments(acc: string, cs: seq<Option<string>>)
    requires forall k :: 0 <= k < |cs| ==> cs[k] == Some(acc)
    ensures JoinComments(acc, cs) == acc
  {
    if cs != [] {
      JoinOfEqualComments(acc, cs[..|cs| - 1]);
    }
  }

  /** Comparison is against the accumulated text, not against the comments
      seen so far: a repeated or returning comment is appended again, and a
      missing comment is appended as None. */
  lemma JoinExamples()
    ensures JoinComments("a", [Some("b")]) == "a\n\nb"
    ensures JoinComments("a", [Some("a"), Some("b")]) == "a\n\nb"
    ensures JoinComments("a", [Some("b"), Some("b")]) == "a\n\nb\n\nb"
    ensures JoinComments("a", [Some("b"), Some("a")]) == "a\n\nb\n\na"
    ensures JoinComments("a", [None]) == "a\n\nNone"
  {
  }

  /** An entry whose techniqueID no other entry has keeps its comment. */
  lemma {:induction false} LoneEntryUnchanged(ts: seq<Technique>, p: nat, n: nat)
    requires p < |ts| && n <= |ts|
    requires forall k :: 0 <= k < |ts| && k != p ==> ts[k].techniqueID != ts[p].techniqueID
    ensures Joinable(ts, p)
    ensures MergedComment(ts, p, n) == ts[p].comment
  {
    if n > 0 {
      LoneEntryUnchanged(ts, p, n - 1);
    }
  }

  /** Two entries with one techniqueID and different comments `x` and `y`:
      the first ends up with `x`, a blank line, then `y`. */
  lemma TwoCommentsJoined(ts: seq<Technique>, x: string, y: string)
    requires |ts| == 2 && ts[0].techniqueID == ts[1].techniqueID
    requires ts[0].comment == Some(x) && ts[1].comment == Some(y) && x != y
    ensures Joinable(ts, 0)
    ensures Consolidated(ts, 0).comment == Some(x + "\n\n" + y)
  {
    assert MergedComment(ts, 0, 1) == Some(x);
  }

  /** The walk's result only depends on the entry at `p` and on the entries
      that share its techniqueID. */
  lemma {:induction false} MergedCommentFrame(ts: seq<Technique>, us: seq<Technique>, p: nat, n: nat)
    requires |us| == |ts| && p < |ts| && n <= |ts| && Joinable(ts, p)
    requires forall k :: 0 <= k < |ts| ==> us[k].techniqueID == ts[k].techniqueID
    requires forall k :: 0 <= k < |ts| && ts[k].techniqueID == ts[p].techniqueID ==> us[k] == ts[k]
    ensures Joinable(us, p)
    ensures MergedComment(us, p, n) == MergedComment(ts, p, n)
  {
    if n > 0 {
      MergedCommentFrame(ts, us, p, n - 1);
    }
  }
}
