# sheet2nav technique list, modelled in Dafny

sheet2nav reads the records of a Google worksheet (columns TID, STID and
Notes) and writes a MITRE ATT&CK Navigator layer. This project models the
part of `main` that turns the records into the layer's `techniques` list:

1. each record becomes an entry (`convert_technique`);
2. each entry gets the number of entries sharing its techniqueID (TIDs) and
   the number sharing its subtechniqueID (STIDs);
3. each entry is coloured from its TIDs count through a five-colour table,
   with every count of five or more mapped to the darkest colour;
4. each entry with a subtechniqueID gets a copy, keyed by the
   subtechniqueID and coloured from the STIDs count; the copies follow all
   the original entries;
5. walking the list in order, the first entry of each techniqueID is kept,
   and `consolidate_techniques` extends its comment with a blank line and
   every same-ID comment that differs from the text built so far.

Modules, one per step: `Techniques` (records, entries, conversion),
`Counting`, `Colouring`, `Expansion`, `Consolidation`
(`consolidate_techniques`), `Dedup` (the dedup loop) and `Pipeline`
(the whole of lines 104-153).

How the model represents the source:

- An entry is a Python dict whose keys may be missing. The datatype
  `Technique` has one `Option` field per key; `None` stands for a missing
  key or a JSON null, which the DataFrame round trip makes the same thing.
- `Truthy` is Python truthiness of a string cell: present and non-empty.
- Counting is an explicit frequency count (`Frequencies`, a map built in
  one pass per column) instead of pandas `groupby(...).transform('count')`.
  Entries without the key get no count, as pandas drops missing group keys.
- The colour loop works in place on an array, as the source writes
  `all_techniques[index]['color']`. Expansion builds the copies and then
  appends them, on sequences.
- `consolidate_techniques` is always called with an element of the list it
  walks. The model passes the array and the position `p` of that element,
  so the aliasing is kept. When the walk reaches `p`, the entry's comment is
  compared with itself, so it contributes nothing. The specification
  function `MergedComment` skips `p` explicitly.
- `"{}".format(None)` is `"None"`. A missing comment joined onto a present
  one therefore appends a blank line and `None` (`Format`).
- The source raises instead of returning an error. The model states each
  such case as a precondition: what `main` needs to finish without raising.
  - `EveryRowHasTID`: a record without a truthy TID gets a null TIDs count,
    and `tid_count >= 5` raises (sheet2nav/sheet2nav.py:123-125).
  - `SomeRowHasSTID`: if no record has a truthy STID, no entry has the key
    `subtechniqueID`, the DataFrame has no such column, and
    `df.groupby('subtechniqueID')` raises KeyError (sheet2nav/sheet2nav.py:110).
  - `AllJoinable`: a kept entry with no comment must not meet a same-ID
    entry with a comment, because that runs `None += ...` (sheet2nav/sheet2nav.py:85).
  - `Colour` requires a count of at least 1, since 0 is not a key of
    `color_choice`. Counts are never 0.

Consequences of the code that are easy to miss:

- A record with only an STID produces no entry: its TIDs count is null and
  `tid_count >= 5` raises (sheet2nav/sheet2nav.py:123-125).
- A same-ID comment is compared with the text built so far, not with the
  comments already merged: `a, b, b` gives `"a\n\nb\n\nb"`, and `a, b, a`
  gives `"a\n\nb\n\na"` (`JoinExamples`).
- An ID that is one record's TID and another record's STID is kept only as
  the original entry, and so coloured from its TIDs count alone
  (`TechniqueListColours`).

## Model

| member | source | states |
|---|---|---|
| `Techniques.ConvertTechnique` | sheet2nav/sheet2nav.py:68-79 | enabled is true, showSubtechniques false, comment is the Notes cell; techniqueID is present exactly when TID is truthy and is then TID, the same for subtechniqueID and STID; no count or colour yet |
| `Techniques.Truthy` | sheet2nav/sheet2nav.py:70-73 | Python truthiness of a cell read with `get`: present and non-empty; the same test guards the copies at sheet2nav/sheet2nav.py:134 |
| `Techniques.ConvertAll` | sheet2nav/sheet2nav.py:104-106 | the converted list has one entry per record, in record order, each the conversion of its record |
| `Techniques.Converted` | sheet2nav/sheet2nav.py:104-106 | the definition of `all_techniques` after the conversion loop: the conversion of each record, in record order |
| `Counting.CountOf` | sheet2nav/sheet2nav.py:109-111 | the count one groupby-count gives an entry: the number of occurrences of its key in the column, none when the key is missing |
| `Counting.Counted` | sheet2nav/sheet2nav.py:109-111 | the definition of the two groupby-count passes: each entry gets the number of entries sharing its techniqueID as TIDs and sharing its subtechniqueID as STIDs, none when it lacks the key; the list keeps its length |
| `Counting.OccurrencesIsMultiplicity` | sheet2nav/sheet2nav.py:109-111 | the recursive count used by the model equals the multiplicity of the value in the multiset of the column |
| `Counting.Frequencies` | sheet2nav/sheet2nav.py:109-111 | the frequency map gives every value its number of occurrences in the column and has exactly the values present as keys |
| `Counting.CountedCounts` | sheet2nav/sheet2nav.py:109-111 | an entry with a techniqueID gets a TIDs count equal to the number of entries with that techniqueID, so at least 1; one without gets none; the same for subtechniqueID and STIDs; no other key changes |
| `Counting.AddCounts` | sheet2nav/sheet2nav.py:108-112 | the two counting passes produce exactly the counted list |
| `Colouring.ColorChoice` | sheet2nav/sheet2nav.py:114-120 | the `color_choice` table: counts 1 to 5 to #e6c8ff, #bc99d9, #926db5, #6a4391, #41196f |
| `Colouring.Colour` | sheet2nav/sheet2nav.py:114-128 | a positive count c from 1 to 4 yields color_choice[c]; every count of 5 or more yields #41196f |
| `Colouring.ColourBuckets` | sheet2nav/sheet2nav.py:114-128 | the lookup is total on positive counts, always a table colour, equal to the colour of min(c, 5), and counts 1 to 5 get five different colours |
| `Colouring.Coloured` | sheet2nav/sheet2nav.py:122-130 | the definition of the colour loop: every entry gets the colour of its TIDs count; the list keeps its length |
| `Colouring.AssignColours` | sheet2nav/sheet2nav.py:122-130 | the colour loop sets the color key of every entry from its TIDs count, in place, and changes nothing else |
| `Expansion.SubtechniqueCopy` | sheet2nav/sheet2nav.py:135-142 | the copy has the subtechniqueID as techniqueID and the colour of the STIDs count, and differs from its source in no other key |
| `Expansion.SubtechniqueCopies` | sheet2nav/sheet2nav.py:132-143 | the definition of the collected copies: one per entry with a truthy subtechniqueID, in order; there are at most as many as entries and each is keyed by a non-empty ID |
| `Expansion.CopiesInOrder` | sheet2nav/sheet2nav.py:132-143 | there is one copy per entry with a truthy subtechniqueID, none for the others, and the k-th copy comes from the k-th such entry, in ascending position |
| `Expansion.CopyIDs` | sheet2nav/sheet2nav.py:132-143 | the techniqueIDs of the copies are exactly the truthy subtechniqueIDs of the entries |
| `Expansion.Expanded` | sheet2nav/sheet2nav.py:132-145 | the definition of the list after expansion: the entries, unchanged, followed by the copies, so at most twice as long |
| `Expansion.ExpandSubtechniques` | sheet2nav/sheet2nav.py:132-145 | the expanded list is the original entries, unchanged, followed by the copies |
| `Consolidation.Format` | sheet2nav/sheet2nav.py:85 | `"{}".format(c)`: a present comment is itself, a missing one is written `None` |
| `Consolidation.MergedComment` | sheet2nav/sheet2nav.py:82-87 | the merged comment is present exactly when the entry's own comment is present |
| `Consolidation.Consolidated` | sheet2nav/sheet2nav.py:82-87 | the definition of the consolidated entry: only its comment changes, to the merged comment, and the comment stays present exactly when it was |
| `Consolidation.Joinable` | sheet2nav/sheet2nav.py:85 | the condition under which consolidating the entry never runs `None += ...`: if it has no comment, no same-ID entry has one |
| `Consolidation.ConsolidateTechniques` | sheet2nav/sheet2nav.py:82-87 | consolidate_techniques(all[p], all) changes only all[p], only its comment, to the merged comment, and returns all[p] |
| `Consolidation.MergedCommentIsJoin` | sheet2nav/sheet2nav.py:82-87 | entries with another techniqueID and the entry itself contribute nothing: the result is the original comment joined, by the compare-with-accumulated-text rule, with the same-ID comments of the other entries in list order; an absent comment stays absent |
| `Consolidation.JoinExtends` | sheet2nav/sheet2nav.py:85 | the original comment is a prefix of the consolidated comment |
| `Consolidation.JoinOfEqualComments` | sheet2nav/sheet2nav.py:84 | comments equal to the original add nothing |
| `Consolidation.JoinExamples` | sheet2nav/sheet2nav.py:84-85 | "a" with b gives "a\n\nb"; with a, b gives "a\n\nb"; with b, b gives "a\n\nb\n\nb"; with b, a gives "a\n\nb\n\na"; with a missing comment gives "a\n\nNone" |
| `Consolidation.LoneEntryUnchanged` | sheet2nav/sheet2nav.py:82-87 | an entry whose techniqueID no other entry has keeps its comment |
| `Consolidation.TwoCommentsJoined` | sheet2nav/sheet2nav.py:82-87 | two same-ID entries with different comments x and y: the first gets x, a blank line, then y |
| `Consolidation.MergedCommentFrame` | sheet2nav/sheet2nav.py:82-87 | the merged comment depends only on the entry and on the entries sharing its techniqueID |
| `Dedup.IsFirst` | sheet2nav/sheet2nav.py:150 | the `not in completed_techniques` test: no earlier entry of the walked list has this techniqueID |
| `Dedup.AllJoinable` | sheet2nav/sheet2nav.py:85 | every kept entry of the walked list meets `Joinable`, so the dedup loop never raises |
| `Dedup.Deduplicated` | sheet2nav/sheet2nav.py:147-153 | the definition of consolidated_techniques: the first entry of each techniqueID, consolidated, in list order |
| `Dedup.PartlyDeduplicated` | sheet2nav/sheet2nav.py:149-153 | the walked list after the loop has visited its first i entries: those of them that are first occurrences consolidated in place, all other entries untouched |
| `Dedup.AfterDedup` | sheet2nav/sheet2nav.py:147-153 | the walked list once the loop ends: `PartlyDeduplicated` after every entry, so every first occurrence consolidated in place, every other entry untouched, same length |
| `Dedup.FirstOccurrencesProperties` | sheet2nav/sheet2nav.py:147-153 | the first-occurrence list holds exactly the values of its input, each once |
| `Dedup.FirstOccurrencesOfNoRepeats` | sheet2nav/sheet2nav.py:150 | a list without repetitions is its own first-occurrence list |
| `Dedup.DeduplicatedIDs` | sheet2nav/sheet2nav.py:147-153 | the techniqueIDs of the dedup output are those of the walked list in first-occurrence order |
| `Dedup.FirstIndicesProperties` | sheet2nav/sheet2nav.py:149-151 | the kept positions are ascending, are all first occurrences, and include every first occurrence |
| `Dedup.DeduplicatedOrigins` | sheet2nav/sheet2nav.py:147-153 | the k-th output entry is the k-th first occurrence with only its comment consolidated |
| `Dedup.DistinctUnchanged` | sheet2nav/sheet2nav.py:147-153 | if the techniqueIDs are already distinct, every entry comes out unchanged |
| `Dedup.DeduplicatedIdempotent` | sheet2nav/sheet2nav.py:147-153 | the output has pairwise distinct techniqueIDs, so its IDs are their own first-occurrence list, and deduplicating it again returns it unchanged |
| `Dedup.ConsolidateStep` | sheet2nav/sheet2nav.py:150-152 | consolidating a first occurrence in the partly consolidated list gives the same entry as in the original list, because earlier kept entries have other techniqueIDs |
| `Dedup.Deduplicate` | sheet2nav/sheet2nav.py:147-153 | the dedup loop returns the consolidated first occurrences in order and leaves them consolidated in place in the list, all other entries untouched |
| `Pipeline.EveryRowHasTID` | sheet2nav/sheet2nav.py:123-125 | the condition under which the colour loop does not raise: every record has a truthy TID |
| `Pipeline.SomeRowHasSTID` | sheet2nav/sheet2nav.py:110 | the condition under which grouping by subtechniqueID does not raise KeyError: some record has a truthy STID |
| `Pipeline.Prepared` | sheet2nav/sheet2nav.py:104-145 | the definition of the list the dedup loop walks at sheet2nav/sheet2nav.py:149: the converted, counted and coloured entries, then their sub-technique copies |
| `Pipeline.PipelineDemands` | sheet2nav/sheet2nav.py:85-125 | the three conditions under which `main` finishes without raising, at sheet2nav/sheet2nav.py:85, :110 and :123-125: `EveryRowHasTID`, `SomeRowHasSTID`, and `AllJoinable` of the walked list |
| `Pipeline.TechniqueList` | sheet2nav/sheet2nav.py:104-153 | the definition of the layer's techniques: convert, count, colour, expand, then deduplicate with consolidation |
| `Pipeline.CountsReady` | sheet2nav/sheet2nav.py:122-141 | when every record has a TID, each entry has a positive TIDs count, and each entry with a subtechniqueID has a positive STIDs count |
| `Pipeline.ColouredEntries` | sheet2nav/sheet2nav.py:104-130 | the coloured entry of each record carries its TID and truthy STID, is enabled, hides sub-techniques and has a colour |
| `Pipeline.PreparedFields` | sheet2nav/sheet2nav.py:104-145 | every entry of the walked list is enabled, hides sub-techniques, has a colour and a non-empty techniqueID |
| `Pipeline.PreparedIDs` | sheet2nav/sheet2nav.py:104-145 | the techniqueIDs of the walked list are exactly the TIDs and the truthy STIDs of the records |
| `Pipeline.BuildTechniqueList` | sheet2nav/sheet2nav.py:104-153 | the composed loops compute the technique list of the records |
| `Pipeline.TechniqueListProperties` | sheet2nav/sheet2nav.py:104-153 | the layer's techniques have pairwise distinct techniqueIDs, exactly the records' TIDs and truthy STIDs, each non-empty, enabled, coloured and with sub-techniques hidden |
| `Pipeline.OriginalColours` | sheet2nav/sheet2nav.py:104-130 | the entry walked at position j < number of records is keyed by that record's TID and has the colour of the number of records with that TID |
| `Pipeline.CopyColours` | sheet2nav/sheet2nav.py:109-145 | every copy in the walked list has the colour of the number of records whose STID is its techniqueID, at least 1 |
| `Pipeline.TechniqueListColours` | sheet2nav/sheet2nav.py:104-153 | every technique of the layer whose ID is some record's TID has the colour of the number of records with that TID; every other one has the colour of the number of records with that STID |
| `Pipeline.WorkedExample` | sheet2nav/sheet2nav.py:104-153 | (T1,"a"), (T1,"b"), (T2 with STID T2.001,"c") give T1 with comment "a\n\nb" and #bc99d9, then T2 with #e6c8ff, then T2.001 with #e6c8ff |

## Left out

- Command-line parsing (`get_parser`, sheet2nav/sheet2nav.py:9-20): plumbing.
- Google authentication and worksheet retrieval (sheet2nav/sheet2nav.py:94-101): network calls into gspread and oauth2client. The records they return are the input sequence of `Row`s.
- `build_navigator` (sheet2nav/sheet2nav.py:23-65): a constant layer template in which only the name, the platform filter and the technique list vary; nothing to prove beyond field assignment.
- Writing the JSON file and the success message (sheet2nav/sheet2nav.py:155-161): I/O.
- The unused `lib2to3` import (sheet2nav/sheet2nav.py:4).
- pandas internals: counts become floats when a column has gaps and go through `to_json`/`json.loads`. The model uses natural numbers. A float count such as 1.0 looks up the same `color_choice` entry as 1, so the colours agree.
- Cell types: gspread may turn numeric-looking cells into numbers. The model treats every cell as a string or missing.
- Object identity of the dicts: the value model shows that each kept entry is only changed by its own consolidation before it is appended. Because of that, the output holds the same values as the Python list of references.
