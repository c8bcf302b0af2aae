# Earley chart parser and minimum edit distance, in Dafny

This project models two algorithms from the trqminh/NLP repository and proves properties of both.

**The Earley chart parser (`earley_parser.py`).**
- A station is a dotted rule: a left-hand nonterminal `inp`, a body `out` in which the symbol `"."` marks the dot, and an origin column `idx`.
- A table is an insertion-ordered list of stations for one input position. Every append is guarded by `is_overlap`, so a table holds no station twice.
- `parse` seeds table 0 with the productions of `S`. It then repeats Complete (`_backtrack`) and Predict (`_expand`) until a pass adds nothing.
- For each token it scans into a new table (`_step_4`) and closes that table the same way.

**Minimum edit distance (`min_edit_distance/med.py`).**
- The costs are: insert 1, delete 1, substitute 0 or 2.
- `min_of_3` picks the cheapest candidate and breaks ties in favour of substitution, then deletion.
- A DP matrix is filled, a traceback spells out one alignment, and a relabelling pass blanks the free substitutions.

**How the Dafny is laid out.**
- `earley_items.dfy` has the raw station (`Station`, a `seq<string>` body containing the dot) and the source's utility functions on it. It also has an abstract `Item` with the dot kept as a number, plus lemmas showing that the raw tests agree with the item.
- `earley_tables.dfy` has the grammar, duplicate-free tables, and the three inference rules acting on one table.
- `earley_parser.dfy` has the passes `_step_1` to `_step_6`, the two closure loops, and `parse`.
- `earley_soundness.dfy` proves that every station the parser records is valid: the symbols before its dot derive the tokens between its origin and its table.
- `earley_scenario.dfy` derives, from the contracts alone, that a small example sentence is accepted.
- `med_spec.dfy` has the cost model, the distance recurrence, alignments, and the optimality of the distance.
- `med.dfy` has the matrix fill, traceback and relabelling. The matrices are lists of rows (`seq<seq<int>>`), indexed as in the source. The fill is proved to obey the cell recurrence, and a separate induction turns that into the distances and tags of `med_spec.dfy`.

Notes on how the source is read:
- In the Python code, the loops `for station in table.stations` run over a list that the loop body appends to. They therefore also visit the stations added during the loop. The walks here (`BacktrackSelf`, `CompleteWalk`, `PredictWalk`) do the same: they step through a growing sequence by position.
- `_step_2` is `_step_5` for table 0, where every origin is 0. `_step_3` is `_step_6` for table 0. Each pair is one function here.
- Scanning compares with the first category listed for a token only (`word_type_dict[token][0]`). Textbook Earley scans every category of an ambiguous token; this code uses only `word_type_dict[token][0]`, and the model follows the code.
- A token missing from the dictionary, or one with an empty category list, makes the source raise. Here that becomes `Fail(UnknownToken)` or `Fail(NoCategory)`.
- The source has no accept function. `Accepts` is a specification-level query used only in the soundness theorem and the worked example.
- For two empty strings, the traceback in med.py walks off the matrix and raises an index error. Here that is the `TracebackOutOfRange` outcome.

## Model

| member | source | states |
|---|---|---|
| EarleyItems.FirstDot | earley_parser.py:77-81 | the first position holding the dot, with no dot before it, or -1 exactly when the body has no dot |
| EarleyItems.MoveDot | earley_parser.py:62-73 | with no dot, the dot is inserted at the front; a dot that is not last swaps with the symbol after it; a dot that is last stays; the number of dots becomes 1 or is kept; the symbols other than the dot keep their order |
| EarleyItems.KindsExclusive | earley_parser.py:86-99 | no symbol is both upper-case and lower-case, and the dot marker is neither |
| EarleyItems.MoveDotAdvances | earley_parser.py:62-73 | on a rendered item, `_move_dot` gives the item advanced by one, or the item itself when it is complete |
| EarleyItems.MoveDotPredicts | earley_parser.py:123-127 | `_move_dot` on a grammar body without a dot gives the body with the dot at position 0 |
| EarleyItems.RenderedExpand | earley_parser.py:76-86 | `IsExpand`, the model of `is_expand`, is (false, None) when the dot is last, and otherwise the case test and the symbol after the dot; its flag holds exactly when the item waits for a nonterminal |
| EarleyItems.RenderedInput | earley_parser.py:89-99 | `IsInput`, the model of `is_input`, holds exactly when the symbol after the dot is lower-case and equal to the terminal |
| EarleyItems.RenderedBacktrack | earley_parser.py:102-103 | `IsBacktrack`, the model of `is_backtrack`, holds exactly when the dot is last, that is, when the item is complete |
| EarleyItems.RenderedBacktrackMatch | earley_parser.py:139-140 | `BacktrackMatch`, the inner test of `_backtrack`, finds `nt` right after the dot exactly when the item waits for `nt` |
| EarleyItems.StationEquality | earley_parser.py:15-21 | structural station equality over (inp, out, idx) coincides with item equality |
| EarleyTables.Productions | earley_parser.py:42-49 | one grammar station per production listed under the key, in list order |
| EarleyTables.BuildGrammar | earley_parser.py:39-49 | a rule is a grammar station exactly when its body is listed under its key |
| EarleyTables.IsOverlap | earley_parser.py:107-113 | adding the station leaves the station set unchanged exactly when the station is already in the table |
| EarleyTables.AddStation | earley_parser.py:128-129 | the guarded append keeps the old list as a prefix, adds exactly the new station, keeps the list duplicate-free, and grows it only when the station is new |
| EarleyTables.TableBound | earley_parser.py:151-168 | a table with the invariant never holds more stations than its finite universe of (rule, dot, origin) items, which bounds every loop |
| EarleyTables.Expand | earley_parser.py:123-129 | the destination gains exactly the predictions of the nonterminal's productions (dot 0, origin the destination's index), keeps its old stations as a prefix, and stays duplicate-free |
| EarleyTables.ExpandOk | earley_parser.py:123-129 | prediction keeps the table invariant (productions of the grammar, origin bound, no duplicates) |
| EarleyTables.ScanInto | earley_parser.py:200-202 | exactly the source stations whose next symbol is the lower-case terminal are added, advanced by one with their origin kept |
| EarleyTables.BacktrackFrom | earley_parser.py:137-145 | exactly the stations of the origin table waiting for the nonterminal are added, advanced past it |
| EarleyTables.BacktrackSelf | earley_parser.py:137-145 | completing into the same table keeps the invariant, adds only advanced stations of the table, and leaves every visited waiting station advanced in it |
| EarleyParser.CompleteStep | earley_parser.py:211-214 | one station of the Complete loop: a station that is not complete changes nothing; a complete one keeps the invariant and adds only stations of its origin table advanced over its nonterminal; when it adds nothing, that station is already propagated |
| EarleyParser.CompleteWalk | earley_parser.py:207-214 | the Complete pass keeps the invariant, adds only completions of complete stations in the final table, and when it adds nothing every complete station is already propagated |
| EarleyParser.PredictWalk | earley_parser.py:217-224 | the Predict pass keeps the invariant, adds only predictions for waiting stations, and leaves every station it visits with its nonterminal predicted |
| EarleyParser.PredictStep | earley_parser.py:221-224 | one station of the Predict loop: the table gains exactly the productions of the symbol after the dot when the station waits for a nonterminal, and nothing otherwise; the invariant is kept |
| EarleyParser.Pass | earley_parser.py:163-164 | one repetition of Complete then Predict keeps the table invariant and only grows the table |
| EarleyParser.Close | earley_parser.py:162-168 | the closure loop stops at a table on which one more pass changes nothing, which is closed under Complete and Predict |
| EarleyParser.Seed | earley_parser.py:173-176 | table 0 starts with exactly the predictions of `S` at column 0 |
| EarleyParser.Scan | earley_parser.py:195-204 | the scan fails exactly for an unknown or uncategorised token, and otherwise builds table idx holding exactly the advanced stations of table idx-1 expecting the first category |
| EarleyParser.ScanOk | earley_parser.py:195-204 | a scanned table keeps the table invariant with the origin bound |
| EarleyParser.NextTable | earley_parser.py:160-168 | for a known token, the scanned and closed table gets index len(chart), is closed under Complete and Predict against the chart, and extends the chart with every invariant kept |
| EarleyParser.ExtendChart | earley_parser.py:159-168 | appending a table that holds the scan of the next token and is closed against the chart keeps the chart invariant, closure and scans |
| EarleyParser.ParseFrom | earley_parser.py:159-168 | the token loop succeeds exactly when every remaining token is known, reports the first unknown one otherwise, and extends the chart to one table per position with every invariant |
| EarleyParser.Parse | earley_parser.py:148-168 | parse succeeds exactly when all tokens are known; the chart has len(tokens)+1 tables with tables[k].idx == k, each duplicate-free with origins bounded, seeded, closed and holding every scan |
| EarleySoundness.Categories | earley_parser.py:196 | the sentence the scanner sees is the first category of each token |
| EarleySoundness.PredictionValid | earley_parser.py:123-129 | a predicted station is valid: it derives the empty span |
| EarleySoundness.CompletionValid | earley_parser.py:137-145 | advancing a valid waiting station over a valid complete station gives a valid station |
| EarleySoundness.ScanValid | earley_parser.py:131-135 | advancing a valid station over the next token's category gives a valid station in the next table |
| EarleySoundness.ExpandSound | earley_parser.py:123-129 | prediction keeps every station of a table valid |
| EarleySoundness.BacktrackFromSound | earley_parser.py:137-145 | completion from an earlier table keeps every station valid |
| EarleySoundness.BacktrackSelfSound | earley_parser.py:137-145 | completion into the same table keeps every station valid |
| EarleySoundness.CompleteStepSoundness | earley_parser.py:211-214 | completing one station keeps the table sound |
| EarleySoundness.CompleteWalkSoundness | earley_parser.py:207-214 | the Complete pass keeps the table sound |
| EarleySoundness.PredictWalkSoundness | earley_parser.py:217-224 | the Predict pass keeps the table sound |
| EarleySoundness.CloseSoundness | earley_parser.py:162-168 | closing a table keeps it sound |
| EarleySoundness.ScanSoundness | earley_parser.py:195-204 | a scanned table is sound when the table before it is |
| EarleySoundness.ParseFromSoundness | earley_parser.py:159-168 | the token loop keeps every table of the chart sound |
| EarleySoundness.ParseSound | earley_parser.py:148-168 | every station of every table parse builds is valid for the tokens' first categories |
| EarleySoundness.AcceptsDerives | earley_parser.py:148-168 | a complete `S` station from column 0 in the last table implies that `S` derives the whole sentence |
| EarleyScenario.SmallGrammarRules | earley_parser.py:39-49 | the grammar built from the example dictionary holds its four productions |
| EarleyScenario.ChartPredicts | earley_parser.py:217-224 | in a parsed chart, a station waiting for a nonterminal has all its productions predicted in the same table |
| EarleyScenario.ChartScans | earley_parser.py:195-204 | in a parsed chart, a station expecting token k's first category is advanced into table k+1 |
| EarleyScenario.ChartCompletes | earley_parser.py:207-214 | in a parsed chart, a complete station advances every station of its origin table that waits for it |
| EarleyScenario.AcceptsChain | earley_parser.py:148-168 | any chart with parse's guarantees, for a grammar holding S -> NP VP, NP -> det N, N -> n, VP -> vi and tokens categorised det, n, vi, accepts |
| EarleyScenario.AcceptsParse | earley_parser.py:148-168 | parse succeeds on such inputs and its chart accepts |
| EarleyScenario.AcceptanceScenario | earley_parser.py:148-168 | "the student sat" with that grammar and dictionary parses, and its last table holds S -> NP VP . from column 0 |
| EditDistanceSpec.CostModel | min_edit_distance/med.py:5-12 | insert and delete cost 1; substitution is free exactly for equal characters and otherwise costs a delete plus an insert |
| EditDistanceSpec.MinOf3 | min_edit_distance/med.py:14-22 | the value is one of the three arguments and no greater than any; the tag is 1 exactly when b is minimal, 0 exactly when a is minimal and b is not, else 2 |
| EditDistanceSpec.Dist | min_edit_distance/med.py:40-53 | the first row holds j-1 and the first column i-1, and every cell is at most the sum of the two prefix lengths |
| EditDistanceSpec.TrackStep | min_edit_distance/med.py:64-83 | following a cell's tag stays in the matrix and the neighbour's value plus the operation's cost is the cell's value |
| EditDistanceSpec.DistMoves | min_edit_distance/med.py:49-53 | each of the three moves bounds a cell from above |
| EditDistanceSpec.DistPrefix | min_edit_distance/med.py:49-53 | a cell depends only on the prefixes of the two strings it covers |
| EditDistanceSpec.DistZero | min_edit_distance/med.py:40-53 | a cell is 0 exactly when the two prefixes are equal |
| EditDistanceSpec.AlignmentCons | min_edit_distance/med.py:68-83 | prepending a d, s or i column to an alignment gives an alignment of the extended strings whose cost grows by that operation's cost |
| EditDistanceSpec.AlignmentCostBound | min_edit_distance/med.py:40-53 | no alignment of source into target costs less than the last cell, so the distance is the minimum |
| MinEditDistance.FillMatrices | min_edit_distance/med.py:27-53 | after the fill both matrices obey the recurrence, and every cell of rows and columns 1 and on holds the distance of its prefixes and the min_of_3 tag (2 on the first row, 0 on the first column) |
| MinEditDistance.FillBorders | min_edit_distance/med.py:27-47 | zero matrices of the right shape whose corner, first row and first column obey their rules |
| MinEditDistance.FirstRow | min_edit_distance/med.py:40-43 | each cell of row 1 is one insertion more than the cell to its left, with tag 2, after a 0 corner |
| MinEditDistance.FirstColumn | min_edit_distance/med.py:45-47 | each cell of column 1 below the corner is one deletion more than the cell above, with tag 0, and row 1 keeps its rules |
| MinEditDistance.FillRow | min_edit_distance/med.py:50-53 | each inner cell of the row gets the value and tag of min_of_3 over delete from the row above, substitute from the diagonal and insert from the left; column 1 is kept |
| MinEditDistance.InstallRow | min_edit_distance/med.py:49-53 | storing such a row as row i keeps the borders' rules and adds row i's rules to those of the rows above |
| MinEditDistance.RuleStep | min_edit_distance/med.py:49-53 | an inner cell obeying its rule, with neighbours holding their distances, holds its own distance |
| MinEditDistance.RecurrenceCell | min_edit_distance/med.py:40-53 | in a matrix obeying the recurrence, every cell holds the distance of its two prefixes |
| MinEditDistance.RecurrenceInner | min_edit_distance/med.py:49-53 | the inner-cell case of that induction |
| MinEditDistance.TagStep | min_edit_distance/med.py:51-53 | an inner cell obeying its rule, with neighbours holding their distances, holds the min_of_3 tag of its prefixes |
| MinEditDistance.TagCell | min_edit_distance/med.py:40-53 | once the distances are in place, every tag is the one the recurrence of the prefixes gives |
| MinEditDistance.RecurrenceFilled | min_edit_distance/med.py:40-53 | a matrix obeying the recurrence holds every distance and every tag |
| MinEditDistance.RecurrenceTraceable | min_edit_distance/med.py:64-87 | in a matrix obeying the recurrence, the corner is 0 and every other cell's tag leads to a neighbour that accounts for its value |
| MinEditDistance.Traceback | min_edit_distance/med.py:64-87 | for m+n >= 1 the three rows the traceback builds form an alignment of the whole source into the whole target whose cost is the last cell |
| MinEditDistance.TraceFrom | min_edit_distance/med.py:64-87 | from cell (i, j), with columns already aligning the suffixes, the loop ends with an alignment of the whole strings whose cost is the columns' cost plus the cell's value |
| MinEditDistance.TraceStep | min_edit_distance/med.py:69-83 | one iteration moves to the neighbour the tag names, prepends one d, s or i column, keeps the columns an alignment of the shorter suffixes, and the columns' cost plus the cell's value stays the same |
| MinEditDistance.Relabel | min_edit_distance/med.py:94-96 | every s column with equal characters becomes a blank and no other entry changes |
| MinEditDistance.MarksWeigh | min_edit_distance/med.py:94-96 | the relabelled line, read as d and i = 1, s = 2 and blank = 0, weighs exactly the alignment's cost |
| MinEditDistance.RowsSpellInputs | min_edit_distance/med.py:68-83 | for strings without '*', dropping the gaps from the printed rows gives back source and target |
| MinEditDistance.DistanceMeaning | min_edit_distance/med.py:62 | the last cell is 0 exactly for equal strings, and no alignment costs less |
| MinEditDistance.MinimumEditDistance | min_edit_distance/med.py:24-98 | the reported distance is the last cell, is 0 exactly for equal strings, and is no greater than the cost of any alignment; for non-empty input the rows align source with target at exactly that cost and the marks weigh it; two empty strings end in the index error |

## Left out

- Printing, `__repr__`, `main`, `argparse` and the JSON grammar loading are I/O and formatting. They are not modelled.
- `copy.deepcopy` and the unused `*_for_checking` copies are not modelled. Snapshots are value semantics, and the loop tests compare station lists.
- `get_table_by_idx` is not modelled as a search. It is indexing, which is sound because of the proved `tables[k].idx == k` invariant.
- `EarleyParser.__init__` and its unused `sentences` field are not modelled. The parser's inputs are parameters of `Parse`.
- The grammar stations' origin -1 and the string index `'Grammar'` of the grammar table are not modelled, because nothing reads them. The grammar is a list of (lhs, body) rules.
- `IsUpper` and `IsLower` cover ASCII letters only. Python's Unicode case rules are not modelled.
- Tables hold abstract items. The lemmas that connect them to the raw stations need bodies that contain no `"."` symbol, so a grammar using `"."` as a symbol is not covered.
- `Parse` covers the parser's behaviour, and `Accepts` is only a query over its result. Completeness for every grammar is not proved: that every sentence derivable from `S` is accepted. It is shown for the worked example only.
- EarleySoundness.ParseSound covers the sentence of first categories, because that is what the scanner reads. It says nothing about a token's other categories.
- In med.py, rows 0 and column 0 of `dis_mat` hold the characters of the two strings as display labels. They are not modelled: the matrices here hold 0 there, and no step reads them.
- MinEditDistance.RowsSpellInputs assumes inputs without `'*'`. The source uses `'*'` as its gap character, so an input `'*'` cannot be told apart from a gap in the printed rows.
- MinEditDistance.Traceback requires m+n >= 1, as the source does. For two empty strings, `MinimumEditDistance` returns `TracebackOutOfRange` instead of calling it.
