# DigitalDiplomacy 1.0 — a verified model of the correspondence network core

DigitalDiplomacy shows a published edition of diplomatic letters as a network.
The browser application reads the letters and counts, for each person or office,
the letters it sent and received. It builds a node set and a deduplicated link
list (one link per unordered pair, with counts in both directions, and self-loops
for letters without addressee). It filters the picture by year and by a minimum
degree, parses a search query into an exact phrase and words, merges the two
server result lists, and highlights matching nodes. A search server indexes each
letter under the concatenation of its fields and cuts an excerpt around the first
match. A separate console tool walks through a text block, lets the user accept,
type or skip the corrections proposed by a spelling service, and splices them in.

The model is written in Dafny, one module per concern:

| file | module | models |
|---|---|---|
| common.dfy | `Common` | `Option`, counting, duplicate-free lists |
| text.dfy | `Text` | letter case (Latin and Cyrillic), Python/JavaScript whitespace and `trim`/`strip`, `split`/`join`, substring search, decimal digits |
| sorting.dfy | `Sorting` | the stable descending sorts of both languages |
| letters.dfy | `Letters` | letter records, sender/receiver normalisation, `filterData` |
| metrics.dfy | `Metrics` | `resetMaps` and `calculateMetrics`: a pure fold and the `MetricMaps` class that updates its dictionaries in place |
| linkgraph.dfy | `LinkGraph` | `processData`: a pure fold `Build` and the loop program `ProcessData` proved equal to it |
| linkgraph_facts.dfy | `LinkGraphFacts` | the shape of the links, one link per pair, and the node set |
| linkgraph_counts.dfy | `LinkGraphCounts` | the half-counts of every link as directional letter counts |
| linkgraph_numbers.dfy | `LinkGraphNumbers` | the letter numbers of every link |
| view.dfy | `View` | the degree filter and link validity of `updateVisualization` |
| query.dfy | `Query` | `parseSearchQuery` and `combineResults` |
| highlight.dfy | `Highlight` | the set logic of `updateHighlight` |
| spelling.dfy | `SpellCheck` | `apply_correction`, the context bounds, the choice handling and `process_block` |
| excerpt.dfy | `SearchEngine` | the combined text of `_create_new_model`, the guard of `search`, and the window of `get_relevant_excerpt` |

Loops in the source are `method`s with loop invariants. Each one is proved equal to a
specification function. The properties are then proved about that function. The shared
`maps` object is a class whose methods state its whole new state.

Parameters stand for the collaborators that are not modelled:
- the letters handed to `updateVisualization` and the threshold read from the page;
- the search term typed into the box;
- the two result lists the server returned;
- the spelling service's error lists, one per round (`replies`);
- the lines the user types (`inputs`);
- the position of the first lemma match in the text (`firstPos`).

A letter without addressee still raises each sender's `out` and `degree` in
`calculateMetrics` (app.js:121-134), so `degree` is always `out` plus `in`
(`Metrics.AccumulateCounts`).

## Model

| member | source | states |
|---|---|---|
| Letters.Receivers | code/ecoSystem/webservice/js/app.js:117-119 | the receiver list is empty exactly when the field is missing, the empty string or an empty array |
| Letters.FilterData | code/ecoSystem/webservice/js/app.js:109-113 | an empty year selection passes the data unchanged; otherwise a record remains exactly when its year is selected, and the result is no longer than the input |
| Letters.KeepYearsAppend | code/ecoSystem/webservice/js/app.js:111 | the year filter preserves order: filtering a concatenation concatenates the filtered parts |
| Metrics.BumpAllCount | code/ecoSystem/webservice/js/app.js:132-133 | `(m[k] \|\| 0) + amount` over a list raises each key by `amount` times its number of occurrences and touches exactly the listed keys |
| Metrics.NoteAllEffect | code/ecoSystem/webservice/js/app.js:121-131 | each listed entity gains the letter's number, text, title and record in its metadata (created on first use); every other entity's metadata is unchanged |
| Metrics.RecordStepCounts | code/ecoSystem/webservice/js/app.js:115-155 | one letter raises each sender's `out` and `degree` by its listings, each receiver's `in` and `degree` by the number of senders, and with no receiver each sender's `myself`; and it says which keys exist afterwards |
| Metrics.RecordStepMeta | code/ecoSystem/webservice/js/app.js:121-151 | the letter's number joins the metadata of every sender and receiver, and nobody else's metadata changes |
| Metrics.AccumulateCounts | code/ecoSystem/webservice/js/app.js:114-157 | after a full recomputation `out`, `in` and `myself` equal independent per-entity sums over the letters, and `degree` equals `out` plus `in` |
| Metrics.DegreesNonNegative | code/ecoSystem/webservice/js/app.js:114-157 | no degree of a recomputation is negative |
| Metrics.MetricMaps.constructor | code/ecoSystem/webservice/js/app.js:102-108 | a fresh `maps` object holds five empty dictionaries |
| Metrics.MetricMaps.Reset | code/ecoSystem/webservice/js/app.js:102-108 | `resetMaps` empties all five dictionaries |
| Metrics.MetricMaps.CalculateMetrics | code/ecoSystem/webservice/js/app.js:114-157 | the dictionaries move from their old state exactly as the fold `Accumulate` over the letters says |
| Metrics.MetricMaps.AddLetter | code/ecoSystem/webservice/js/app.js:115-156 | one letter's callback moves the dictionaries by exactly one `RecordStep` |
| Metrics.MetricMaps.AddSenders | code/ecoSystem/webservice/js/app.js:121-134 | the sender loop notes the letter and raises `out` and `degree` of each sender by one, leaving `in` and `myself` alone |
| Metrics.MetricMaps.AddSelfLetters | code/ecoSystem/webservice/js/app.js:136-139 | the loop for a letter without addressee raises only `myself` of each sender |
| Metrics.MetricMaps.AddReceivers | code/ecoSystem/webservice/js/app.js:141-154 | the receiver loop notes the letter and raises `in` and `degree` of each receiver by the number of senders, leaving `out` and `myself` alone |
| LinkGraph.FindLink | code/ecoSystem/webservice/js/app.js:200-203 | `links.find` gives the first link joining the pair in either orientation, and none exactly when no link joins them |
| LinkGraph.FindExisting | code/ecoSystem/webservice/js/app.js:200-203 | the search loop returns the index `links.find` denotes |
| LinkGraph.ProcessData | code/ecoSystem/webservice/js/app.js:158-231 | the loop program returns exactly the nodes and links of the fold `Build` over the letters |
| LinkGraph.ProcessLetter | code/ecoSystem/webservice/js/app.js:162-228 | one letter's callback moves the node set, links and `linkCounts` by exactly one `LetterStep` |
| LinkGraph.AddEach | code/ecoSystem/webservice/js/app.js:168 | `nodeSet.add` over a list equals `AddNodes` |
| LinkGraph.PushLoops | code/ecoSystem/webservice/js/app.js:172-186 | the loop branch pushes one self-loop per sender, as `LoopLinks` says (whose values `LinkGraphCounts.LoopLinksFacts` states) |
| LinkGraph.PushLoop | code/ecoSystem/webservice/js/app.js:173-185 | one self-loop moves the links and `linkCounts` exactly as `LoopLink` says |
| LinkGraph.LinkAllPairs | code/ecoSystem/webservice/js/app.js:191-226 | the pair loops over senders and receivers equal `Pairs` |
| LinkGraph.LinkSender | code/ecoSystem/webservice/js/app.js:192-225 | the receiver loop of one sender equals `PairsFrom` |
| LinkGraph.LinkPair | code/ecoSystem/webservice/js/app.js:193-224 | one sender–receiver pair updates the tallies and the existing link, or appends a new one, as `PairLink` says |
| LinkGraphFacts.KeyInjective | code/ecoSystem/webservice/js/app.js:193-194 | a key `a→b` determines `a` and `b` when `a` contains no arrow |
| LinkGraphFacts.LoopKeyInjective | code/ecoSystem/webservice/js/app.js:173 | loop keys `s→s` never collide, whatever the names contain |
| LinkGraphFacts.PairLinkValid | code/ecoSystem/webservice/js/app.js:193-224 | a pair update keeps every link well-shaped and never creates a second link for a pair |
| LinkGraphFacts.LetterStepValid | code/ecoSystem/webservice/js/app.js:162-228 | one letter keeps the graph valid: well-shaped links, one link per pair, duplicate-free nodes |
| LinkGraphFacts.ProcessDataShape | code/ecoSystem/webservice/js/app.js:158-231 | every link's `count` is the sum of its halves and its numbers are distinct, and no non-loop link shares its pair with an earlier link |
| LinkGraphFacts.LetterStepNodes | code/ecoSystem/webservice/js/app.js:168-189 | one letter adds exactly its senders and receivers (or senders only, in the loop branch where the receiver is a sender) to the nodes, and links keep joining nodes |
| LinkGraphFacts.ProcessDataNodes | code/ecoSystem/webservice/js/app.js:161-229 | the nodes are the distinct names occurring as a sender or receiver of some letter, and every link joins two nodes |
| LinkGraphCounts.LoopLinksOwnTally | code/ecoSystem/webservice/js/app.js:172-175 | the loop branch raises the tally of `s→s` by the number of listings of `s` among the senders |
| LinkGraphCounts.LoopLinksFacts | code/ecoSystem/webservice/js/app.js:170-186 | the loop branch keeps the earlier links and appends exactly one link per sender listing, in order; the `k`-th goes from the sender to itself, is a loop, and has `count` and `countAtoB` equal to the running tally of `s→s` (earlier letters plus the listings up to and including this one) and `countBtoA` 0 |
| LinkGraphCounts.PairLinkTally | code/ecoSystem/webservice/js/app.js:195-198 | a pair update raises the tally of `sender→receiver` by one and no other tally |
| LinkGraphCounts.PairLinkTracks | code/ecoSystem/webservice/js/app.js:193-224 | a pair update keeps each link's halves equal to the tallies of its two directions and `bidirectional` equal to "the reverse count is positive" |
| LinkGraphCounts.PairsTally | code/ecoSystem/webservice/js/app.js:191-226 | a letter's pair loops raise the tally of `a→b` by (listings of `a` among senders) × (listings of `b` among receivers) |
| LinkGraphCounts.BuildTally | code/ecoSystem/webservice/js/app.js:158-231 | after all letters the tally of `a→b` (for `a ≠ b`) is the number of sender–receiver pairings from `a` to `b` |
| LinkGraphCounts.ProcessDataCounts | code/ecoSystem/webservice/js/app.js:193-224 | for names without an arrow, each non-loop link's `countAtoB` and `countBtoA` are the pairings in its two directions, `count` is their sum, `bidirectional` holds exactly when the reverse count is positive, and every pair with a pairing has a link |
| LinkGraphNumbers.PairLinkNew | code/ecoSystem/webservice/js/app.js:214-224 | a pair with no link yet gets one appended after the others, from sender to receiver, not a loop, with `count` 1, `numbers` holding only this letter's number, `countAtoB` 1, `countBtoA` 0 and not bidirectional |
| LinkGraphNumbers.PairLinkFound | code/ecoSystem/webservice/js/app.js:199-213 | the link `links.find` returns keeps its position, ends and kind; its `numbers` gain the letter's number at the end unless already listed; no other link changes |
| LinkGraphNumbers.PairLinkNumbers | code/ecoSystem/webservice/js/app.js:193-224 | a pair update adds the letter's number to the numbers of its own pair and leaves the numbers of every other pair of different entities unchanged |
| LinkGraphNumbers.LetterStepNumbers | code/ecoSystem/webservice/js/app.js:162-228 | one letter adds its number to a pair's numbers exactly when it goes through the pair branch with one of the two among its senders and the other among its receivers |
| LinkGraphNumbers.ProcessDataNumbers | code/ecoSystem/webservice/js/app.js:158-231 | for two different entities, every link joining them lists each number once, and lists exactly the numbers of the letters outside the loop branch that pair them as sender and receiver in either direction; a link joins them exactly when such a letter exists |
| View.KeepNodes | code/ecoSystem/webservice/js/app.js:82-84 | the kept nodes are exactly those whose degree (missing reads as 0) reaches the threshold, and there are no more of them than nodes |
| View.KeepNodesAppend | code/ecoSystem/webservice/js/app.js:82-84 | the node filter preserves order: filtering a concatenation concatenates the filtered parts |
| View.ValidLinksAppend | code/ecoSystem/webservice/js/app.js:92-96 | the link filter preserves order in the same way |
| View.KeepNodesDistinct | code/ecoSystem/webservice/js/app.js:82-84 | filtering duplicate-free nodes keeps them duplicate-free |
| View.ValidLinks | code/ecoSystem/webservice/js/app.js:92-96 | a link is kept exactly when its source remains and, unless it is a loop, its target remains |
| View.KeepNodesZero | code/ecoSystem/webservice/js/app.js:82-84 | with non-negative degrees and a threshold of at most 0 every node is kept |
| View.ValidLinksAll | code/ecoSystem/webservice/js/app.js:92-96 | when all endpoints remain, every link is kept |
| View.VisibleShape | code/ecoSystem/webservice/js/app.js:80-96 | the shown nodes are the distinct names of degree at least the threshold, and every shown link is a built link with surviving endpoints; "no data" exactly when no name reaches the threshold |
| View.VisibleUnfiltered | code/ecoSystem/webservice/js/app.js:81-96 | a threshold of at most 0 shows the whole graph, or "no data" exactly when there are no nodes |
| View.UpdateVisualization | code/ecoSystem/webservice/js/app.js:70-96 | after the call the counters are the recomputation over the shown letters alone, and the picture is `Visible` |
| Query.Words | code/ecoSystem/webservice/js/app.js:703 | `split(/\s+/)` without empty strings yields non-empty words without whitespace |
| Query.WordsTrim | code/ecoSystem/webservice/js/app.js:702-703 | trimming before splitting does not change the words |
| Query.WordsJoin | code/ecoSystem/webservice/js/app.js:703 | splitting non-empty space-free words joined by single spaces gives them back |
| Query.FindPhrase | code/ecoSystem/webservice/js/app.js:700 | `/"(.*?)"/` finds the leftmost quote followed by a next quote with no line terminator between, or nothing |
| Query.IndexOf | code/ecoSystem/webservice/js/app.js:702 | the first occurrence of the pattern, or none exactly when it does not occur |
| Query.ParseSearchQuery | code/ecoSystem/webservice/js/app.js:699-708 | the phrase contains no quote, and the words are non-empty and space-free |
| Query.ParseUnmatched | code/ecoSystem/webservice/js/app.js:699-708 | when the pattern does not match (no quote, or a quote never closed on its line) the phrase is `null` and the words are those of the whole query, quotes included |
| Query.ParseEmptyPhrase | code/ecoSystem/webservice/js/app.js:699-708 | an empty phrase `""` is returned as the phrase but, being falsy, leaves the words to be taken from the whole untrimmed query |
| Query.ParseNoQuote | code/ecoSystem/webservice/js/app.js:699-708 | a query without a quote has no phrase and its words are those of the whole query |
| Query.PhraseIsFirstOccurrence | code/ecoSystem/webservice/js/app.js:700-702 | the quoted phrase the match finds is the first occurrence of itself, so `replace` cuts out exactly the match |
| Query.ParsePhrase | code/ecoSystem/webservice/js/app.js:699-708 | with a non-empty phrase, the words are those of the query with the quoted phrase cut out |
| Query.ParseQuoted | code/ecoSystem/webservice/js/app.js:699-708 | a query `a "p" b` without earlier quote gives back `p` and the words of `a` and `b` |
| Query.CombineResults | code/ecoSystem/webservice/js/app.js:709-727 | the two loops build the insertion-ordered map `Merge`, and the result is that map sorted by descending score |
| Query.PutFacts | code/ecoSystem/webservice/js/app.js:712-716 | `Map.set` keeps keys distinct, overwrites in place and adds new keys |
| Query.MergeFacts | code/ecoSystem/webservice/js/app.js:709-725 | one entry per letter number from either list; it is marked exact exactly when an exact hit has that number, and is then the last such hit with score ×1.5, otherwise the first word hit unchanged |
| Sorting.SortDesc | code/ecoSystem/webservice/js/app.js:726 | the ranking is a permutation of the merged entries, sorted by descending score |
| Highlight.UpdateHighlight | code/ecoSystem/webservice/js/app.js:589-621 | an empty lower-cased term clears every class; otherwise nodes are highlighted exactly when connected to a match, links are dimmed unless both ends are connected, and selected when they touch a match |
| Highlight.HighlightFacts | code/ecoSystem/webservice/js/app.js:597-621 | matches are connected, selected links are never dimmed, each node is highlighted or dimmed and not both, and a connected non-match is the other end of a link to a match |
| Text.Lower | code/ecoSystem/webservice/js/app.js:590 | lower-casing maps each character by the case table and keeps the length |
| Text.Trim | code/spell_checking_semi_auto/script_spell_checking.py:124 | `strip()` removes exactly the leading and trailing whitespace |
| Text.JoinSplit | code/spell_checking_semi_auto/script_spell_checking.py:47-48 | `'-'.join(s.split('-'))` is `s` |
| SpellCheck.ApplyCorrectionSplice | code/spell_checking_semi_auto/script_spell_checking.py:35-50 | the text before the span and after it is kept and the (case-adjusted) correction sits in between, with the matching length |
| SpellCheck.AdjustCaseRules | code/spell_checking_semi_auto/script_spell_checking.py:41-48 | a title-case span gives a title-case correction, an upper-case span an upper-case one, a hyphenated span capitalises each part, and otherwise the correction is used verbatim |
| SpellCheck.AdjustCaseVerbatim | code/spell_checking_semi_auto/script_spell_checking.py:41 | a span with nothing to lower-case leaves the correction as typed |
| SpellCheck.ApplyOriginal | code/spell_checking_semi_auto/script_spell_checking.py:35-50 | putting back an original span without upper-case letters leaves the text unchanged |
| SpellCheck.ContextBounds | code/spell_checking_semi_auto/script_spell_checking.py:100-101 | the context window ends within the text |
| SpellCheck.ContextCoversError | code/spell_checking_semi_auto/script_spell_checking.py:100-101 | the context reaches at most `context_window` characters beyond either side of the error, and contains the whole error span when the span lies inside the text |
| SpellCheck.Offered | code/spell_checking_semi_auto/script_spell_checking.py:64 | at most `suggestions_limit` suggestions are offered: the leading ones of the service's list |
| SpellCheck.GetUserChoice | code/spell_checking_semi_auto/script_spell_checking.py:114-129 | the loop returns the first typed line that, stripped and lower-cased, is `s`, `m`, `q` or a number from 1 to the suggestion count, with the remaining input; or nothing when the input runs out |
| SpellCheck.HandleValidChoice | code/spell_checking_semi_auto/script_spell_checking.py:131-139 | for a validated choice there is never an index error; `m` takes the next input line stripped and consumes it, or ends the input when none is left; `q` and only `q` interrupts; a number picks that suggestion; `s` is the empty correction |
| SpellCheck.ByPosDesc | code/spell_checking_semi_auto/script_spell_checking.py:62 | the errors are visited as a permutation sorted by descending position |
| SpellCheck.SkipAsWrittenDeletes | code/spell_checking_semi_auto/script_spell_checking.py:71-77 | as written, answering `s` deletes the error span and records a change |
| SpellCheck.SkipKeepsText | code/spell_checking_semi_auto/script_spell_checking.py:71-73 | with the intended skip test on `s` (`StepFixed`), skipping leaves the text and the change flag as they were |
| SpellCheck.RunRound | code/spell_checking_semi_auto/script_spell_checking.py:60-90 | one round's loop over the sorted errors, with the skip test on `'skip'` as written, equals `Round` |
| SpellCheck.ProcessBlock | code/spell_checking_semi_auto/script_spell_checking.py:52-95 | the `while True` loop as written returns the text and end state of `Checked`: rounds repeat until the service reports no errors or a round changes nothing |
| SpellCheck.StepsKeepPrefix | code/spell_checking_semi_auto/script_spell_checking.py:71-77 | a step, as written or with the intended skip test, changes the text only from the error's position on |
| SpellCheck.RoundPrefix | code/spell_checking_semi_auto/script_spell_checking.py:62-77 | a round of the program as written whose errors all start at or after `p` keeps the first `p` characters |
| SpellCheck.RoundSplit | code/spell_checking_semi_auto/script_spell_checking.py:62-90 | a round over the errors is the round over the first `k` followed by the round over the rest |
| SpellCheck.OffsetsStayValid | code/spell_checking_semi_auto/script_spell_checking.py:62-77 | in the program as written, with non-overlapping spans inside the text visited by descending position, every error still finds its original span when reached |
| SpellCheck.RoundSkipsAsWritten | code/spell_checking_semi_auto/script_spell_checking.py:62-89 | as written, answering `s` to every error of a round runs through the whole round, uses one line per error, and records a change as soon as there is an error |
| SpellCheck.RoundSkipsDeleteAll | code/spell_checking_semi_auto/script_spell_checking.py:62-89 | as written, answering `s` to every one of non-overlapping spans inside the text, visited by descending position, shortens the text by exactly their total length: every span is deleted |
| SpellCheck.BlockSkipsAsWritten | code/spell_checking_semi_auto/script_spell_checking.py:55-93 | as written, a block whose first errors are all answered `s` ends its round with a change, so the service is asked again about the shortened text with the remaining input |
| SpellCheck.RoundAllSkipped | code/spell_checking_semi_auto/script_spell_checking.py:71-73 | with the intended skip test (`RoundFixed`), skipping every error of a round leaves the text and the change flag unchanged |
| SpellCheck.BlockAllSkipped | code/spell_checking_semi_auto/script_spell_checking.py:55-93 | with the intended skip test (`CheckedFixed`), a block whose first errors are all skipped comes back unchanged after a single round |
| Text.DecimalValue | code/ecoSystem/webservice/search_engine.py:76 | `int(str(n)) == n` |
| SearchEngine.CombinedTexts | code/ecoSystem/webservice/search_engine.py:62-77 | one combined text per letter, each the concatenation `CombinedText` over the fields in list order |
| SearchEngine.CombineHasFields | code/ecoSystem/webservice/search_engine.py:70-76 | every covered field the letter has occurs in its combined text, preceded by a space |
| SearchEngine.CombineIgnores | code/ecoSystem/webservice/search_engine.py:62-76 | adding a field changes the combined text exactly when it is one of the covered fields |
| SearchEngine.CombineLonger | code/ecoSystem/webservice/search_engine.py:71-76 | adding a covered field makes the combined text strictly longer |
| SearchEngine.CombineTail | code/ecoSystem/webservice/search_engine.py:71 | missing fields add nothing, so a letter with no covered field is indexed under the empty text |
| SearchEngine.SearchQuery | code/ecoSystem/webservice/search_engine.py:112-113 | the search goes on exactly for a non-empty string query, with that query, and answers `[]` otherwise |
| SearchEngine.RFindChar | code/ecoSystem/webservice/search_engine.py:169 | `rfind` gives the last position before the bound holding the character, or -1 when there is none |
| SearchEngine.FindChar | code/ecoSystem/webservice/search_engine.py:173 | `find` gives the first position from the bound holding the character, or -1 when there is none |
| SearchEngine.Head | code/ecoSystem/webservice/search_engine.py:156-158 | the first `window` characters, with `...` appended exactly when the text is longer |
| SearchEngine.Centre | code/ecoSystem/webservice/search_engine.py:161-165 | `0 <= start <= end <= len(text)`, the window is `min(window, len(text))` long, and it contains the match position |
| SearchEngine.SnapStart | code/ecoSystem/webservice/search_engine.py:168-171 | the start moves back to just after the last space before it, stays put when there is none, and never crosses a space |
| SearchEngine.SnapEnd | code/ecoSystem/webservice/search_engine.py:172-175 | the end moves forward to the next space at or after it, stays put when there is none, and never crosses a space |
| SearchEngine.Framed | code/ecoSystem/webservice/search_engine.py:177-181 | the excerpt is the slice between the bounds, with `...` before exactly when the start is past 0 and after exactly when the end is before the text's end |
| SearchEngine.ExcerptBounds | code/ecoSystem/webservice/search_engine.py:160-175 | the reassignments of `start` and `end` compute `Window` |
| SearchEngine.GetRelevantExcerpt | code/ecoSystem/webservice/search_engine.py:133-181 | empty text or query gives `""`; no match position gives the head of the text; a position gives the framed window around it |
| SearchEngine.ExcerptShowsMatch | code/ecoSystem/webservice/search_engine.py:160-181 | the matched character appears in the excerpt, inside a slice at least as long as the window or the text |
| SearchEngine.ExcerptOnWordBoundaries | code/ecoSystem/webservice/search_engine.py:167-175 | the excerpt starts at the text's start or after a space, and ends at its end or at a space, unless no space lies beyond the centred window |
| SearchEngine.ShortTextWhole | code/ecoSystem/webservice/search_engine.py:143-181 | a text no longer than the window is shown whole, without ellipsis, wherever the match is |

## Left out

- D3 rendering, the force simulation, zoom and drag, tooltips, popups and the letter modal (app.js:232-588, app.js:623-698): DOM and library glue with floating-point scales.
- `d3.json`, the debounced search handler and the requests to the server: I/O. Their results enter as parameters.
- The page inputs: the year selection, the minimum-links field and the search box value are parameters. `+value || 0` is taken as already converted to an integer.
- Letter case covers the Latin letters and the basic Cyrillic block. Other scripts are treated as uncased, and `lower()` is modelled as length-preserving.
- `isdigit()` is modelled for ASCII digits only. Python also accepts other Unicode digits.
- Letters.Senders: a missing sender becomes the property name `"undefined"`, and a `null` sender is modelled the same way. In JavaScript a `null` sender becomes the key `"null"` and a node `null`, so a null-sender letter and an undefined-sender letter are kept apart by the code but merged in the model. In `processData` (app.js:163, 168, 229) a letter with no sender gives the node id `undefined`, and a `null` sender gives the node id `null`. Neither is a string. A sender spelled as the string `"undefined"` (or `"null"`) is therefore a second, separate node in the code's `Set`, while the model has one node for both. The `linkCounts` keys of the two do coincide in the code, as in the model. Names that are `Object.prototype` properties (`constructor`, `toString`, `__proto__`) are treated as ordinary keys. In the code they break `if (!maps.meta[sender])` and `.numbers.add` (app.js:122-127 throws), as well as `(maps.out[x] || 0) + 1`.
- LinkGraphCounts.ProcessDataCounts: proved only for names without `→`. A name with the arrow can make two `linkCounts` keys collide.
- Query.Hit: only the letter number and the score are modelled; the other fields of a result ride along unchanged. Scores are `real`, not IEEE floats.
- Sorting.SortDesc: stability (equal keys keep their arrival order) is built into the definition but not stated as a proved property.
- Highlight.UpdateHighlight: the term is lower-cased like the node ids, and D3's `.each` order over the drawn elements is the order of the given lists. Node ids are strings in the model. In the code, a drawn node whose id is `undefined` or `null` (a letter without a sender, see the `Letters.Senders` line) makes `d.id.toLowerCase()` (app.js:599) throw for any non-empty term. The classes were already cleared (app.js:591-595), so nothing is highlighted. The model instead treats such a node as the string `"undefined"`, which a term such as `und` marks.
- SpellCheck.ProcessBlock:
  - the spelling service is a finite list of replies, and an exhausted list means "no errors", so the loop ends;
  - the Yandex HTTP call, its retries, `log_correction`, all printing, file handling and argparse are left out;
  - `KeyboardInterrupt` and end of input are end states, not exceptions.
- SpellCheck.RoundSkipsDeleteAll: states the length the text loses and, through `RoundPrefix`, the text before the spans. The characters between the spans are not stated position by position.
- SpellCheck.ContextBounds: the highlighted context string itself (`re.sub` with ANSI colours) is not modelled, only its bounds.
- SpellCheck.HandleChoice: `suggestions[int(choice) - 1]` for choice `0` follows Python's negative index. An index out of range is modelled as the `IndexError` end state.
- SearchEngine.GetRelevantExcerpt:
  - spaCy lemmatisation is a parameter: `firstPos` is the reported match position, or `None` when there is no lemma or no match;
  - the highlighting loop (search_engine.py:184-193) is left out.
- SearchEngine.CombinedTexts: `preprocess_text` (regular expressions and lemmatisation), the TF-IDF vectoriser, cosine similarity and the ranking of `search` are left out.
- SearchEngine.AtomText: JSON floats and nested lists or objects are not modelled; a field value is a string, integer, boolean, null or a list of those.
- The pickle model cache, the Flask routes, CORS and `lru_cache`: I/O and framework code.

## Findings

| source | as written | input that shows it | evidently intended | confidence | as-written member | corrected member |
|---|---|---|---|---|---|---|
| code/spell_checking_semi_auto/script_spell_checking.py:72 | the skip test compares the choice with `'skip'`, but `_get_user_choice` returns `'s'`; so `s` falls through to `_handle_choice`, which returns `''`, and the span is deleted | an error with `len` 1 inside the text, answered `s` | answering `s` skips the error and leaves the text unchanged | not executed | SpellCheck.SkipAsWrittenDeletes | SpellCheck.SkipKeepsText |
