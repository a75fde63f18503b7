# Turkish sentence normalizer: a Dafny model

This project models the core of zemberek's `TurkishSentenceNormalizer` and proves properties of it. The normalizer turns noisy Turkish text (ASCII-folded letters, misspellings, informal morphology) into standard written form, one word per token. It has three parts:

- **Lookup tables** (`loadMultiMap`). Lines of the form `key=val1,val2` become an ordered multimap. Repeated keys accumulate values. A line without `=` is a configuration error.
- **Candidate fusion** (the loop body of `normalize`). Each token's candidates come from four sources:
  - the random-walk table;
  - the ASCII table;
  - the informal-morphology analyses;
  - the gated spelling corrector (`getSpellCandidates`).

  They are collected into a linked hash set that falls back to the token itself.
- **Lattice decoder** (`decode`). This is a Viterbi search over `(history, current)` states. The search is seeded with `order - 1` start symbols and closed by an end symbol. Hypotheses are merged by key, keeping the better score, and the best path is found by backtracking.

Modules, following the source's structure:

| file | module | models |
|---|---|---|
| `wrappers.dfy` | `Wrappers` | `Option`, `Result` |
| `text.dfy` | `Text` | `String.indexOf`, `String.trim`, Guava's comma splitter with `trimResults` |
| `lookup_table.dfy` | `LookupTable` | `ArrayListMultimap`, `loadMultiMap` |
| `ordered_set.dfy` | `OrderedSet` | `LinkedHashSet` as a duplicate-free sequence |
| `candidate_fusion.dfy` | `CandidateFusion` | the per-token candidate loop, `getSpellCandidates` |
| `lattice.dfy` | `Lattice` | `Candidate`, `Hypothesis` and their equality; START/END; successor construction; path keys and scores |
| `beam.dfy` | `Beam` | the active list: an arena of hypotheses plus a key-to-slot map |
| `decoder.dfy` | `Decoder` | `decode`: steps, arenas, backtracking, optimality |
| `history_copy.dfy` | `HistoryCopy` | the history-array statements at Java-array level (see Findings) |
| `brute_force.dfy` | `BruteForce` | exhaustive path enumeration, used as the reference for the decoder |
| `normalizer.dfy` | `Normalizer` | `normalize`: the end-to-end pipeline and concrete scenarios |

Design decisions:

- **Collaborators are uninterpreted.** The external services are function-typed fields of `CandidateFusion.Services`:
  - the analyzer and generator;
  - `isWord` and `hasAnalysis`;
  - the spell checker;
  - the two tables.

  The language model is `Lattice.LanguageModel`: an order, a vocabulary index and a log-probability over index tuples. The preprocessor and tokenizer are fields of `Normalizer.Normalizer`.
- **Equality is structural.** Candidates are equal by content, and hypotheses are identified by `Key(history, current)`. This matches the overridden `equals`/`hashCode`.
- **Active list.** `ActiveList` is not part of this model. It is replaced by an explicit key-to-best map. On a tie the hypothesis seen first stays: a newcomer replaces the kept one only on a strictly greater score. `getBest` is taken to return the earliest hypothesis of maximal score.
- **Backtracking uses indexes.** Each hypothesis stores the index of its predecessor in the previous step's arena. The walk stops after as many steps as there are real tokens. The source instead stops at the reference-identical `START`. The two agree, because no hypothesis other than the seed holds the `START` object as its current candidate: the others hold candidates built on line 152, or the shared `END`.
- **Scores are integers.** They are additive log-domain values, not floats.

## Model

| member | source | states |
|---|---|---|
| Text.IndexOf | normalization/src/main/java/zemberek/normalization/TurkishSentenceNormalizer.java:75 | the first position of the character, or none exactly when the string does not contain it; no earlier position holds it |
| Text.JavaTrim | normalization/src/main/java/zemberek/normalization/TurkishSentenceNormalizer.java:80-81 | the result is the input with a prefix and a suffix of characters up to U+0020 removed, and it neither starts nor ends with such a character |
| Text.WhitespaceTrim | normalization/src/main/java/zemberek/normalization/TurkishSentenceNormalizer.java:83 | the same, for Guava's whitespace set as `trimResults` uses it |
| Text.StripKeepsAbsence | normalization/src/main/java/zemberek/normalization/TurkishSentenceNormalizer.java:80-83 | trimming never introduces a character, so a trimmed key has no `=` and a trimmed piece has no `,` |
| Text.StripUnchanged | normalization/src/main/java/zemberek/normalization/TurkishSentenceNormalizer.java:80-83 | a string whose ends need no trimming is left as it is |
| Text.SplitOn | normalization/src/main/java/zemberek/normalization/TurkishSentenceNormalizer.java:83 | splitting on a separator gives at least one piece, no piece contains the separator, and joining the pieces back gives the input |
| Text.SplitJoin | normalization/src/main/java/zemberek/normalization/TurkishSentenceNormalizer.java:83 | conversely, splitting a join of separator-free pieces gives the pieces back |
| LookupTable.PutAll | normalization/src/main/java/zemberek/normalization/TurkishSentenceNormalizer.java:84-87 | `put` of each value appends it to the key's list in order; other keys are unchanged, and no key is left with an empty list |
| LookupTable.Get | normalization/src/main/java/zemberek/normalization/TurkishSentenceNormalizer.java:110-114 | `multimap.get`: the values of a key, empty when it was never put; `Load` states what a loaded table returns for every key |
| LookupTable.TrimPieces | normalization/src/main/java/zemberek/normalization/TurkishSentenceNormalizer.java:83 | each piece is trimmed independently, and the count is kept |
| LookupTable.ParseValues | normalization/src/main/java/zemberek/normalization/TurkishSentenceNormalizer.java:82-88 | at least one value; without a comma, exactly the whole value; with one, the values are the whitespace-trimmed comma-free pieces that join back to the text, one per piece, in order, empty pieces kept |
| LookupTable.ParseLine | normalization/src/main/java/zemberek/normalization/TurkishSentenceNormalizer.java:75-88 | a line fails exactly when it has no `=`, with the error naming that line; otherwise the key is the `String.trim` of the text before the first `=`, and the values are those of the trimmed text after it |
| LookupTable.EmptyPieceKept | normalization/src/main/java/zemberek/normalization/TurkishSentenceNormalizer.java:82-88 | `a,,b` gives the three values `a`, the empty string and `b`: like Guava's splitter, the parser keeps empty pieces |
| LookupTable.FirstMissing | normalization/src/main/java/zemberek/normalization/TurkishSentenceNormalizer.java:74-79 | the first line without `=`, if any: every earlier line has one |
| LookupTable.Load | normalization/src/main/java/zemberek/normalization/TurkishSentenceNormalizer.java:71-91 | loading fails exactly when some line lacks `=`, naming the first such line; otherwise each key's values are every line's values for that key, concatenated in file order, and no key has an empty list |
| LookupTable.LoadRejectsMissingSeparator | normalization/src/main/java/zemberek/normalization/TurkishSentenceNormalizer.java:75-79 | a line without `=` anywhere in the file means no table is produced |
| LookupTable.LoadAccumulates | normalization/src/main/java/zemberek/normalization/TurkishSentenceNormalizer.java:80-88 | repeated keys accumulate: one more line appends its values to its key's earlier values and changes no other key |
| LookupTable.LoadSingle | normalization/src/main/java/zemberek/normalization/TurkishSentenceNormalizer.java:71-91 | a one-line file gives that line's entry put into an empty table, or that line's error |
| LookupTable.ValuesRoundTrip | normalization/src/main/java/zemberek/normalization/TurkishSentenceNormalizer.java:82-85 | two or more clean values joined by commas split and trim back to themselves |
| LookupTable.ParseJoined | normalization/src/main/java/zemberek/normalization/TurkishSentenceNormalizer.java:81-88 | clean values written as a value text are parsed back to themselves, through both branches of the comma test |
| LookupTable.FormatSplits | normalization/src/main/java/zemberek/normalization/TurkishSentenceNormalizer.java:75-81 | in a written line, the first `=` is the one right after the key |
| LookupTable.ParseFormatted | normalization/src/main/java/zemberek/normalization/TurkishSentenceNormalizer.java:75-88 | round trip: parsing a written line with a clean key and clean values gives back the entry |
| OrderedSet.FirstIndex | normalization/src/main/java/zemberek/normalization/TurkishSentenceNormalizer.java:107-148 | the first occurrence of an element: it is there, and not before |
| OrderedSet.Add | normalization/src/main/java/zemberek/normalization/TurkishSentenceNormalizer.java:125-130 | `LinkedHashSet.add`: keeps the set duplicate-free, adds exactly the element, and keeps the earlier elements in place |
| OrderedSet.AddAll | normalization/src/main/java/zemberek/normalization/TurkishSentenceNormalizer.java:110-114 | `addAll`: duplicate-free, holds exactly the old and new elements, and keeps the earlier elements in place |
| OrderedSet.AddAllConcat | normalization/src/main/java/zemberek/normalization/TurkishSentenceNormalizer.java:110-142 | adding two batches one after the other equals adding their concatenation |
| OrderedSet.AddOrder | normalization/src/main/java/zemberek/normalization/TurkishSentenceNormalizer.java:125-130 | one more `add` keeps the set in first-occurrence order of the extended input |
| OrderedSet.AddAllFromEmpty | normalization/src/main/java/zemberek/normalization/TurkishSentenceNormalizer.java:107-142 | filling an empty linked hash set gives each distinct input once, ordered by first occurrence |
| OrderedSet.PrefixComesFirst | normalization/src/main/java/zemberek/normalization/TurkishSentenceNormalizer.java:110-142 | in first-occurrence order of `a + b`, no element outside `a` precedes an element of `a` |
| OrderedSet.AddAllSame | normalization/src/main/java/zemberek/normalization/TurkishSentenceNormalizer.java:107-148 | adding one value any number of times leaves a one-element set |
| CandidateFusion.AnalysisCandidates | normalization/src/main/java/zemberek/normalization/TurkishSentenceNormalizer.java:119-133 | one candidate per analysis, in order, each as the loop body picks it |
| CandidateFusion.AnalysisCandidate | normalization/src/main/java/zemberek/normalization/TurkishSentenceNormalizer.java:120-131 | the candidate one analysis yields is the token itself or one of the generator's surfaces; `AnalysesContribute` shows a formal analysis yields the token, and `InformalContributes` that an informal one yields the generator's first surface, or the token when there is none |
| CandidateFusion.AnalysisLoop | normalization/src/main/java/zemberek/normalization/TurkishSentenceNormalizer.java:117-133 | the loop adds every analysis' candidate to the set, and `hasFormalAnalysis` ends up true exactly when some analysis has no informal morpheme |
| CandidateFusion.SpellCandidates | normalization/src/main/java/zemberek/normalization/TurkishSentenceNormalizer.java:183-192 | suggestions only for a word the formal morphology cannot analyse; then exactly the spell checker's suggestions |
| CandidateFusion.Take | normalization/src/main/java/zemberek/normalization/TurkishSentenceNormalizer.java:139-141 | a prefix of the list: the first three suggestions when there are more, otherwise the whole list |
| CandidateFusion.GatedSpellCandidates | normalization/src/main/java/zemberek/normalization/TurkishSentenceNormalizer.java:137-143 | the source's gate `(!hasFormalAnalysis or no analyses) and length > 5`, cut to three, equals the four-condition contribution |
| CandidateFusion.SpellContribution | normalization/src/main/java/zemberek/normalization/TurkishSentenceNormalizer.java:137-143 | the four-condition reference for the spelling contribution; `GatedSpellCandidates` proves the source's gate equal to it, and `NoSpellingUnlessGated`, `SpellingWhenGated` and `SpellingAtMostThree` state its effect |
| CandidateFusion.FuseCandidates | normalization/src/main/java/zemberek/normalization/TurkishSentenceNormalizer.java:107-148 | the fused list is never empty and holds no word twice |
| CandidateFusion.FusedCandidates | normalization/src/main/java/zemberek/normalization/TurkishSentenceNormalizer.java:107-148 | the fused list is exactly the token when nothing is proposed; otherwise each proposal once, in first-proposal order, with sources in the order random walk, ASCII, analyses, spelling |
| CandidateFusion.FusedOrder | normalization/src/main/java/zemberek/normalization/TurkishSentenceNormalizer.java:110-142 | the step-by-step construction equals adding all proposals at once |
| CandidateFusion.NoSpellingUnlessGated | normalization/src/main/java/zemberek/normalization/TurkishSentenceNormalizer.java:137-143 | without all four spelling conditions, every candidate comes from a table or an analysis, or is the token; in particular a token of at most five characters gets no suggestion |
| CandidateFusion.SpellingWhenGated | normalization/src/main/java/zemberek/normalization/TurkishSentenceNormalizer.java:137-143 | under all four conditions, each of the first three suggestions is a candidate |
| CandidateFusion.SpellingAtMostThree | normalization/src/main/java/zemberek/normalization/TurkishSentenceNormalizer.java:139-141 | at most three suggestions are ever proposed |
| CandidateFusion.AnalysesContribute | normalization/src/main/java/zemberek/normalization/TurkishSentenceNormalizer.java:119-133 | every analysis' candidate is in the list, and a formal analysis puts the token itself in |
| CandidateFusion.InformalContributes | normalization/src/main/java/zemberek/normalization/TurkishSentenceNormalizer.java:120-128 | an analysis with an informal morpheme contributes the generator's first surface form, and the token itself only when the generator produces nothing |
| CandidateFusion.RandomWalkFirst | normalization/src/main/java/zemberek/normalization/TurkishSentenceNormalizer.java:110 | no candidate from another source precedes a value of the random-walk table |
| CandidateFusion.OnlyProposal | normalization/src/main/java/zemberek/normalization/TurkishSentenceNormalizer.java:107-148 | when every proposal is the same word, that word alone is the list |
| Lattice.Repeat | normalization/src/main/java/zemberek/normalization/TurkishSentenceNormalizer.java:326 | `Arrays.fill`: `n` entries, all the given candidate |
| Lattice.WindowScore | normalization/src/main/java/zemberek/normalization/TurkishSentenceNormalizer.java:345-350 | the log-probability of a window of candidates, via their vocabulary indexes; `PathExtend` and `SuccessorOfPath` show each step adds exactly it |
| Lattice.KeyOf | normalization/src/main/java/zemberek/normalization/TurkishSentenceNormalizer.java:217-239 | `Hypothesis.equals`/`hashCode`: a hypothesis is identified by its history and current candidate; `Beam.KeysDistinct` and `Beam.InsertTie` state how the active list uses it |
| Lattice.Initial | normalization/src/main/java/zemberek/normalization/TurkishSentenceNormalizer.java:323-328 | the seed has a history of `order - 1` entries and score zero |
| Lattice.Shift | normalization/src/main/java/zemberek/normalization/TurkishSentenceNormalizer.java:335-339 | the shifted history keeps its length |
| Lattice.Successor | normalization/src/main/java/zemberek/normalization/TurkishSentenceNormalizer.java:334-352 | a successor keeps the history length, takes the new candidate as current, and points back at its predecessor's slot |
| Lattice.InitialKey | normalization/src/main/java/zemberek/normalization/TurkishSentenceNormalizer.java:323-329 | the seed is the state of the empty path: `order - 1` start symbols, then the start symbol |
| Lattice.PathExtend | normalization/src/main/java/zemberek/normalization/TurkishSentenceNormalizer.java:335-352 | extending a path by one candidate shifts its key as a successor shifts a history, and adds the score of the window ending at the candidate |
| Lattice.SuccessorOfPath | normalization/src/main/java/zemberek/normalization/TurkishSentenceNormalizer.java:334-352 | the successor of a hypothesis standing for a path stands for the extended path; its score grows by exactly the path's score increase |
| Beam.KeysDistinct | normalization/src/main/java/zemberek/normalization/TurkishSentenceNormalizer.java:217-239 | a valid beam holds at most one hypothesis per `(history, current)` key |
| Beam.Insert | normalization/src/main/java/zemberek/normalization/TurkishSentenceNormalizer.java:353 | `activeList.add`: the arena grows by at most one slot; its meaning is stated by `InsertValid`, `InsertCovers`, `InsertKeeps`, `InsertFrom` and `InsertTie` |
| Beam.InsertAll | normalization/src/main/java/zemberek/normalization/TurkishSentenceNormalizer.java:332-355 | the repeated `next.add(newHyp)` of one step, inserting in order; `InsertAllValid`, `InsertAllCovers`, `InsertAllKeeps` and `InsertAllFrom` state its meaning |
| Beam.InsertValid | normalization/src/main/java/zemberek/normalization/TurkishSentenceNormalizer.java:353 | `add` keeps the key map and the arena in agreement |
| Beam.InsertCovers | normalization/src/main/java/zemberek/normalization/TurkishSentenceNormalizer.java:353 | after `add`, the key of the added hypothesis is held with at least its score |
| Beam.InsertKeeps | normalization/src/main/java/zemberek/normalization/TurkishSentenceNormalizer.java:353 | `add` never lowers the best score held for any key |
| Beam.InsertFrom | normalization/src/main/java/zemberek/normalization/TurkishSentenceNormalizer.java:353 | every hypothesis after `add` is the added one or was in that slot before |
| Beam.InsertTie | normalization/src/main/java/zemberek/normalization/TurkishSentenceNormalizer.java:353 | on a known key the kept hypothesis is replaced only by a strictly better one, so the first of equal scores stays |
| Beam.InsertAllValid | normalization/src/main/java/zemberek/normalization/TurkishSentenceNormalizer.java:332-355 | a batch of `add`s keeps the beam valid |
| Beam.InsertAllCovers | normalization/src/main/java/zemberek/normalization/TurkishSentenceNormalizer.java:332-355 | after a batch, every added hypothesis' key is held with at least its score |
| Beam.InsertAllKeeps | normalization/src/main/java/zemberek/normalization/TurkishSentenceNormalizer.java:332-355 | a batch never lowers a held score |
| Beam.InsertAllFrom | normalization/src/main/java/zemberek/normalization/TurkishSentenceNormalizer.java:332-355 | after a batch, every hypothesis was there before or is one of the batch |
| Decoder.Row | normalization/src/main/java/zemberek/normalization/TurkishSentenceNormalizer.java:333-354 | the inner loop creates one successor per candidate |
| Decoder.StepOver | normalization/src/main/java/zemberek/normalization/TurkishSentenceNormalizer.java:332-355 | the outer loop over the current hypotheses; its meaning is stated by `StepOverValid`, `StepOverSound` and `StepOverCovers` |
| Decoder.RowSound | normalization/src/main/java/zemberek/normalization/TurkishSentenceNormalizer.java:333-354 | each successor in a row extends its predecessor by one of the step's candidates |
| Decoder.StepOverValid | normalization/src/main/java/zemberek/normalization/TurkishSentenceNormalizer.java:332-355 | the outer loop keeps the next active list valid |
| Decoder.StepOverSound | normalization/src/main/java/zemberek/normalization/TurkishSentenceNormalizer.java:332-355 | the outer loop adds only successors of current hypotheses by the step's candidates |
| Decoder.StepOverCovers | normalization/src/main/java/zemberek/normalization/TurkishSentenceNormalizer.java:332-355 | once the outer loop has passed a hypothesis, each of its successors' keys is held with at least that successor's score |
| Decoder.Step | normalization/src/main/java/zemberek/normalization/TurkishSentenceNormalizer.java:331-358 | every hypothesis of the next step has a history of `order - 1` entries |
| Decoder.StepSoundAndComplete | normalization/src/main/java/zemberek/normalization/TurkishSentenceNormalizer.java:331-358 | a step's beam is valid; it holds only successors by the step's candidates; and it covers every successor's key with at least that successor's score |
| Decoder.InitialBeam | normalization/src/main/java/zemberek/normalization/TurkishSentenceNormalizer.java:323-329 | the first active list holds the seed alone |
| Decoder.Arenas | normalization/src/main/java/zemberek/normalization/TurkishSentenceNormalizer.java:321-358 | one beam per step plus the seed's; each beam is the step of the previous one; every history has `order - 1` entries |
| Decoder.ArenaSound | normalization/src/main/java/zemberek/normalization/TurkishSentenceNormalizer.java:331-358 | every beam after the seed is valid and holds only successors of the previous beam |
| Decoder.ArenaValid | normalization/src/main/java/zemberek/normalization/TurkishSentenceNormalizer.java:331-358 | every beam is valid |
| Decoder.ArenaCovers | normalization/src/main/java/zemberek/normalization/TurkishSentenceNormalizer.java:331-358 | every successor of a hypothesis of one beam is covered by the next beam |
| Decoder.Backtrack | normalization/src/main/java/zemberek/normalization/TurkishSentenceNormalizer.java:362-368 | following the `previous` links gives a path that picks one candidate per set, leads to the hypothesis' key, and scores exactly the hypothesis' score |
| Decoder.Complete | normalization/src/main/java/zemberek/normalization/TurkishSentenceNormalizer.java:331-358 | merging loses nothing: every path through the first `t` sets is matched at step `t` by a kept hypothesis with its key and at least its score |
| Decoder.BestIndex | normalization/src/main/java/zemberek/normalization/TurkishSentenceNormalizer.java:360 | `getBest`: a hypothesis of maximal score, the earliest of those |
| Decoder.Contents | normalization/src/main/java/zemberek/normalization/TurkishSentenceNormalizer.java:366 | each output word is the content of the path's candidate |
| Decoder.AsCandidates | normalization/src/main/java/zemberek/normalization/TurkishSentenceNormalizer.java:150-152 | one candidate per word, with that word as content |
| Decoder.FinalNonEmpty | normalization/src/main/java/zemberek/normalization/TurkishSentenceNormalizer.java:321 | with no empty set, the beam after the end symbol is not empty |
| Decoder.FinalBound | normalization/src/main/java/zemberek/normalization/TurkishSentenceNormalizer.java:321-360 | no sentence through the sets, followed by the end symbol, scores more than the best final hypothesis |
| Decoder.BestPath | normalization/src/main/java/zemberek/normalization/TurkishSentenceNormalizer.java:360-370 | backtracking from the best final hypothesis, skipping the end symbol, gives a valid path whose sentence score is that hypothesis' score |
| Decoder.Decode | normalization/src/main/java/zemberek/normalization/TurkishSentenceNormalizer.java:315-371 | one word per candidate set, each the content of one of that set's candidates, and no path through the sets scores higher as a sentence |
| HistoryCopy.NewArray | normalization/src/main/java/zemberek/normalization/TurkishSentenceNormalizer.java:325 | `new Candidate[n]`: `n` null slots, or an error for a negative size |
| HistoryCopy.ArrayCopy | normalization/src/main/java/zemberek/normalization/TurkishSentenceNormalizer.java:337 | `System.arraycopy`: succeeds exactly when both ranges are in bounds, and then copies the range and nothing else |
| HistoryCopy.Store | normalization/src/main/java/zemberek/normalization/TurkishSentenceNormalizer.java:339 | an array store succeeds exactly inside the array, and then sets that slot |
| HistoryCopy.NextHistory | normalization/src/main/java/zemberek/normalization/TurkishSentenceNormalizer.java:335-339 | the history-building statements with the copy length as a parameter; stated through the two members below |
| HistoryCopy.NextHistoryAsWritten | normalization/src/main/java/zemberek/normalization/TurkishSentenceNormalizer.java:335-339 | the statements as written; `AsWrittenOverruns`, `AsWrittenTrigramSeed`, `AsWrittenBigram` and `NoHistoryBelowBigram` state what they do |
| HistoryCopy.NextHistoryCorrected | normalization/src/main/java/zemberek/normalization/TurkishSentenceNormalizer.java:335-339 | the statements with the copy length `lmOrder - 2`; `CorrectedShifts` proves they build exactly `Lattice.Shift` |
| HistoryCopy.AsWrittenOverruns | normalization/src/main/java/zemberek/normalization/TurkishSentenceNormalizer.java:335-339 | as written, every order of three or more throws on the first successor it builds |
| HistoryCopy.AsWrittenTrigramSeed | normalization/src/main/java/zemberek/normalization/TurkishSentenceNormalizer.java:323-339 | the smallest instance: a trigram model throws when extending the seed |
| HistoryCopy.AsWrittenBigram | normalization/src/main/java/zemberek/normalization/TurkishSentenceNormalizer.java:335-339 | for order two the statements as written do shift correctly |
| HistoryCopy.NoHistoryBelowBigram | normalization/src/main/java/zemberek/normalization/TurkishSentenceNormalizer.java:325-339 | below order two the statements throw however the copy is written |
| HistoryCopy.CorrectedShifts | normalization/src/main/java/zemberek/normalization/TurkishSentenceNormalizer.java:335-339 | with copy length `lmOrder - 2`, the statements build exactly the shifted history, for every order of two or more |
| BruteForce.ExtendOne | normalization/src/main/java/zemberek/normalization/TurkishSentenceNormalizer.java:331-333 | one extension per candidate, in order |
| BruteForce.ExtendAll | normalization/src/main/java/zemberek/normalization/TurkishSentenceNormalizer.java:331-333 | the extensions are exactly every path extended by every candidate |
| BruteForce.ValidExtension | normalization/src/main/java/zemberek/normalization/TurkishSentenceNormalizer.java:331-333 | an extended path is valid exactly when the shorter one was |
| BruteForce.AllPathsSound | normalization/src/main/java/zemberek/normalization/TurkishSentenceNormalizer.java:331-333 | every enumerated path picks one candidate per set |
| BruteForce.AllPathsComplete | normalization/src/main/java/zemberek/normalization/TurkishSentenceNormalizer.java:331-333 | every such path is enumerated |
| BruteForce.AllPathsValid | normalization/src/main/java/zemberek/normalization/TurkishSentenceNormalizer.java:331-333 | the enumeration is exactly the set of valid paths |
| BruteForce.BestByEnumeration | normalization/src/main/java/zemberek/normalization/TurkishSentenceNormalizer.java:360 | a listed path that no listed path outscores |
| BruteForce.DecodeMatchesEnumeration | normalization/src/main/java/zemberek/normalization/TurkishSentenceNormalizer.java:315-371 | the decoder's output is an enumerated path, and it scores exactly as well as the best of all of them |
| Normalizer.Tokens | normalization/src/main/java/zemberek/normalization/TurkishSentenceNormalizer.java:93-95 | `preProcess` then `tokenize`, both uninterpreted collaborators; `Normalize` and the scenario lemmas state results in terms of these tokens |
| Normalizer.PreviousText | normalization/src/main/java/zemberek/normalization/TurkishSentenceNormalizer.java:105 | the previous token's text, absent exactly for the first token |
| Normalizer.NextText | normalization/src/main/java/zemberek/normalization/TurkishSentenceNormalizer.java:104 | the next token's text, absent exactly for the last token |
| Normalizer.CandidatesAt | normalization/src/main/java/zemberek/normalization/TurkishSentenceNormalizer.java:100-152 | the per-token loop body, with the neighbour texts of lines 104-105; `CandidateSetMembers` and `CandidateFusion.FusedCandidates` state its result |
| Normalizer.CandidateSets | normalization/src/main/java/zemberek/normalization/TurkishSentenceNormalizer.java:150-154 | one candidate set per token, none empty |
| Normalizer.CandidateSetMembers | normalization/src/main/java/zemberek/normalization/TurkishSentenceNormalizer.java:150-152 | a token's set holds, once each, exactly its fused candidates |
| Normalizer.Normalize | normalization/src/main/java/zemberek/normalization/TurkishSentenceNormalizer.java:93-158 | one word per token; each is one of that token's fused candidates; no other choice of candidates scores higher as a sentence |
| Normalizer.UnknownTokenUnchanged | normalization/src/main/java/zemberek/normalization/TurkishSentenceNormalizer.java:146-148 | a token nothing proposes anything for comes out unchanged |
| Normalizer.SingleCandidateChosen | normalization/src/main/java/zemberek/normalization/TurkishSentenceNormalizer.java:93-157 | a token with a single candidate comes out as it, whatever the rest of the sentence |
| Normalizer.SingleCandidatesChosen | normalization/src/main/java/zemberek/normalization/TurkishSentenceNormalizer.java:93-157 | when every token has a single candidate, the output is exactly those candidates |
| Normalizer.TwoCandidatesChosen | normalization/src/main/java/zemberek/normalization/TurkishSentenceNormalizer.java:93-157 | the same for a two-token sentence, stated with each token's neighbours |
| Normalizer.OneLineTable | normalization/src/main/java/zemberek/normalization/TurkishSentenceNormalizer.java:71-91 | for a clean key (no `=`, no blank at either end) and a clean value (no comma, not empty, no blank at either end), the one-line file `key=value` gives `value` for `key` |
| Normalizer.OneLineLoads | normalization/src/main/java/zemberek/normalization/TurkishSentenceNormalizer.java:71-91 | for a clean key and a clean value, the one-line file `key=value` loads to the table of that single entry |
| Normalizer.OneLineProposals | normalization/src/main/java/zemberek/normalization/TurkishSentenceNormalizer.java:107-143 | with that table as the random-walk table and nothing else proposing, `value` is the only proposal |
| Normalizer.OneLineCandidates | normalization/src/main/java/zemberek/normalization/TurkishSentenceNormalizer.java:107-148 | in that setting `value` is the only candidate |
| Normalizer.OneLineScenario | normalization/src/main/java/zemberek/normalization/TurkishSentenceNormalizer.java:93-157 | in that setting the one-word sentence `key` comes out as `value` |
| Normalizer.OneLineFileScenario | normalization/src/main/java/zemberek/normalization/TurkishSentenceNormalizer.java:64-157 | the same, starting from the table file's single line |
| Normalizer.ThankYouScenario | normalization/src/main/java/zemberek/normalization/TurkishSentenceNormalizer.java:64-157 | the table line `teşekkurler=teşekkürler`, nothing else proposing: `teşekkurler` comes out as `teşekkürler` |
| Normalizer.StudentCandidates | normalization/src/main/java/zemberek/normalization/TurkishSentenceNormalizer.java:107-148 | with the ASCII table holding only `ogrenci` → `öğrenci`, an empty random-walk table, no informal analysis of `ogrenci` and no spelling suggestion for it, `öğrenci` is the only candidate of `ogrenci` |
| Normalizer.CameCandidates | normalization/src/main/java/zemberek/normalization/TurkishSentenceNormalizer.java:117-148 | with no table entry for `geldi` and one formal analysis of it, the five-letter `geldi` is its own only candidate; spelling is not asked |
| Normalizer.StudentScenario | normalization/src/main/java/zemberek/normalization/TurkishSentenceNormalizer.java:93-157 | in the setting of the two lemmas above (only the ASCII entry `ogrenci` → `öğrenci`, no random-walk entry, no analysis or suggestion for `ogrenci`, one formal analysis of `geldi`), `ogrenci geldi` comes out as `öğrenci geldi` |

## Left out

- Constructing the normalizer and reading files are not modelled: the spell checker and graph set-up, `TextIO.loadLines`, path resolution. `Load` takes the file's lines as a sequence, and its error carries only the offending line, without the file path.
- External libraries are uninterpreted function parameters: the preprocessor, the tokenizer, the morphological analyzer and generator, `toFormalMorphemeNames`, the spell checker and `SmoothLm`. Their own behaviour is not part of this model.
- Float scores are modelled as integer log-domain scores. Rounding in float addition is not modelled.
- `ActiveList` is not part of this model. Its merge and `getBest` tie behaviour is the documented choice above, not code read from the source.
- `useSpellChecker` (lines 161-181) is not on the `normalize` path. It is left out.
- The `toString` methods, the unused `Candidate.score` field and the `Candidates.word` field do not affect any result. They are left out.
- Decoder.Decode, Normalizer.Normalize: both require a model order of two or more. Below that the source throws (`NegativeArraySize` or an index of -1, shown by `HistoryCopy.NoHistoryBelowBigram`) instead of returning. `Decode` also requires no empty candidate set, which `normalize` always guarantees.
- Decoder.Decode, Normalizer.Normalize: use the corrected history shift (`Normalize` through `Decode`). The statements as written throw for orders above two; see Findings.
- CandidateFusion.SpellContribution: `current.length()` counts UTF-16 units, while a Dafny `char` is a whole Unicode scalar. The length gate may therefore differ for words with characters outside the Basic Multilingual Plane.
- Determinism is not stated as a lemma. Every operation is a function, so equal inputs give equal outputs.

## Findings

| source | as written | input that shows it | evidently intended | confidence | as-written member | corrected member |
|---|---|---|---|---|---|---|
| normalization/src/main/java/zemberek/normalization/TurkishSentenceNormalizer.java:337 | `System.arraycopy(h.history, 1, hist, 0, lmOrder - 1)` copies `lmOrder - 1` entries from position 1 of a history that has only `lmOrder - 1` | `lmOrder = 3`, seed history `[<s>, <s>]`: the copy needs entries 1 and 2 of a two-entry array and throws `IndexOutOfBoundsException` | copy the `lmOrder - 2` entries after the oldest, then store the predecessor's current candidate in the last slot | not executed | HistoryCopy.AsWrittenOverruns | HistoryCopy.CorrectedShifts |
