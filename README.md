# Concept tagging core of the MAG model server, in Dafny

This project models the core of the inference server in
`V3/003_Deploy/model_to_api/container/mag_model/predictor.py`. That server
tags scientific papers with taxonomy concepts.

The centre is the per-document tagging step of `transformation`. It takes the
classifier's ranked list of (label id, score) pairs and does four things:

- It builds a score table. A repeated id keeps its last score.
- It scans the first 20 ranks with two thresholds: 0.32 for level-0/1 labels and 0.41 for every label.
- If no rank passes, it falls back to the top-ranked label.
- It completes the ancestry of each candidate that has ancestor chains and is not yet in `chain_ids` with one of those chains. When there are several chains, it picks the first one with the highest summed table score. A candidate already reached, or one without chains, adds nothing.

It then emits three parallel lists: tag names, scores and external tag ids. The candidates come first, followed by the ancestors the closure added.

Around that step are the pure text helpers that prepare the classifier's
input. These are `clean_text`, `try_lowercase`,
`invert_abstract_to_abstract` (after its JSON parse), `clean_abstract`,
`tokenize_feature`, `tokenize_title` and `cut_length`.

Modules:

- `Wrappers` (wrappers.dfy) holds `Option`, for a dictionary `.get` that misses, and `Field`, a request cell seen the way Python sees it: `None`, a string, or some other value with its truthiness.
- `Strings` (strings.dfy) holds `str.split` and `str.join` for one separator character, with both round trips.
- `TextCleaning` (text_cleaning.dfy) holds `clean_text` as its four stages and `try_lowercase`.
- `AbstractText` (abstract_text.dfy) holds `invert_abstract_to_abstract` as a method that fills an array in place, plus `clean_abstract`.
- `Tokenize` (tokenize.dfy) holds `tokenize_feature`, `tokenize_title` and `cut_length`.
- `Tagging` (tagging.dfy) holds the tagging step. It has specification functions (score table, candidate ranks, closure, added tags) and three loop methods: the candidate scan, the closure loop and the added-tag loop. `TagDocument` composes them.
- `ClosureCompleteness` (closure_completeness.dfy) covers when every output tag carries a full ancestor chain. It proves this under a taxonomy-consistency hypothesis and gives an example where it fails without one.

Four points of the code shape the model:

- The score table `pred_score_dict` (line 197) is built from the whole ranked list, not only from the first 20 ranks. `ScoreTable` covers the whole list.
- Vocabulary lookups use `.get` (lines 205, 207, 251, 253), so a missing entry yields `None` rather than an error. The model returns `Option`.
- The scan indexes `range(20)` unconditionally (line 203), so a ranked list shorter than 20 makes it raise. The model requires at least 20 ranked pairs.
- The comment at line 222 says the closure makes sure that every concept has a path (chain) up to an L0. The code skips any candidate already reached through another chain (line 229). Completeness holds when the taxonomy's chains are upward closed (`ClosureComplete`), and it can fail when they are not (`ClosureIncompleteWhenInconsistent`).

## Model

| member | source | states |
|---|---|---|
| TextCleaning.CleanText | V3/003_Deploy/model_to_api/container/mag_model/predictor.py:104-114 | the result holds only lower-case ASCII letters, digits and single spaces, with no space at either end; a value that is not a string yields `""` |
| TextCleaning.CleanTextKeepsAlnums | V3/003_Deploy/model_to_api/container/mag_model/predictor.py:104-114 | the letters and digits of the result are exactly those of the lower-cased input, in order |
| TextCleaning.CleanTextIdempotent | V3/003_Deploy/model_to_api/container/mag_model/predictor.py:104-114 | cleaning a cleaned text returns it unchanged |
| TextCleaning.CleanTextIsJoinedRuns | V3/003_Deploy/model_to_api/container/mag_model/predictor.py:104-114 | a cleaned string is the maximal runs of letters and digits of the lower-cased input (`AlnumRuns`), in order, joined by exactly one space |
| TextCleaning.ReplaceRunsProps | V3/003_Deploy/model_to_api/container/mag_model/predictor.py:108 | each maximal run of characters outside `[a-zA-Z0-9 ]` becomes exactly one space and the pieces between those runs are kept unchanged (the result is the space-join of `KeptPieces(s, Kept)`); hence every character is in the class and the letters and digits are kept in order |
| TextCleaning.CollapseProps | V3/003_Deploy/model_to_api/container/mag_model/predictor.py:109 | each maximal run of spaces becomes exactly one space and the pieces between are kept unchanged (the space-join of `KeptPieces(s, NotSpace)`); hence no two adjacent spaces, no new characters, the same letters and digits |
| TextCleaning.StripProps | V3/003_Deploy/model_to_api/container/mag_model/predictor.py:110 | `strip()` gives the slice `s[i..j]` with only whitespace before i and after j, and neither end of the result is whitespace; it keeps the letters and digits and the absence of double spaces |
| TextCleaning.TryLowercase | V3/003_Deploy/model_to_api/container/mag_model/predictor.py:116-121 | a string comes back of the same length, each ASCII upper-case letter replaced by the letter 32 code points above it and every other character unchanged; any other value comes back unchanged |
| TextCleaning.TryLowercaseIdempotent | V3/003_Deploy/model_to_api/container/mag_model/predictor.py:116-121 | lower-casing an already lower-cased value changes nothing |
| Strings.Split | V3/003_Deploy/model_to_api/container/mag_model/predictor.py:137 | `split(" ")` gives one more piece than there are spaces, and no piece contains a space |
| Strings.JoinSplit | V3/003_Deploy/model_to_api/container/mag_model/predictor.py:137 | joining the pieces of a split with the separator gives back the original string |
| Strings.SplitJoin | V3/003_Deploy/model_to_api/container/mag_model/predictor.py:88 | splitting the join of words that contain no separator gives back the words |
| AbstractText.InvertAbstract | V3/003_Deploy/model_to_api/container/mag_model/predictor.py:81-91 | `None` when `IndexLength` is not strictly between 30 and 1000; otherwise the space-join of exactly `IndexLength` slots, where slot i holds `WordAt(entries, n, i)`; the array-filling loop agrees with the function `Inverted` that `CleanAbstract` uses |
| AbstractText.WordAtIsLastKey | V3/003_Deploy/model_to_api/container/mag_model/predictor.py:84-87 | a slot holds the key of the last entry whose positions refer to it, and `" "` when no entry does |
| AbstractText.HitsIff | V3/003_Deploy/model_to_api/container/mag_model/predictor.py:86-87 | an entry writes slot i exactly when one of its positions, with Python's negative indexing, refers to i |
| AbstractText.CleanAbstract | V3/003_Deploy/model_to_api/container/mag_model/predictor.py:93-102 | the result is clean text; a plain abstract is just cleaned; an empty or missing inverted abstract, or one of out-of-range length, gives `""`; otherwise the rebuilt text is cleaned |
| Tokenize.TokenizeFeature | V3/003_Deploy/model_to_api/container/mag_model/predictor.py:123-134 | exactly one id: the `[NONE]` id for a falsy value, the value's own id when it is a known string, and otherwise the `[UNK]` id, taken from the doc-type or the journal vocabulary |
| Tokenize.TokenizeTitle | V3/003_Deploy/model_to_api/container/mag_model/predictor.py:136-145 | `[NONE]`'s id for `""`; otherwise one id per space-separated piece (spaces + 1 of them), each the piece's id or `[UNK]`'s |
| Tokenize.TokenizeJoinedWords | V3/003_Deploy/model_to_api/container/mag_model/predictor.py:136-145 | tokenizing words joined by single spaces gives one id per word, in order |
| Tokenize.TokenizeCleanTitle | V3/003_Deploy/model_to_api/container/mag_model/predictor.py:172-175 | the cleaned title tokenizes to one id per maximal run of letters and digits of the lower-cased title, in order, and to the single `[NONE]` id when there is none |
| Tokenize.CutLength | V3/003_Deploy/model_to_api/container/mag_model/predictor.py:147-148 | the result is a prefix of the data, of length `min(seq_len, len)`; a negative `seq_len` drops that many elements from the end |
| Tagging.ScoreTable | V3/003_Deploy/model_to_api/container/mag_model/predictor.py:197 | the table's keys are exactly the ids of the whole ranked list |
| Tagging.ScoreTableLastWins | V3/003_Deploy/model_to_api/container/mag_model/predictor.py:197 | a repeated id keeps the score of its last rank |
| Tagging.PassingRanks | V3/003_Deploy/model_to_api/container/mag_model/predictor.py:203-215 | rank i < n is listed iff (label in level-0/1 and score >= 0.32) or score >= 0.41; the ranks are strictly increasing |
| Tagging.CandidateRanks | V3/003_Deploy/model_to_api/container/mag_model/predictor.py:203-220 | at least one rank, all below 20 and in rank order; if some rank passes, exactly the passing ranks; if none passes, exactly `[0]` |
| Tagging.Fallback | V3/003_Deploy/model_to_api/container/mag_model/predictor.py:216-220 | with no passing rank the candidates are `[pred[0]]` with scores `[score[0]]`; otherwise every candidate passed its threshold |
| Tagging.ArgMax | V3/003_Deploy/model_to_api/container/mag_model/predictor.py:241 | `np.argmax` gives an index of a greatest element with every earlier element strictly smaller (first maximum) |
| Tagging.Contribution | V3/003_Deploy/model_to_api/container/mag_model/predictor.py:229-244 | what one candidate appends is either nothing or one of its own ancestor chains |
| Tagging.MultiChainChoice | V3/003_Deploy/model_to_api/container/mag_model/predictor.py:237-241 | with two or more chains, the appended chain has the greatest summed table score (missing ids count 0.0), and every earlier chain scores strictly less |
| Tagging.ClosureStep | V3/003_Deploy/model_to_api/container/mag_model/predictor.py:229-244 | a candidate already in `chain_ids`, or one with no chains, leaves `chain_ids` unchanged; one with a single chain appends that chain whatever the scores; one with several appends one of them |
| Tagging.AddedTags | V3/003_Deploy/model_to_api/container/mag_model/predictor.py:246-248 | `added_tags` has no repeated ids and holds exactly the ids of `chain_ids` that are not candidates |
| Tagging.ClosureIdempotent | V3/003_Deploy/model_to_api/container/mag_model/predictor.py:222-248 | re-running the closure over the output ids gives the same `chain_ids`, all of which are already in the output |
| Tagging.SelectCandidates | V3/003_Deploy/model_to_api/container/mag_model/predictor.py:198-220 | the scan with fallback yields the candidate ids and ranked scores of `CandidateRanks`, with aligned name and tag-id lookups |
| Tagging.ResolveClosure | V3/003_Deploy/model_to_api/container/mag_model/predictor.py:223-244 | the closure loop, including its `chain_scores` accumulation, yields `ChainIds` of the candidates |
| Tagging.AppendAddedTags | V3/003_Deploy/model_to_api/container/mag_model/predictor.py:250-253 | each of the three lists is extended by the names, table scores (default 0.0) and tag ids of the added ancestors, in order |
| Tagging.TagDocument | V3/003_Deploy/model_to_api/container/mag_model/predictor.py:196-261 | tags, scores and tag ids all have length candidates + added ancestors, which is at least 1; the candidates come first with their ranked scores, then the added ancestors with table scores; `chain` maps each candidate to its ancestry |
| ClosureCompleteness.ChainIdsReached | V3/003_Deploy/model_to_api/container/mag_model/predictor.py:225-244 | every id of `chain_ids` lies on an ancestor chain that is entirely inside `chain_ids` |
| ClosureCompleteness.CandidatesCovered | V3/003_Deploy/model_to_api/container/mag_model/predictor.py:225-244 | if the taxonomy is consistent, every candidate that has chains has one of them entirely inside `chain_ids` |
| ClosureCompleteness.ClosureComplete | V3/003_Deploy/model_to_api/container/mag_model/predictor.py:222-253 | if the taxonomy is consistent, every output tag that has chains has one of them entirely in the output |
| ClosureCompleteness.ClosureIncompleteWhenInconsistent | V3/003_Deploy/model_to_api/container/mag_model/predictor.py:229-231 | in an inconsistent taxonomy, a candidate skipped because it was already reached can be output without any of its chains |

## Left out

- Loading the pickled vocabularies, the level-0/1 set and the ancestor table at start-up (lines 17-58) is left out. They are parameters of the model, read-only maps and sets.
- The TensorFlow model is left out: loading, `CategoryEncoding`, the dropout patch, `top_k` and tensor construction (lines 60-77, 182-192). These are foreign library calls. The ranked ids and scores are parameters.
- The Flask routes, the `/ping` health check and JSON serialisation of the response (lines 151-167, 263-265) are left out. They are HTTP plumbing.
- The pandas plumbing that applies the helpers column by column (lines 167-180) is left out. The helpers are modelled per value.
- The loop over the documents of a batch (`zip(scores, preds, paper_ids)`, line 196) is left out. `TagDocument` models one iteration, and documents share no state.
- `json.loads` inside `invert_abstract_to_abstract` (line 80) is left out. `InvertAbstract` takes the parsed object. `CleanAbstract` takes the parser as a function parameter. Malformed JSON, a non-string abstract (such as a NaN cell) that makes `json.loads` raise `TypeError`, a missing `IndexLength` or `InvertedIndex` key, and non-integer positions are not modelled; `CleanAbstract` requires a string when the inverted flag and the abstract are both truthy.
- InvertAbstract: a position outside `[-IndexLength, IndexLength)` makes Python raise `IndexError`. The model requires valid positions instead of modelling that exception.
- Scores are `real`. IEEE rounding of the scores and of `np.sum` is not modelled, and neither is NaN in `np.argmax`.
- TextCleaning.Lower: `str.lower()` is modelled on ASCII letters only. Unicode case mapping is not modelled, and neither are characters whose lower-case form is ASCII or longer than one character. The same applies to `try_lowercase`.
- Tagging.AddedTags: Python's `list(set(chain_ids))` has no specified order. The model fixes first-occurrence order in `chain_ids`. The contract states only what is independent of that order: no repeats, and exactly the right set of ids.
- Tagging.TagDocument: the model requires at least 20 ranked pairs, and every candidate must be a key of the ancestor table. Python would otherwise raise `IndexError` (line 204) or `KeyError` (line 224). The `zip` truncation for ranked lists of different lengths is not modelled: equal lengths are required.
- The paper id is an opaque string. Tag ids are integers.
