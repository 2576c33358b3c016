/** The per-document tagging step of `transformation` in predictor.py: from a
    ranked list of (label id, score) pairs, select candidate labels with two
    thresholds (falling back to the top-ranked label), complete their ancestry
    by adding one ancestor chain per candidate, and assemble the parallel
    lists of tag names, scores and external tag ids. */
module Tagging {
  import opened Wrappers

  /** `ancestors[label]`: alternative ancestor id chains towards a root
      concept (`anc_ids`) and the parallel name chains (`anc_tags`). */
  datatype Ancestry = Ancestry(ancIds: seq<seq<int>>, ancTags: seq<seq<string>>)

  /** One document's output record. */
  datatype TagRecord = TagRecord(
    paperId: string,
    tags: seq<Option<string>>,
    scores: seq<real>,
    tagIds: seq<Option<int>>,
    chain: map<int, Ancestry>)

  /** How many ranks the candidate scan looks at. */
  const Window: nat := 20
  /** The threshold for level-0 and level-1 labels. */
  const LevelThreshold: real := 0.32
  /** The threshold for every label. */
  const GeneralThreshold: real := 0.41

  // ---------------------------------------------------------------------------
  // Score table

  /** `pred_score_dict`, built over the whole ranked list; a repeated id keeps
      the score of its last occurrence. */
  function ScoreTable(pred: seq<int>, score: seq<real>): (t: map<int, real>)
    requires |pred| == |score|
    ensures forall x :: x in t <==> x in pred
    decreases |pred|
  {
    if |pred| == 0 then map[]
    else ScoreTable(pred[..|pred| - 1], score[..|score| - 1])[pred[|pred| - 1] := score[|score| - 1]]
  }

  /** `pred_score_dict.get(x, 0.0)`. */
  function Score(t: map<int, real>, x: int): real
  {
    if x in t then t[x] else 0.0
  }

  /** The table holds, for each id, the score at the last rank carrying that id. */
  lemma {:induction false} ScoreTableLastWins(pred: seq<int>, score: seq<real>, j: nat)
    requires |pred| == |score| && j < |pred|
    requires forall k :: j < k < |pred| ==> pred[k] != pred[j]
    ensures pred[j] in ScoreTable(pred, score)
    ensures ScoreTable(pred, score)[pred[j]] == score[j]
    decreases |pred|
  {
    var n := |pred|;
    if j < n - 1 {
      ScoreTableLastWins(pred[..n - 1], score[..n - 1], j);
    }
  }

  // ---------------------------------------------------------------------------
  // Candidate selection

  /** The test of one rank: a level-0/1 label at `LevelThreshold` or above,
      or any label at `GeneralThreshold` or above. */
  predicate Passes(level01: set<int>, id: int, s: real)
  {
    (id in level01 && s >= LevelThreshold) || s >= GeneralThreshold
  }

  /** The ranks below `n` that pass, in rank order. */
  function PassingRanks(pred: seq<int>, score: seq<real>, level01: set<int>, n: nat): (r: seq<nat>)
    requires n <= |pred| && n <= |score|
    ensures forall i: nat :: i in r <==> i < n && Passes(level01, pred[i], score[i])
    ensures forall a, b :: 0 <= a < b < |r| ==> r[a] < r[b]
    ensures forall a :: 0 <= a < |r| ==> r[a] < n
  {
    if n == 0 then []
    else
      var r := PassingRanks(pred, score, level01, n - 1);
      if Passes(level01, pred[n - 1], score[n - 1]) then r + [n - 1] else r
  }

  /** The ranks of the candidates: the passing ranks among the first `Window`,
      or the top rank alone when none passes. */
  function CandidateRanks(pred: seq<int>, score: seq<real>, level01: set<int>): (r: seq<nat>)
    requires |pred| == |score| >= Window
    ensures |r| >= 1
    ensures forall a :: 0 <= a < |r| ==> r[a] < Window
    ensures forall a, b :: 0 <= a < b < |r| ==> r[a] < r[b]
    ensures (exists i :: 0 <= i < Window && Passes(level01, pred[i], score[i])) ==>
      forall i: nat :: i in r <==> i < Window && Passes(level01, pred[i], score[i])
    ensures (forall i :: 0 <= i < Window ==> !Passes(level01, pred[i], score[i])) ==> r == [0]
  {
    var r := PassingRanks(pred, score, level01, Window);
    if |r| == 0 then [0] else assert r[0] in r; r
  }

  /** The elements of `xs` at the given ranks. */
  function At<T>(xs: seq<T>, ranks: seq<nat>): (r: seq<T>)
    requires forall a :: 0 <= a < |ranks| ==> ranks[a] < |xs|
    ensures |r| == |ranks|
  {
    if |ranks| == 0 then [] else At(xs, ranks[..|ranks| - 1]) + [xs[ranks[|ranks| - 1]]]
  }

  lemma {:induction false} AtIndex<T>(xs: seq<T>, ranks: seq<nat>, a: nat)
    requires forall b :: 0 <= b < |ranks| ==> ranks[b] < |xs|
    requires a < |ranks|
    ensures At(xs, ranks)[a] == xs[ranks[a]]
    decreases |ranks|
  {
    if a < |ranks| - 1 {
      AtIndex(xs, ranks[..|ranks| - 1], a);
    }
  }

  lemma AtAppend<T>(xs: seq<T>, ranks: seq<nat>, i: nat)
    requires forall a :: 0 <= a < |ranks| ==> ranks[a] < |xs|
    requires i < |xs|
    ensures At(xs, ranks + [i]) == At(xs, ranks) + [xs[i]]
  {
    assert (ranks + [i])[..|ranks|] == ranks;
  }

  /** `pred_ids`: the candidate ids in rank order. */
  function CandidateIds(pred: seq<int>, score: seq<real>, level01: set<int>): seq<int>
    requires |pred| == |score| >= Window
  {
    At(pred, CandidateRanks(pred, score, level01))
  }

  /** The candidates' scores, taken from the ranked list. */
  function CandidateScores(pred: seq<int>, score: seq<real>, level01: set<int>): seq<real>
    requires |pred| == |score| >= Window
  {
    At(score, CandidateRanks(pred, score, level01))
  }

  /** When no rank of the window passes, the one candidate is the top-ranked
      entry with its score; otherwise every candidate passed its test. */
  lemma Fallback(pred: seq<int>, score: seq<real>, level01: set<int>)
    requires |pred| == |score| >= Window
    ensures (forall i :: 0 <= i < Window ==> !Passes(level01, pred[i], score[i])) ==>
      CandidateIds(pred, score, level01) == [pred[0]] && CandidateScores(pred, score, level01) == [score[0]]
    ensures (exists i :: 0 <= i < Window && Passes(level01, pred[i], score[i])) ==>
      var ids, scores := CandidateIds(pred, score, level01), CandidateScores(pred, score, level01);
      forall a :: 0 <= a < |ids| ==> Passes(level01, ids[a], scores[a])
  {
    var r := CandidateRanks(pred, score, level01);
    if exists i :: 0 <= i < Window && Passes(level01, pred[i], score[i]) {
      forall a | 0 <= a < |r|
        ensures Passes(level01, CandidateIds(pred, score, level01)[a], CandidateScores(pred, score, level01)[a])
      {
        assert r[a] in r;
        AtIndex(pred, r, a);
        AtIndex(score, r, a);
      }
    }
  }

  // ---------------------------------------------------------------------------
  // Ancestor closure

  /** `np.sum([pred_score_dict.get(x, 0.0) for x in chain])`. */
  function ChainScore(t: map<int, real>, chain: seq<int>): real
  {
    if |chain| == 0 then 0.0 else ChainScore(t, chain[..|chain| - 1]) + Score(t, chain[|chain| - 1])
  }

  function ChainScores(t: map<int, real>, chains: seq<seq<int>>): (r: seq<real>)
    ensures |r| == |chains|
    ensures forall j :: 0 <= j < |chains| ==> r[j] == ChainScore(t, chains[j])
  {
    seq(|chains|, j requires 0 <= j < |chains| => ChainScore(t, chains[j]))
  }

  /** `np.argmax`: the first index of a greatest element. */
  function ArgMax(xs: seq<real>): (k: nat)
    requires |xs| > 0
    ensures k < |xs|
    ensures forall j :: 0 <= j < |xs| ==> xs[j] <= xs[k]
    ensures forall j :: 0 <= j < k ==> xs[j] < xs[k]
  {
    if |xs| == 1 then 0
    else
      var k := ArgMax(xs[..|xs| - 1]);
      if xs[|xs| - 1] > xs[k] then |xs| - 1 else k
  }

  /** What one candidate `p` appends to `chain_ids` (`acc` so far): nothing if
      it was already reached or has no chains, its single chain, or among
      several the first one with the greatest summed score. */
  function Contribution(acc: seq<int>, p: int, anc: map<int, Ancestry>, t: map<int, real>): (r: seq<int>)
    requires p in anc
    ensures r == [] || r in anc[p].ancIds
  {
    var chains := anc[p].ancIds;
    if p in acc then []
    else if |chains| == 0 then []
    else if |chains| == 1 then chains[0]
    else chains[ArgMax(ChainScores(t, chains))]
  }

  /** `chain_ids` after the closure loop has processed the candidates `cands`. */
  function ChainIds(cands: seq<int>, anc: map<int, Ancestry>, t: map<int, real>): seq<int>
    requires forall a :: 0 <= a < |cands| ==> cands[a] in anc
    decreases |cands|
  {
    if |cands| == 0 then []
    else
      var acc := ChainIds(cands[..|cands| - 1], anc, t);
      acc + Contribution(acc, cands[|cands| - 1], anc, t)
  }

  /** With several chains, the appended chain is the first whose summed score is maximal. */
  lemma MultiChainChoice(acc: seq<int>, p: int, anc: map<int, Ancestry>, t: map<int, real>)
    requires p in anc && p !in acc && |anc[p].ancIds| >= 2
    ensures var chains := anc[p].ancIds;
      exists j :: 0 <= j < |chains| && Contribution(acc, p, anc, t) == chains[j]
        && (forall k :: 0 <= k < |chains| ==> ChainScore(t, chains[k]) <= ChainScore(t, chains[j]))
        && (forall k :: 0 <= k < j ==> ChainScore(t, chains[k]) < ChainScore(t, chains[j]))
  {
    var chains := anc[p].ancIds;
    var j := ArgMax(ChainScores(t, chains));
    assert Contribution(acc, p, anc, t) == chains[j];
  }

  /** The step of the closure loop for one more candidate `p`, against the
      `chain_ids` accumulated so far. */
  lemma {:induction false} ClosureStep(cands: seq<int>, p: int, anc: map<int, Ancestry>, t: map<int, real>)
    requires forall a :: 0 <= a < |cands| ==> cands[a] in anc
    requires p in anc
    ensures var before, after := ChainIds(cands, anc, t), ChainIds(cands + [p], anc, t);
      && (p in before ==> after == before)
      && (|anc[p].ancIds| == 0 ==> after == before)
      && (p !in before && |anc[p].ancIds| == 1 ==> after == before + anc[p].ancIds[0])
      && (p !in before && |anc[p].ancIds| >= 2 ==> exists j :: 0 <= j < |anc[p].ancIds| && after == before + anc[p].ancIds[j])
  {
    var all := cands + [p];
    assert all[..|all| - 1] == cands;
    var before := ChainIds(cands, anc, t);
    if p !in before && |anc[p].ancIds| >= 2 {
      MultiChainChoice(before, p, anc, t);
    }
  }

  /** Appending candidates that are already in `chain_ids` changes nothing. */
  lemma {:induction false} ChainIdsSkipReached(cands: seq<int>, extra: seq<int>, anc: map<int, Ancestry>, t: map<int, real>)
    requires forall a :: 0 <= a < |cands| ==> cands[a] in anc
    requires forall a :: 0 <= a < |extra| ==> extra[a] in anc && extra[a] in ChainIds(cands, anc, t)
    ensures forall a :: 0 <= a < |cands + extra| ==> (cands + extra)[a] in anc
    ensures ChainIds(cands + extra, anc, t) == ChainIds(cands, anc, t)
    decreases |extra|
  {
    var all := cands + extra;
    assert forall a :: 0 <= a < |all| ==> all[a] in anc by {
      forall a | 0 <= a < |all| ensures all[a] in anc {
        if a >= |cands| { assert all[a] == extra[a - |cands|]; }
      }
    }
    if |extra| > 0 {
      var init := extra[..|extra| - 1];
      ChainIdsSkipReached(cands, init, anc, t);
      assert all[..|all| - 1] == cands + init;
    } else {
      assert all == cands;
    }
  }

  // ---------------------------------------------------------------------------
  // Result assembly

  /** `added_tags`: the distinct ids of `chain_ids` that are not candidates,
      in the order in which the closure first reached them. */
  function AddedTags(chain: seq<int>, predIds: seq<int>): (r: seq<int>)
    ensures forall a, b :: 0 <= a < b < |r| ==> r[a] != r[b]
    ensures forall x :: x in r <==> x in chain && x !in predIds
    decreases |chain|
  {
    if |chain| == 0 then []
    else
      var r := AddedTags(chain[..|chain| - 1], predIds);
      var x := chain[|chain| - 1];
      assert forall y :: y in chain <==> y in chain[..|chain| - 1] || y == x;
      if x in predIds || x in r then r else r + [x]
  }

  /** A vocabulary lookup for each id. */
  function Lookups<V>(m: map<int, V>, ids: seq<int>): (r: seq<Option<V>>)
    ensures |r| == |ids|
  {
    if |ids| == 0 then [] else Lookups(m, ids[..|ids| - 1]) + [Get(m, ids[|ids| - 1])]
  }

  lemma LookupsAppend<V>(m: map<int, V>, ids: seq<int>, x: int)
    ensures Lookups(m, ids + [x]) == Lookups(m, ids) + [Get(m, x)]
  {
    assert (ids + [x])[..|ids|] == ids;
  }

  lemma {:induction false} LookupsConcat<V>(m: map<int, V>, ids: seq<int>, more: seq<int>)
    ensures Lookups(m, ids + more) == Lookups(m, ids) + Lookups(m, more)
    decreases |more|
  {
    if |more| == 0 {
      assert ids + more == ids;
    } else {
      var init := more[..|more| - 1];
      var x := more[|more| - 1];
      LookupsConcat(m, ids, init);
      assert ids + more == (ids + init) + [x];
      assert more == init + [x];
      LookupsAppend(m, ids + init, x);
      LookupsAppend(m, init, x);
    }
  }

  /** The table score of each id. */
  function Scores(t: map<int, real>, ids: seq<int>): (r: seq<real>)
    ensures |r| == |ids|
  {
    if |ids| == 0 then [] else Scores(t, ids[..|ids| - 1]) + [Score(t, ids[|ids| - 1])]
  }

  lemma ScoresAppend(t: map<int, real>, ids: seq<int>, x: int)
    ensures Scores(t, ids + [x]) == Scores(t, ids) + [Score(t, x)]
  {
    assert (ids + [x])[..|ids|] == ids;
  }

  /** Re-running the closure over the document's own output ids adds nothing:
      it reaches the same `chain_ids`, all of which are already output. */
  lemma {:induction false} ClosureIdempotent(cands: seq<int>, anc: map<int, Ancestry>, t: map<int, real>)
    requires forall a :: 0 <= a < |cands| ==> cands[a] in anc
    requires forall x :: x in ChainIds(cands, anc, t) ==> x in anc
    ensures var out := cands + AddedTags(ChainIds(cands, anc, t), cands);
      && (forall a :: 0 <= a < |out| ==> out[a] in anc)
      && ChainIds(out, anc, t) == ChainIds(cands, anc, t)
      && (forall x :: x in ChainIds(out, anc, t) ==> x in out)
  {
    var chain := ChainIds(cands, anc, t);
    var added := AddedTags(chain, cands);
    assert forall a :: 0 <= a < |added| ==> added[a] in anc && added[a] in chain by {
      forall a | 0 <= a < |added| ensures added[a] in anc && added[a] in chain {
        assert added[a] in added;
      }
    }
    ChainIdsSkipReached(cands, added, anc, t);
    var out := cands + added;
    forall x | x in chain ensures x in out {
      if x !in cands { assert x in added; }
    }
  }

  // ---------------------------------------------------------------------------
  // The tagging loop

  /** The candidate scan and its fallback (`for i in range(20)`, then
      `if len(tags) == 0`), filling the four parallel lists. */
  method SelectCandidates(pred: seq<int>, score: seq<real>, level01: set<int>,
                          vocabInv: map<int, string>, tagIdVocab: map<int, int>)
    returns (tags: seq<Option<string>>, tagScores: seq<real>, tagIds: seq<Option<int>>, predIds: seq<int>)
    requires |pred| == |score| >= Window
    ensures predIds == CandidateIds(pred, score, level01)
    ensures tagScores == CandidateScores(pred, score, level01)
    ensures tags == Lookups(vocabInv, predIds) && tagIds == Lookups(tagIdVocab, predIds)
  {
    tags, tagScores, tagIds, predIds := [], [], [], [];
    ghost var ranks: seq<nat> := [];
    for i := 0 to Window
      invariant ranks == PassingRanks(pred, score, level01, i)
      invariant predIds == At(pred, ranks) && tagScores == At(score, ranks)
      invariant tags == Lookups(vocabInv, predIds) && tagIds == Lookups(tagIdVocab, predIds)
    {
      if (pred[i] in level01 && score[i] >= LevelThreshold) || score[i] >= GeneralThreshold {
        AtAppend(pred, ranks, i);
        AtAppend(score, ranks, i);
        LookupsAppend(vocabInv, predIds, pred[i]);
        LookupsAppend(tagIdVocab, predIds, pred[i]);
        tags := tags + [Get(vocabInv, pred[i])];
        tagScores := tagScores + [score[i]];
        tagIds := tagIds + [Get(tagIdVocab, pred[i])];
        predIds := predIds + [pred[i]];
        ranks := ranks + [i];
      }
    }
    if |tags| == 0 {
      AtAppend(pred, [], 0);
      AtAppend(score, [], 0);
      LookupsAppend(vocabInv, [], pred[0]);
      LookupsAppend(tagIdVocab, [], pred[0]);
      tags := tags + [Get(vocabInv, pred[0])];
      tagScores := tagScores + [score[0]];
      tagIds := tagIds + [Get(tagIdVocab, pred[0])];
      predIds := predIds + [pred[0]];
      ranks := [0];
    }
    assert ranks == CandidateRanks(pred, score, level01);
  }

  /** The closure loop `for pred_id in pred_ids`, with its `chain_scores`
      accumulation for candidates with several chains. */
  method ResolveClosure(predIds: seq<int>, anc: map<int, Ancestry>, t: map<int, real>) returns (chainIds: seq<int>)
    requires forall a :: 0 <= a < |predIds| ==> predIds[a] in anc
    ensures chainIds == ChainIds(predIds, anc, t)
  {
    chainIds := [];
    for k := 0 to |predIds|
      invariant chainIds == ChainIds(predIds[..k], anc, t)
    {
      var p := predIds[k];
      var chains := anc[p].ancIds;
      assert predIds[..k + 1][..k] == predIds[..k];
      if p in chainIds {
      } else if |chains| > 0 {
        if |chains| == 1 {
          chainIds := chainIds + chains[0];
        } else {
          var chainScores: seq<real> := [];
          for j := 0 to |chains|
            invariant |chainScores| == j
            invariant forall m :: 0 <= m < j ==> chainScores[m] == ChainScore(t, chains[m])
          {
            chainScores := chainScores + [ChainScore(t, chains[j])];
          }
          assert chainScores == ChainScores(t, chains);
          chainIds := chainIds + chains[ArgMax(chainScores)];
        }
      }
    }
    assert predIds[..|predIds|] == predIds;
  }

  lemma AssembleStep(tags: seq<Option<string>>, tagScores: seq<real>, tagIds: seq<Option<int>>, done: seq<int>, x: int,
                      t: map<int, real>, vocabInv: map<int, string>, tagIdVocab: map<int, int>)
    ensures tags + Lookups(vocabInv, done) + [Get(vocabInv, x)] == tags + Lookups(vocabInv, done + [x])
    ensures tagScores + Scores(t, done) + [Score(t, x)] == tagScores + Scores(t, done + [x])
    ensures tagIds + Lookups(tagIdVocab, done) + [Get(tagIdVocab, x)] == tagIds + Lookups(tagIdVocab, done + [x])
  {
    LookupsAppend(vocabInv, done, x);
    LookupsAppend(tagIdVocab, done, x);
    ScoresAppend(t, done, x);
  }

  /** The loop `for added_tag in added_tags`: extends the three parallel
      lists with each added ancestor's name, table score and tag id. */
  method AppendAddedTags(tags: seq<Option<string>>, tagScores: seq<real>, tagIds: seq<Option<int>>,
                         added: seq<int>, t: map<int, real>, vocabInv: map<int, string>, tagIdVocab: map<int, int>)
    returns (tags': seq<Option<string>>, tagScores': seq<real>, tagIds': seq<Option<int>>)
    ensures tags' == tags + Lookups(vocabInv, added)
    ensures tagScores' == tagScores + Scores(t, added)
    ensures tagIds' == tagIds + Lookups(tagIdVocab, added)
  {
    tags', tagScores', tagIds' := tags, tagScores, tagIds;
    ghost var done: seq<int> := [];
    for k := 0 to |added|
      invariant done == added[..k]
      invariant tags' == tags + Lookups(vocabInv, done)
      invariant tagScores' == tagScores + Scores(t, done)
      invariant tagIds' == tagIds + Lookups(tagIdVocab, done)
    {
      var x := added[k];
      AssembleStep(tags, tagScores, tagIds, done, x, t, vocabInv, tagIdVocab);
      tags' := tags' + [Get(vocabInv, x)];
      tagScores' := tagScores' + [Score(t, x)];
      tagIds' := tagIds' + [Get(tagIdVocab, x)];
      done := done + [x];
    }
    assert added[..|added|] == added;
  }

  /** One document's pass through the tagging loop body. */
  method TagDocument(paperId: string, pred: seq<int>, score: seq<real>, level01: set<int>,
                     ancestors: map<int, Ancestry>, vocabInv: map<int, string>, tagIdVocab: map<int, int>)
    returns (rec: TagRecord)
    requires |pred| == |score| >= Window
    requires var ids := CandidateIds(pred, score, level01); forall a :: 0 <= a < |ids| ==> ids[a] in ancestors
    ensures var ids := CandidateIds(pred, score, level01);
      var t := ScoreTable(pred, score);
      var added := AddedTags(ChainIds(ids, ancestors, t), ids);
      && rec.paperId == paperId
      && |rec.tags| == |rec.scores| == |rec.tagIds| == |ids| + |added| >= 1
      && rec.tags == Lookups(vocabInv, ids + added)
      && rec.tagIds == Lookups(tagIdVocab, ids + added)
      && rec.scores == CandidateScores(pred, score, level01) + Scores(t, added)
      && rec.chain == map p | p in ids :: ancestors[p]
  {
    var table := ScoreTable(pred, score);
    var tags, tagScores, tagIds, predIds := SelectCandidates(pred, score, level01, vocabInv, tagIdVocab);
    var chainIds := ResolveClosure(predIds, ancestors, table);
    var added := AddedTags(chainIds, predIds);
    tags, tagScores, tagIds := AppendAddedTags(tags, tagScores, tagIds, added, table, vocabInv, tagIdVocab);
    LookupsConcat(vocabInv, predIds, added);
    LookupsConcat(tagIdVocab, predIds, added);
    var chainMeta := map p | p in predIds :: ancestors[p];
    rec := TagRecord(paperId, tags, tagScores, tagIds, chainMeta);
  }
}
