/** Completeness of the ancestor closure of `transformation` in predictor.py:
    when does every output tag come with a full ancestor chain? */
module ClosureCompleteness {
  import opened Tagging

  predicate Within(c: seq<int>, s: seq<int>)
  {
    forall x :: x in c ==> x in s
  }

  /** `x` has a full ancestor chain inside `s`, if it has any chain at all. */
  predicate Covered(x: int, s: seq<int>, anc: map<int, Ancestry>)
  {
    x in anc && |anc[x].ancIds| > 0 ==> exists c :: c in anc[x].ancIds && Within(c, s)
  }

  /** Chains are upward closed: every label on a chain has one of its own
      chains inside that chain. */
  ghost predicate Consistent(anc: map<int, Ancestry>)
  {
    forall q, c, x :: q in anc && c in anc[q].ancIds && x in c ==> Covered(x, c, anc)
  }

  /** `x` lies on a chain of some label, and that chain is inside `s`. */
  ghost predicate Reached(x: int, s: seq<int>, anc: map<int, Ancestry>)
  {
    exists q, c :: q in anc && c in anc[q].ancIds && x in c && Within(c, s)
  }

  /** Every id of `chain_ids` lies on an appended chain, all of which is in `chain_ids`. */
  lemma {:induction false} ChainIdsReached(cands: seq<int>, anc: map<int, Ancestry>, t: map<int, real>)
    requires forall a :: 0 <= a < |cands| ==> cands[a] in anc
    ensures forall x :: x in ChainIds(cands, anc, t) ==> Reached(x, ChainIds(cands, anc, t), anc)
    decreases |cands|
  {
    if |cands| > 0 {
      var init := cands[..|cands| - 1];
      var p := cands[|cands| - 1];
      var acc := ChainIds(init, anc, t);
      var c := Contribution(acc, p, anc, t);
      var all := acc + c;
      ChainIdsReached(init, anc, t);
      forall x | x in all ensures Reached(x, all, anc) {
        if x in acc {
          var q, c' :| q in anc && c' in anc[q].ancIds && x in c' && Within(c', acc);
          assert Within(c', all);
        } else {
          assert x in c && c in anc[p].ancIds && Within(c, all);
        }
      }
    }
  }

  /** Under a consistent taxonomy every candidate ends up with one of its
      chains inside `chain_ids`. */
  lemma {:induction false} CandidatesCovered(cands: seq<int>, anc: map<int, Ancestry>, t: map<int, real>)
    requires forall a :: 0 <= a < |cands| ==> cands[a] in anc
    requires Consistent(anc)
    ensures forall x :: x in cands ==> Covered(x, ChainIds(cands, anc, t), anc)
    decreases |cands|
  {
    if |cands| > 0 {
      var init := cands[..|cands| - 1];
      var p := cands[|cands| - 1];
      var acc := ChainIds(init, anc, t);
      var all := acc + Contribution(acc, p, anc, t);
      CandidatesCovered(init, anc, t);
      ChainIdsReached(init, anc, t);
      forall x | x in cands ensures Covered(x, all, anc) {
        if x in init {
          assert Covered(x, acc, anc);
          if x in anc && |anc[x].ancIds| > 0 {
            var c :| c in anc[x].ancIds && Within(c, acc);
            assert Within(c, all);
          }
        } else {
          assert x == p;
          if p in acc {
            var q, c :| q in anc && c in anc[q].ancIds && p in c && Within(c, acc);
            assert Covered(p, c, anc);
            if |anc[p].ancIds| > 0 {
              var c' :| c' in anc[p].ancIds && Within(c', c);
              assert Within(c', all);
            }
          } else if |anc[p].ancIds| > 0 {
            assert Within(Contribution(acc, p, anc, t), all);
          }
        }
      }
    }
  }

  /** Under a consistent taxonomy every output id (candidates, then added
      ancestors) that has ancestor chains has one of them fully in the output. */
  lemma ClosureComplete(cands: seq<int>, anc: map<int, Ancestry>, t: map<int, real>)
    requires forall a :: 0 <= a < |cands| ==> cands[a] in anc
    requires Consistent(anc)
    ensures var out := cands + AddedTags(ChainIds(cands, anc, t), cands);
      forall x :: x in out ==> Covered(x, out, anc)
  {
    var chain := ChainIds(cands, anc, t);
    var out := cands + AddedTags(chain, cands);
    CandidatesCovered(cands, anc, t);
    ChainIdsReached(cands, anc, t);
    assert Within(chain, out);
    forall x | x in out ensures Covered(x, out, anc) {
      if x in cands {
        if x in anc && |anc[x].ancIds| > 0 {
          var c :| c in anc[x].ancIds && Within(c, chain);
        }
      } else {
        var q, c :| q in anc && c in anc[q].ancIds && x in c && Within(c, chain);
        assert Covered(x, c, anc);
      }
    }
  }

  /** A taxonomy that is not consistent: 1 has the one chain [2], and 2 has
      the one chain [3]. */
  function Inconsistent(): map<int, Ancestry>
  {
    map[1 := Ancestry([[2]], [["b"]]), 2 := Ancestry([[3]], [["c"]])]
  }

  lemma InconsistentClosure()
    ensures ChainIds([1, 2], Inconsistent(), map[]) == [2]
  {
    var anc, t := Inconsistent(), map[];
    assert [1, 2][..1] == [1];
    assert [1][..0] == [];
    assert ChainIds([1], anc, t) == [] + Contribution([], 1, anc, t);
    assert Contribution([], 1, anc, t) == [2];
    assert Contribution([2], 2, anc, t) == [];
  }

  /** Without consistency a candidate reached through another candidate's
      chain keeps no chain of its own: with the candidates [1, 2] the output
      is [1, 2], and 2's only chain [3] is not in it. */
  lemma ClosureIncompleteWhenInconsistent()
    ensures var out := [1, 2] + AddedTags(ChainIds([1, 2], Inconsistent(), map[]), [1, 2]);
      out == [1, 2] && !Covered(2, out, Inconsistent())
  {
    InconsistentClosure();
    assert [2][..0] == [];
    assert AddedTags([2], [1, 2]) == [];
    var out: seq<int> := [1, 2];
    assert Inconsistent()[2].ancIds == [[3]];
    assert 3 in [3] && 3 !in out;
  }
}
