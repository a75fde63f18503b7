/** The reference the decoder is measured against: every path through the
    candidate sets listed explicitly, and the best of them picked by
    comparing all their scores. */
module BruteForce {
  import opened Lattice
  import opened Decoder

  /** `p` extended by each of `cands`, in order. */
  function ExtendOne(p: seq<Candidate>, cands: seq<Candidate>): (r: seq<seq<Candidate>>)
    ensures |r| == |cands|
    ensures forall j :: 0 <= j < |r| ==> r[j] == p + [cands[j]]
  {
    seq(|cands|, j requires 0 <= j < |cands| => p + [cands[j]])
  }

  /** Every path of `paths` extended by every candidate of `cands`. */
  function ExtendAll(paths: seq<seq<Candidate>>, cands: seq<Candidate>): (r: seq<seq<Candidate>>)
    ensures forall q :: q in r <==> exists i, j :: 0 <= i < |paths| && 0 <= j < |cands| && q == paths[i] + [cands[j]]
  {
    if |paths| == 0 then []
    else
      var n := |paths| - 1;
      var r := ExtendAll(paths[..n], cands) + ExtendOne(paths[n], cands);
      assert forall i :: 0 <= i < n ==> paths[..n][i] == paths[i];
      r
  }

  /** The cartesian product of the candidate sets: every way to pick one
      candidate per set. */
  function AllPaths(sets: seq<seq<Candidate>>): seq<seq<Candidate>> {
    if |sets| == 0 then [[]]
    else ExtendAll(AllPaths(sets[..|sets| - 1]), sets[|sets| - 1])
  }

  /** A path extended by a candidate of the next set is valid for the
      longer list of sets exactly when the path was valid for the shorter. */
  lemma ValidExtension(sets: seq<seq<Candidate>>, p: seq<Candidate>, c: Candidate)
    requires |sets| > 0 && c in sets[|sets| - 1]
    ensures ValidPath(p + [c], sets) <==> ValidPath(p, sets[..|sets| - 1])
  {
    var n := |sets| - 1;
    assert forall k :: 0 <= k < |p| ==> (p + [c])[k] == p[k];
    assert forall k :: 0 <= k < n ==> sets[..n][k] == sets[k];
  }

  /** Every enumerated path is valid. */
  lemma {:induction false} AllPathsSound(sets: seq<seq<Candidate>>, q: seq<Candidate>)
    requires q in AllPaths(sets)
    ensures ValidPath(q, sets)
  {
    if |sets| > 0 {
      var n := |sets| - 1;
      var init := sets[..n];
      var i, j :| 0 <= i < |AllPaths(init)| && 0 <= j < |sets[n]| && q == AllPaths(init)[i] + [sets[n][j]];
      AllPathsSound(init, AllPaths(init)[i]);
      ValidExtension(sets, AllPaths(init)[i], sets[n][j]);
    }
  }

  /** Every valid path is enumerated. */
  lemma {:induction false} AllPathsComplete(sets: seq<seq<Candidate>>, q: seq<Candidate>)
    requires ValidPath(q, sets)
    ensures q in AllPaths(sets)
  {
    if |sets| > 0 {
      var n := |sets| - 1;
      var init := sets[..n];
      var p := q[..n];
      assert q == p + [q[n]];
      ValidExtension(sets, p, q[n]);
      AllPathsComplete(init, p);
      var i :| 0 <= i < |AllPaths(init)| && AllPaths(init)[i] == p;
      var j :| 0 <= j < |sets[n]| && sets[n][j] == q[n];
      assert q == AllPaths(init)[i] + [sets[n][j]];
    } else {
      assert q == [];
    }
  }

  /** The enumeration lists exactly the valid paths. */
  lemma AllPathsValid(sets: seq<seq<Candidate>>, q: seq<Candidate>)
    ensures q in AllPaths(sets) <==> ValidPath(q, sets)
  {
    if q in AllPaths(sets) {
      AllPathsSound(sets, q);
    }
    if ValidPath(q, sets) {
      AllPathsComplete(sets, q);
    }
  }

  /** The first path of `paths` whose sentence score no other path beats. */
  function BestByEnumeration(lm: LanguageModel, paths: seq<seq<Candidate>>): (r: seq<Candidate>)
    requires |paths| > 0
    ensures r in paths
    ensures forall i :: 0 <= i < |paths| ==> SentenceScore(lm, paths[i]) <= SentenceScore(lm, r)
  {
    if |paths| == 1 then paths[0]
    else
      var n := |paths| - 1;
      var b := BestByEnumeration(lm, paths[..n]);
      assert forall i :: 0 <= i < n ==> paths[..n][i] == paths[i];
      if SentenceScore(lm, paths[n]) > SentenceScore(lm, b) then paths[n] else b
  }

  /** The decoder scores exactly as well as the best of all enumerated
      paths, and its output is one of them. */
  lemma DecodeMatchesEnumeration(lm: LanguageModel, sets: seq<seq<Candidate>>)
    requires lm.order >= 2
    requires forall t :: 0 <= t < |sets| ==> |sets[t]| > 0
    ensures |AllPaths(sets)| > 0
    ensures AsCandidates(Decode(lm, sets)) in AllPaths(sets)
    ensures SentenceScore(lm, AsCandidates(Decode(lm, sets)))
         == SentenceScore(lm, BestByEnumeration(lm, AllPaths(sets)))
  {
    var found := AsCandidates(Decode(lm, sets));
    assert ValidPath(found, sets);
    AllPathsValid(sets, found);
    var best := BestByEnumeration(lm, AllPaths(sets));
    AllPathsValid(sets, best);
    var i :| 0 <= i < |AllPaths(sets)| && AllPaths(sets)[i] == found;
  }
}
