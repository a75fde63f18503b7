/** The lattice (Viterbi) decoder of the normalizer: each candidate set of
    the sentence, then a final set holding only the end symbol, extends
    every hypothesis of the previous step with every candidate; the
    successors are merged by key into the next step's beam; the best final
    hypothesis is traced back through the per-step arenas. */
module Decoder {
  import opened Lattice
  import opened Beam

  /** Every hypothesis of `hs` has a history of length `n`. */
  ghost predicate HistoriesOfLength(hs: seq<Hypothesis>, n: nat) {
    forall j :: 0 <= j < |hs| ==> |hs[j].history| == n
  }

  /** `s` is the successor of the hypothesis at position `s.previous` of
      `prev` by one of `cands`. */
  ghost predicate Extends(lm: LanguageModel, prev: seq<Hypothesis>, cands: seq<Candidate>, s: Hypothesis) {
    && s.previous < |prev| && s.current in cands && |prev[s.previous].history| >= 1
    && s == Successor(lm, prev[s.previous], s.previous, s.current)
  }

  /** Every hypothesis the beam holds extends one of `prev`. */
  ghost predicate Sound(lm: LanguageModel, prev: seq<Hypothesis>, cands: seq<Candidate>, b: Beam) {
    forall x :: 0 <= x < |b.hyps| ==> Extends(lm, prev, cands, b.hyps[x])
  }

  /** The successors of `prev[i]` by each candidate, in candidate order:
      what the inner loop adds to the next beam. */
  function Row(lm: LanguageModel, prev: seq<Hypothesis>, i: nat, cands: seq<Candidate>): (r: seq<Hypothesis>)
    requires i < |prev| && |prev[i].history| >= 1
    ensures |r| == |cands|
  {
    seq(|cands|, j requires 0 <= j < |cands| => Successor(lm, prev[i], i, cands[j]))
  }

  /** The outer loop: the beam after the first `n` hypotheses of `prev`
      were extended by every candidate. */
  function StepOver(lm: LanguageModel, prev: seq<Hypothesis>, cands: seq<Candidate>, n: nat): (r: Beam)
    requires n <= |prev|
    requires forall x :: 0 <= x < |prev| ==> |prev[x].history| >= 1
  {
    if n == 0 then Empty
    else InsertAll(StepOver(lm, prev, cands, n - 1), Row(lm, prev, n - 1, cands))
  }

  /** Each successor in a row extends its hypothesis of `prev`. */
  lemma RowSound(lm: LanguageModel, prev: seq<Hypothesis>, i: nat, cands: seq<Candidate>, j: nat)
    requires i < |prev| && |prev[i].history| >= 1 && j < |cands|
    ensures Extends(lm, prev, cands, Row(lm, prev, i, cands)[j])
  {
    assert Row(lm, prev, i, cands)[j].current == cands[j];
  }

  /** The outer loop keeps the beam valid. */
  lemma {:induction false} StepOverValid(lm: LanguageModel, prev: seq<Hypothesis>, cands: seq<Candidate>, n: nat)
    requires n <= |prev|
    requires forall x :: 0 <= x < |prev| ==> |prev[x].history| >= 1
    ensures Valid(StepOver(lm, prev, cands, n))
  {
    if n > 0 {
      StepOverValid(lm, prev, cands, n - 1);
      InsertAllValid(StepOver(lm, prev, cands, n - 1), Row(lm, prev, n - 1, cands));
    }
  }

  /** The outer loop only adds successors of hypotheses of `prev`. */
  lemma {:induction false} StepOverSound(lm: LanguageModel, prev: seq<Hypothesis>, cands: seq<Candidate>, n: nat)
    requires n <= |prev|
    requires forall x :: 0 <= x < |prev| ==> |prev[x].history| >= 1
    ensures Sound(lm, prev, cands, StepOver(lm, prev, cands, n))
  {
    if n > 0 {
      var before := StepOver(lm, prev, cands, n - 1);
      var row := Row(lm, prev, n - 1, cands);
      StepOverSound(lm, prev, cands, n - 1);
      var r := StepOver(lm, prev, cands, n);
      assert r == InsertAll(before, row);
      forall x | 0 <= x < |r.hyps|
        ensures Extends(lm, prev, cands, r.hyps[x])
      {
        InsertAllFrom(before, row, x);
        if r.hyps[x] !in before.hyps {
          var j :| 0 <= j < |row| && row[j] == r.hyps[x];
          RowSound(lm, prev, n - 1, cands, j);
        }
      }
    }
  }

  /** After the outer loop has passed `prev[i]`, each of its successors is
      covered. */
  lemma {:induction false} StepOverCovers(lm: LanguageModel, prev: seq<Hypothesis>, cands: seq<Candidate>,
                                          n: nat, i: nat, j: nat)
    requires i < n <= |prev| && j < |cands|
    requires forall x :: 0 <= x < |prev| ==> |prev[x].history| >= 1
    ensures var s := Successor(lm, prev[i], i, cands[j]);
      Covers(StepOver(lm, prev, cands, n), KeyOf(s), s.score)
  {
    var s := Row(lm, prev, i, cands)[j];
    var before := StepOver(lm, prev, cands, n - 1);
    StepOverValid(lm, prev, cands, n - 1);
    if i == n - 1 {
      InsertAllCovers(before, Row(lm, prev, i, cands), j);
    } else {
      StepOverCovers(lm, prev, cands, n - 1, i, j);
      InsertAllKeeps(before, Row(lm, prev, n - 1, cands), KeyOf(s), s.score);
    }
  }

  /** One decoding step: every successor merged into a fresh active list.
      Successors keep their predecessors' history length. */
  function Step(lm: LanguageModel, prev: seq<Hypothesis>, cands: seq<Candidate>): (r: Beam)
    requires lm.order >= 2 && HistoriesOfLength(prev, lm.order - 1)
    ensures HistoriesOfLength(r.hyps, lm.order - 1)
  {
    StepOverSound(lm, prev, cands, |prev|);
    StepOver(lm, prev, cands, |prev|)
  }

  /** Every hypothesis a step keeps is a successor of a hypothesis of the
      previous step by a candidate of the step's set, and every such
      successor is matched by a kept hypothesis of its key scoring at least
      as well. */
  lemma StepSoundAndComplete(lm: LanguageModel, prev: seq<Hypothesis>, cands: seq<Candidate>)
    requires lm.order >= 2 && HistoriesOfLength(prev, lm.order - 1)
    ensures Valid(Step(lm, prev, cands)) && Sound(lm, prev, cands, Step(lm, prev, cands))
    ensures forall i, j :: 0 <= i < |prev| && 0 <= j < |cands| ==>
      var s := Successor(lm, prev[i], i, cands[j]); Covers(Step(lm, prev, cands), KeyOf(s), s.score)
  {
    StepOverValid(lm, prev, cands, |prev|);
    StepOverSound(lm, prev, cands, |prev|);
    forall i, j | 0 <= i < |prev| && 0 <= j < |cands|
      ensures var s := Successor(lm, prev[i], i, cands[j]); Covers(Step(lm, prev, cands), KeyOf(s), s.score)
    {
      StepOverCovers(lm, prev, cands, |prev|, i, j);
    }
  }

  /** The beam before the first step: the seed alone. */
  function InitialBeam(lm: LanguageModel): (r: Beam)
    requires lm.order >= 2
    ensures Valid(r) && r.hyps == [Initial(lm)]
  {
    Beam([Initial(lm)], map[KeyOf(Initial(lm)) := 0])
  }

  /** The beams of all steps, the seed's first: step `t + 1` extends step
      `t` with the `t`-th candidate set. All histories keep `order - 1`
      entries. */
  function Arenas(lm: LanguageModel, sets: seq<seq<Candidate>>): (r: seq<Beam>)
    requires lm.order >= 2
    ensures |r| == |sets| + 1
    ensures r[0] == InitialBeam(lm)
    ensures forall t :: 0 <= t < |r| ==> HistoriesOfLength(r[t].hyps, lm.order - 1)
    ensures forall t :: 0 <= t < |sets| ==> r[t + 1] == Step(lm, r[t].hyps, sets[t])
  {
    if |sets| == 0 then [InitialBeam(lm)]
    else
      var n := |sets| - 1;
      var init := sets[..n];
      var a := Arenas(lm, init);
      assert forall t :: 0 <= t < n ==> init[t] == sets[t];
      a + [Step(lm, a[n].hyps, sets[n])]
  }

  /** Step `t + 1` of the arenas is valid and holds only successors of
      step `t` by the `t`-th set. */
  lemma ArenaSound(lm: LanguageModel, sets: seq<seq<Candidate>>, t: nat)
    requires lm.order >= 2 && t < |sets|
    ensures var a := Arenas(lm, sets); Valid(a[t + 1]) && Sound(lm, a[t].hyps, sets[t], a[t + 1])
  {
    var a := Arenas(lm, sets);
    StepSoundAndComplete(lm, a[t].hyps, sets[t]);
  }

  /** The hypothesis at slot `i` of step `t + 1` extends one of step `t`. */
  lemma ArenaExtends(lm: LanguageModel, sets: seq<seq<Candidate>>, t: nat, i: nat)
    requires lm.order >= 2 && t < |sets| && i < |Arenas(lm, sets)[t + 1].hyps|
    ensures var a := Arenas(lm, sets); Extends(lm, a[t].hyps, sets[t], a[t + 1].hyps[i])
  {
    ArenaSound(lm, sets, t);
  }

  /** Step `t + 1` covers every successor of a hypothesis of step `t` by a
      candidate of the `t`-th set. */
  lemma ArenaCovers(lm: LanguageModel, sets: seq<seq<Candidate>>, t: nat, i: nat, j: nat)
    requires lm.order >= 2 && t < |sets|
    requires i < |Arenas(lm, sets)[t].hyps| && j < |sets[t]|
    ensures var a := Arenas(lm, sets); var s := Successor(lm, a[t].hyps[i], i, sets[t][j]);
      Covers(a[t + 1], KeyOf(s), s.score)
  {
    var a := Arenas(lm, sets);
    StepSoundAndComplete(lm, a[t].hyps, sets[t]);
  }

  /** Every step of the arenas is valid. */
  lemma ArenaValid(lm: LanguageModel, sets: seq<seq<Candidate>>, t: nat)
    requires lm.order >= 2 && t <= |sets|
    ensures Valid(Arenas(lm, sets)[t])
  {
    if t > 0 {
      ArenaSound(lm, sets, t - 1);
    }
  }

  /** Follows the `previous` links from slot `i` of step `t` back to the
      seed. The path it yields picks from each candidate set, leads to the
      hypothesis' key, and scores exactly the hypothesis' score. */
  function Backtrack(lm: LanguageModel, sets: seq<seq<Candidate>>, arenas: seq<Beam>, t: nat, i: nat)
    : (path: seq<Candidate>)
    requires lm.order >= 2 && arenas == Arenas(lm, sets)
    requires t < |arenas| && i < |arenas[t].hyps|
    ensures |path| == t
    ensures forall k :: 0 <= k < t ==> path[k] in sets[k]
    ensures KeyOf(arenas[t].hyps[i]) == PathKey(lm.order, path)
    ensures PathScore(lm, path) == arenas[t].hyps[i].score
    decreases t
  {
    if t == 0 then
      InitialKey(lm);
      []
    else
      ArenaExtends(lm, sets, t - 1, i);
      var h := arenas[t].hyps[i];
      var init := Backtrack(lm, sets, arenas, t - 1, h.previous);
      SuccessorOfPath(lm, arenas[t - 1].hyps[h.previous], h.previous, h.current, init);
      var path := init + [h.current];
      assert forall k :: 0 <= k < t - 1 ==> path[k] == init[k];
      path
  }

  /** Every path through the first `t` candidate sets is matched at step
      `t` by a kept hypothesis with the path's key and at least its score:
      merging never loses the best continuation. */
  lemma {:induction false} Complete(lm: LanguageModel, sets: seq<seq<Candidate>>, arenas: seq<Beam>, t: nat,
                                    path: seq<Candidate>)
    requires lm.order >= 2 && arenas == Arenas(lm, sets)
    requires t <= |sets| && |path| == t
    requires forall k :: 0 <= k < t ==> path[k] in sets[k]
    ensures Covers(arenas[t], PathKey(lm.order, path), PathScore(lm, path))
  {
    if t == 0 {
      InitialKey(lm);
    } else {
      var init := path[..t - 1];
      var c := path[t - 1];
      assert path == init + [c];
      Complete(lm, sets, arenas, t - 1, init);
      ArenaValid(lm, sets, t - 1);
      var b := arenas[t - 1];
      var j := b.slots[PathKey(lm.order, init)];
      SuccessorOfPath(lm, b.hyps[j], j, c, init);
      var ci :| 0 <= ci < |sets[t - 1]| && sets[t - 1][ci] == c;
      ArenaCovers(lm, sets, t - 1, j, ci);
    }
  }

  /** The first position of a maximal score: the hypothesis `getBest`
      returns, ties going to the earliest in the arena. */
  function BestIndex(hs: seq<Hypothesis>): (r: nat)
    requires |hs| > 0
    ensures r < |hs|
    ensures forall j :: 0 <= j < |hs| ==> hs[j].score <= hs[r].score
    ensures forall j :: 0 <= j < r ==> hs[j].score < hs[r].score
  {
    if |hs| == 1 then 0
    else
      var b := BestIndex(hs[..|hs| - 1]);
      if hs[|hs| - 1].score > hs[b].score then |hs| - 1 else b
  }

  /** The score of a whole sentence: its path followed by the end symbol. */
  function SentenceScore(lm: LanguageModel, path: seq<Candidate>): int {
    PathScore(lm, path + [End])
  }

  /** The contents of a path's candidates. */
  function Contents(path: seq<Candidate>): (r: seq<string>)
    ensures |r| == |path|
    ensures forall k :: 0 <= k < |r| ==> r[k] == path[k].content
  {
    seq(|path|, k requires 0 <= k < |path| => path[k].content)
  }

  /** Candidates with the given contents. */
  function AsCandidates(words: seq<string>): (r: seq<Candidate>)
    ensures |r| == |words|
    ensures forall k :: 0 <= k < |r| ==> r[k] == Candidate(words[k])
  {
    seq(|words|, k requires 0 <= k < |words| => Candidate(words[k]))
  }

  /** The first candidate of every set: a path that always exists when no
      set is empty. */
  function FirstChoices(sets: seq<seq<Candidate>>): (r: seq<Candidate>)
    requires forall t :: 0 <= t < |sets| ==> |sets[t]| > 0
    ensures ValidPath(r, sets)
  {
    seq(|sets|, t requires 0 <= t < |sets| => sets[t][0])
  }

  /** The beam after the final end-symbol step. */
  function Final(lm: LanguageModel, sets: seq<seq<Candidate>>): seq<Hypothesis>
    requires lm.order >= 2
  {
    Arenas(lm, sets + [[End]])[|sets| + 1].hyps
  }

  /** A path through `sets` followed by the end symbol picks from each
      set of the extended list. */
  lemma EndedPath(sets: seq<seq<Candidate>>, q: seq<Candidate>)
    requires ValidPath(q, sets)
    ensures var full := q + [End]; var all := sets + [[End]];
      |full| == |all| && forall k :: 0 <= k < |all| ==> full[k] in all[k]
  {
  }

  /** With no empty set the final beam is not empty. */
  lemma FinalNonEmpty(lm: LanguageModel, sets: seq<seq<Candidate>>)
    requires lm.order >= 2
    requires forall t :: 0 <= t < |sets| ==> |sets[t]| > 0
    ensures |Final(lm, sets)| > 0
  {
    var all := sets + [[End]];
    EndedPath(sets, FirstChoices(sets));
    Complete(lm, all, Arenas(lm, all), |all|, FirstChoices(sets) + [End]);
  }

  /** No sentence through `sets` scores more than the best final
      hypothesis. */
  lemma FinalBound(lm: LanguageModel, sets: seq<seq<Candidate>>, q: seq<Candidate>)
    requires lm.order >= 2 && |Final(lm, sets)| > 0
    requires ValidPath(q, sets)
    ensures SentenceScore(lm, q) <= Final(lm, sets)[BestIndex(Final(lm, sets))].score
  {
    var all := sets + [[End]];
    EndedPath(sets, q);
    Complete(lm, all, Arenas(lm, all), |all|, q + [End]);
  }

  /** The path found by following the best final hypothesis back: the walk
      starts at that hypothesis' predecessor, skipping the end symbol. */
  function BestPath(lm: LanguageModel, sets: seq<seq<Candidate>>): (path: seq<Candidate>)
    requires lm.order >= 2
    requires forall t :: 0 <= t < |sets| ==> |sets[t]| > 0
    ensures ValidPath(path, sets) && |Final(lm, sets)| > 0
    ensures SentenceScore(lm, path) == Final(lm, sets)[BestIndex(Final(lm, sets))].score
  {
    var all := sets + [[End]];
    var n := |sets|;
    FinalNonEmpty(lm, sets);
    var best := BestIndex(Final(lm, sets));
    ArenaExtends(lm, all, n, best);
    var h := Arenas(lm, all)[n + 1].hyps[best];
    var path := Backtrack(lm, all, Arenas(lm, all), n, h.previous);
    SuccessorOfPath(lm, Arenas(lm, all)[n].hyps[h.previous], h.previous, End, path);
    assert forall k :: 0 <= k < n ==> all[k] == sets[k];
    path
  }

  /** `decode`: the contents of a best-scoring path through the candidate
      sets. One word per set, each the content of one of its candidates,
      and no path through the sets scores higher. */
  function Decode(lm: LanguageModel, sets: seq<seq<Candidate>>): (r: seq<string>)
    requires lm.order >= 2
    requires forall t :: 0 <= t < |sets| ==> |sets[t]| > 0
    ensures |r| == |sets|
    ensures forall t :: 0 <= t < |sets| ==> Candidate(r[t]) in sets[t]
    ensures forall path :: ValidPath(path, sets) ==> SentenceScore(lm, path) <= SentenceScore(lm, AsCandidates(r))
  {
    var path := BestPath(lm, sets);
    forall q | ValidPath(q, sets)
      ensures SentenceScore(lm, q) <= SentenceScore(lm, path)
    {
      FinalBound(lm, sets, q);
    }
    assert AsCandidates(Contents(path)) == path;
    Contents(path)
  }
}
