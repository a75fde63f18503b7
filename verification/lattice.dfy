/** The values of the lattice search: candidates, hypotheses and their
    merge key, the language model as a scoring oracle, and the meaning of a
    path through the lattice (its context key and its additive score). */
module Lattice {

  /** A proposed surface form. Equality is by content only, as in the source. */
  datatype Candidate = Candidate(content: string)

  /** The sentence-start symbol. */
  const Start: Candidate := Candidate("<s>")

  /** The sentence-end symbol. */
  const End: Candidate := Candidate("</s>")

  /** The n-gram language model: its order, its vocabulary index (unknown
      words map to whatever index it chooses) and the log-probability of a
      tuple of `order` indexes. Scores are additive log-domain integers. */
  datatype LanguageModel = LanguageModel(
    order: nat,
    vocabularyIndex: string -> int,
    logProbability: seq<int> -> int)

  /** The vocabulary indexes of the contents of `window`, in order. */
  function Indexes(lm: LanguageModel, window: seq<Candidate>): seq<int> {
    seq(|window|, j requires 0 <= j < |window| => lm.vocabularyIndex(window[j].content))
  }

  /** The model's score of the last candidate of `window` given the ones
      before it. */
  function WindowScore(lm: LanguageModel, window: seq<Candidate>): int {
    lm.logProbability(Indexes(lm, window))
  }

  /** A node of the search: the `order - 1` previously chosen candidates
      (oldest first), the candidate chosen at this step, the position of
      the hypothesis it extends in the previous step's arena, and the
      cumulative score of its path. */
  datatype Hypothesis = Hypothesis(
    history: seq<Candidate>,
    current: Candidate,
    previous: nat,
    score: int)

  /** What identifies a hypothesis: its history and its current candidate,
      regardless of score and ancestry. */
  datatype Key = Key(history: seq<Candidate>, current: Candidate)

  /** The merge key of a hypothesis. */
  function KeyOf(h: Hypothesis): Key {
    Key(h.history, h.current)
  }

  /** `n` copies of `c`. */
  function Repeat(c: Candidate, n: nat): (r: seq<Candidate>)
    ensures |r| == n
    ensures forall j :: 0 <= j < n ==> r[j] == c
  {
    if n == 0 then [] else Repeat(c, n - 1) + [c]
  }

  /** The seed of the search: an all-start history, the start symbol as
      current candidate, score zero. */
  function Initial(lm: LanguageModel): (r: Hypothesis)
    requires lm.order >= 2
    ensures |r.history| == lm.order - 1 && r.score == 0
  {
    Hypothesis(Repeat(Start, lm.order - 1), Start, 0, 0)
  }

  /** The history of a successor: the oldest entry dropped and the
      predecessor's current candidate appended. */
  function Shift(history: seq<Candidate>, current: Candidate): (r: seq<Candidate>)
    requires |history| >= 1
    ensures |r| == |history|
  {
    history[1..] + [current]
  }

  /** The hypothesis that extends `h`, found at `index` of its arena, with
      candidate `c`; its score adds the model's score of `c` in context. */
  function Successor(lm: LanguageModel, h: Hypothesis, index: nat, c: Candidate): (r: Hypothesis)
    requires |h.history| >= 1
    ensures |r.history| == |h.history|
    ensures r.current == c && r.previous == index
  {
    var history := Shift(h.history, h.current);
    Hypothesis(history, c, index, h.score + WindowScore(lm, history + [c]))
  }

  /** A path of choices with `order` start symbols in front of it. */
  function Padded(order: nat, path: seq<Candidate>): (r: seq<Candidate>)
    ensures |r| == order + |path|
  {
    Repeat(Start, order) + path
  }

  /** The key a hypothesis at the end of `path` has: the last `order`
      symbols of the padded path, split into history and current. */
  function PathKey(order: nat, path: seq<Candidate>): Key
    requires order >= 1
  {
    var padded := Padded(order, path);
    var n := |path|;
    Key(padded[n..n + order - 1], padded[n + order - 1])
  }

  /** The score of a path: the sum over its positions of the model's score
      of the window of `order` symbols that ends there. */
  function PathScore(lm: LanguageModel, path: seq<Candidate>): int
  {
    if |path| == 0 then 0
    else
      PathScore(lm, path[..|path| - 1]) + WindowScore(lm, Padded(lm.order, path)[|path|..])
  }

  /** `path` picks, at each position, one of that position's candidates. */
  predicate ValidPath(path: seq<Candidate>, sets: seq<seq<Candidate>>) {
    |path| == |sets| && forall j :: 0 <= j < |path| ==> path[j] in sets[j]
  }

  /** The seed is the state of the empty path. */
  lemma InitialKey(lm: LanguageModel)
    requires lm.order >= 2
    ensures KeyOf(Initial(lm)) == PathKey(lm.order, [])
  {
    var padded := Padded(lm.order, []);
    assert padded[..lm.order - 1] == Repeat(Start, lm.order - 1);
  }

  /** Extending a path by `c` moves its key the way `Successor` moves a
      hypothesis' key, and adds the score of the window ending at `c`. */
  lemma {:induction false} PathExtend(lm: LanguageModel, path: seq<Candidate>, c: Candidate)
    requires lm.order >= 2
    ensures var k := PathKey(lm.order, path);
      && PathKey(lm.order, path + [c]) == Key(Shift(k.history, k.current), c)
      && PathScore(lm, path + [c]) == PathScore(lm, path) + WindowScore(lm, Shift(k.history, k.current) + [c])
  {
    var o := lm.order;
    var n := |path|;
    var p := Padded(o, path);
    var p' := Padded(o, path + [c]);
    assert p' == p + [c];
    var k := PathKey(o, path);
    var shifted := Shift(k.history, k.current);
    assert shifted == p[n + 1..n + o];
    assert p'[n + 1..n + o] == shifted;
    assert p'[n + 1..] == shifted + [c];
    assert (path + [c])[..n] == path;
  }

  /** A hypothesis that stands for a path has a successor that stands for
      the extended path, with the extended path's score. */
  lemma SuccessorOfPath(lm: LanguageModel, h: Hypothesis, index: nat, c: Candidate, path: seq<Candidate>)
    requires lm.order >= 2 && |h.history| >= 1
    requires KeyOf(h) == PathKey(lm.order, path)
    ensures KeyOf(Successor(lm, h, index, c)) == PathKey(lm.order, path + [c])
    ensures Successor(lm, h, index, c).score - h.score == PathScore(lm, path + [c]) - PathScore(lm, path)
  {
    PathExtend(lm, path, c);
  }
}
