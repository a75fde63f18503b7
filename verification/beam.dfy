/** The active list of one decoding step: an arena of hypotheses plus an
    explicit map from merge key to the arena slot holding the best
    hypothesis seen with that key. A new hypothesis replaces the one in its
    slot only on a strictly higher score, so among equal scores the first
    one seen stays. */
module Beam {
  import opened Lattice

  datatype Beam = Beam(hyps: seq<Hypothesis>, slots: map<Key, nat>)

  /** The slot map and the arena agree: every key points at the one
      hypothesis with that key, and every hypothesis has its key's slot. */
  ghost predicate Valid(b: Beam) {
    && (forall k :: k in b.slots ==> b.slots[k] < |b.hyps| && KeyOf(b.hyps[b.slots[k]]) == k)
    && (forall j :: 0 <= j < |b.hyps| ==> KeyOf(b.hyps[j]) in b.slots && b.slots[KeyOf(b.hyps[j])] == j)
  }

  /** A valid beam holds at most one hypothesis per key. */
  lemma KeysDistinct(b: Beam, i: nat, j: nat)
    requires Valid(b) && i < j < |b.hyps|
    ensures KeyOf(b.hyps[i]) != KeyOf(b.hyps[j])
  {
  }

  /** The hypothesis the beam keeps for `k`. */
  function Kept(b: Beam, k: Key): Hypothesis
    requires Valid(b) && k in b.slots
  {
    b.hyps[b.slots[k]]
  }

  /** The beam holds a hypothesis with key `k` scoring at least `score`. */
  ghost predicate Covers(b: Beam, k: Key, score: int) {
    k in b.slots && b.slots[k] < |b.hyps| && b.hyps[b.slots[k]].score >= score
  }

  /** No hypothesis at all. */
  const Empty: Beam := Beam([], map[])

  /** `activeList.add(h)`: a new key gets a fresh slot; a known key keeps
      the better of the two hypotheses, the old one on a tie. (On a valid
      beam a known key's slot is always inside the arena.) */
  function Insert(b: Beam, h: Hypothesis): (r: Beam)
    ensures |b.hyps| <= |r.hyps| <= |b.hyps| + 1
  {
    var k := KeyOf(h);
    if k in b.slots && b.slots[k] < |b.hyps| then
      var j := b.slots[k];
      if b.hyps[j].score < h.score then Beam(b.hyps[j := h], b.slots) else b
    else
      Beam(b.hyps + [h], b.slots[k := |b.hyps|])
  }

  /** Insertion keeps the slot map and the arena in agreement. */
  lemma InsertValid(b: Beam, h: Hypothesis)
    requires Valid(b)
    ensures Valid(Insert(b, h))
  {
  }

  /** After an insertion the beam holds a hypothesis with the inserted key
      scoring at least as well as the inserted one. */
  lemma InsertCovers(b: Beam, h: Hypothesis)
    ensures Covers(Insert(b, h), KeyOf(h), h.score)
  {
  }

  /** An insertion never loses coverage. */
  lemma InsertKeeps(b: Beam, h: Hypothesis, k: Key, score: int)
    requires Valid(b) && Covers(b, k, score)
    ensures Covers(Insert(b, h), k, score)
  {
  }

  /** Every hypothesis after an insertion is the inserted one or was there
      before at the same slot. */
  lemma InsertFrom(b: Beam, h: Hypothesis, j: nat)
    requires j < |Insert(b, h).hyps|
    ensures Insert(b, h).hyps[j] == h || (j < |b.hyps| && Insert(b, h).hyps[j] == b.hyps[j])
  {
  }

  /** On a known key, the kept hypothesis is replaced only by a strictly
      better one: among equal scores the first one seen stays. */
  lemma InsertTie(b: Beam, h: Hypothesis)
    requires Valid(b) && KeyOf(h) in b.slots
    ensures Valid(Insert(b, h))
    ensures Kept(Insert(b, h), KeyOf(h)) == if Kept(b, KeyOf(h)).score < h.score then h else Kept(b, KeyOf(h))
  {
  }

  /** Inserting `hs` one after the other, in order. */
  function InsertAll(b: Beam, hs: seq<Hypothesis>): Beam
  {
    if |hs| == 0 then b else Insert(InsertAll(b, hs[..|hs| - 1]), hs[|hs| - 1])
  }

  /** A batch of insertions keeps the beam valid. */
  lemma {:induction false} InsertAllValid(b: Beam, hs: seq<Hypothesis>)
    requires Valid(b)
    ensures Valid(InsertAll(b, hs))
  {
    if |hs| > 0 {
      InsertAllValid(b, hs[..|hs| - 1]);
      InsertValid(InsertAll(b, hs[..|hs| - 1]), hs[|hs| - 1]);
    }
  }

  /** After inserting `hs`, each of them is covered. */
  lemma {:induction false} InsertAllCovers(b: Beam, hs: seq<Hypothesis>, j: nat)
    requires Valid(b) && j < |hs|
    ensures Covers(InsertAll(b, hs), KeyOf(hs[j]), hs[j].score)
  {
    var n := |hs| - 1;
    var before := InsertAll(b, hs[..n]);
    if j < n {
      assert hs[..n][j] == hs[j];
      InsertAllCovers(b, hs[..n], j);
      InsertAllValid(b, hs[..n]);
      InsertKeeps(before, hs[n], KeyOf(hs[j]), hs[j].score);
    } else {
      InsertCovers(before, hs[n]);
    }
  }

  /** Inserting never loses coverage. */
  lemma {:induction false} InsertAllKeeps(b: Beam, hs: seq<Hypothesis>, k: Key, score: int)
    requires Valid(b) && Covers(b, k, score)
    ensures Covers(InsertAll(b, hs), k, score)
  {
    if |hs| > 0 {
      InsertAllKeeps(b, hs[..|hs| - 1], k, score);
      InsertAllValid(b, hs[..|hs| - 1]);
      InsertKeeps(InsertAll(b, hs[..|hs| - 1]), hs[|hs| - 1], k, score);
    }
  }

  /** Every hypothesis after inserting `hs` was there before or is one of
      `hs`. */
  lemma {:induction false} InsertAllFrom(b: Beam, hs: seq<Hypothesis>, x: nat)
    requires x < |InsertAll(b, hs).hyps|
    ensures InsertAll(b, hs).hyps[x] in b.hyps || InsertAll(b, hs).hyps[x] in hs
  {
    if |hs| > 0 {
      var n := |hs| - 1;
      var before := InsertAll(b, hs[..n]);
      InsertFrom(before, hs[n], x);
      if x < |before.hyps| && InsertAll(b, hs).hyps[x] == before.hyps[x] {
        InsertAllFrom(b, hs[..n], x);
      }
    }
  }
}
