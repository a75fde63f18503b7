/** How a successor's history array is filled, at the level of Java arrays:
    a fresh array of `lmOrder - 1` null slots, the tail of the predecessor's
    history copied to its front, and the predecessor's current candidate
    stored in the last slot. The copy as written asks for one element too
    many whenever the model order is above two. */
module HistoryCopy {
  import opened Wrappers
  import opened Lattice

  /** The runtime exceptions the array code can raise. */
  datatype ArrayError = NegativeArraySize | IndexOutOfBounds

  /** A Java array of candidates: a slot is `None` while it holds `null`. */
  type Slots = seq<Option<Candidate>>

  /** `new Candidate[n]`: `n` null slots; a negative size throws. */
  function NewArray(n: int): (r: Result<Slots, ArrayError>)
    ensures r.Success? <==> n >= 0
    ensures r.Success? ==> |r.value| == n && forall j :: 0 <= j < n ==> r.value[j].None?
    ensures r.Failure? ==> r.error == NegativeArraySize
  {
    if n < 0 then Failure(NegativeArraySize) else Success(seq(n, j => None))
  }

  /** `System.arraycopy(src, srcPos, dest, destPos, length)`: it throws when
      a position or the length is negative or either range runs past its
      array's end; otherwise `dest` gets `length` elements of `src` at
      `destPos` and is unchanged elsewhere. */
  function ArrayCopy(src: Slots, srcPos: int, dest: Slots, destPos: int, length: int): (r: Result<Slots, ArrayError>)
    ensures r.Success? <==>
      0 <= srcPos && 0 <= destPos && 0 <= length && srcPos + length <= |src| && destPos + length <= |dest|
    ensures r.Failure? ==> r.error == IndexOutOfBounds
    ensures r.Success? ==> |r.value| == |dest|
    ensures r.Success? ==> forall j :: 0 <= j < |dest| ==>
      r.value[j] == if destPos <= j < destPos + length then src[srcPos + j - destPos] else dest[j]
  {
    if srcPos < 0 || destPos < 0 || length < 0 || srcPos + length > |src| || destPos + length > |dest| then
      Failure(IndexOutOfBounds)
    else
      Success(dest[..destPos] + src[srcPos..srcPos + length] + dest[destPos + length..])
  }

  /** `array[index] = value`: throws outside the array. */
  function Store(a: Slots, index: int, value: Candidate): (r: Result<Slots, ArrayError>)
    ensures r.Success? <==> 0 <= index < |a|
    ensures r.Failure? ==> r.error == IndexOutOfBounds
    ensures r.Success? ==> r.value == a[index := Some(value)]
  {
    if 0 <= index < |a| then Success(a[index := Some(value)]) else Failure(IndexOutOfBounds)
  }

  /** Non-null slots holding `cs`. */
  function Lift(cs: seq<Candidate>): (r: Slots)
    ensures |r| == |cs|
    ensures forall j :: 0 <= j < |r| ==> r[j] == Some(cs[j])
  {
    seq(|cs|, j requires 0 <= j < |cs| => Some(cs[j]))
  }

  /** The history-building statements of the decoder's inner loop, with the
      copy length left as a parameter. */
  function NextHistory(lmOrder: int, history: Slots, current: Candidate, copyLength: int): Result<Slots, ArrayError> {
    match NewArray(lmOrder - 1)
    case Failure(e) => Failure(e)
    case Success(hist) =>
      var copied := if lmOrder > 2 then ArrayCopy(history, 1, hist, 0, copyLength) else Success(hist);
      match copied
      case Failure(e) => Failure(e)
      case Success(filled) => Store(filled, |filled| - 1, current)
  }

  /** The statements as written: `lmOrder - 1` elements are copied from
      position 1 of a history that only has `lmOrder - 1`. */
  function NextHistoryAsWritten(lmOrder: int, history: Slots, current: Candidate): Result<Slots, ArrayError> {
    NextHistory(lmOrder, history, current, lmOrder - 1)
  }

  /** The statements as intended: the `lmOrder - 2` entries after the
      oldest are copied, which leaves exactly the last slot for `current`. */
  function NextHistoryCorrected(lmOrder: int, history: Slots, current: Candidate): Result<Slots, ArrayError> {
    NextHistory(lmOrder, history, current, lmOrder - 2)
  }

  /** As written, every model of order three or more throws on the first
      successor it builds, whatever the history holds. */
  lemma AsWrittenOverruns(lmOrder: int, history: Slots, current: Candidate)
    requires lmOrder > 2 && |history| == lmOrder - 1
    ensures NextHistoryAsWritten(lmOrder, history, current) == Failure(IndexOutOfBounds)
  {
    assert ArrayCopy(history, 1, seq(lmOrder - 1, j => None), 0, lmOrder - 1).Failure?;
  }

  /** The smallest instance: a trigram model extending the seed. */
  lemma AsWrittenTrigramSeed()
    ensures NextHistoryAsWritten(3, [Some(Start), Some(Start)], Start) == Failure(IndexOutOfBounds)
  {
    AsWrittenOverruns(3, [Some(Start), Some(Start)], Start);
  }

  /** With a bigram model the copy is skipped and the code as written
      already shifts correctly. */
  lemma AsWrittenBigram(history: seq<Candidate>, current: Candidate)
    requires |history| == 1
    ensures NextHistoryAsWritten(2, Lift(history), current) == Success(Lift(Shift(history, current)))
  {
    var hist := seq(1, j => None);
    assert NewArray(1) == Success(hist);
    assert hist[0 := Some(current)] == [Some(current)];
    assert Shift(history, current) == [current];
    assert Lift(Shift(history, current)) == [Some(current)];
  }

  /** Below order two there is no slot for the predecessor's candidate
      (order one) or no array at all (lower): the statements throw however
      the copy is written, which is why the decoder needs order two or
      more. */
  lemma NoHistoryBelowBigram(lmOrder: int, history: Slots, current: Candidate)
    requires lmOrder < 2
    ensures NextHistoryAsWritten(lmOrder, history, current).Failure?
    ensures NextHistoryCorrected(lmOrder, history, current).Failure?
  {
  }

  /** The corrected statements build exactly the shifted history the
      decoder's `Successor` uses, for every order of two or more. */
  lemma {:induction false} CorrectedShifts(lmOrder: int, history: seq<Candidate>, current: Candidate)
    requires lmOrder >= 2 && |history| == lmOrder - 1
    ensures NextHistoryCorrected(lmOrder, Lift(history), current) == Success(Lift(Shift(history, current)))
  {
    var hist := seq(lmOrder - 1, j => None);
    var filled := if lmOrder > 2 then ArrayCopy(Lift(history), 1, hist, 0, lmOrder - 2) else Success(hist);
    assert filled.Success?;
    var stored := filled.value[lmOrder - 2 := Some(current)];
    var shifted := Lift(Shift(history, current));
    assert |stored| == |shifted|;
    forall j | 0 <= j < |stored|
      ensures stored[j] == shifted[j]
    {
      if j < lmOrder - 2 {
        assert stored[j] == Some(history[j + 1]);
      }
    }
    assert stored == shifted;
  }
}
