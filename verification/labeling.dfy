/** The label choice in `processImageLabeling`: an argmax over the classifier's
    output bytes, one per entry of the label list. */
module Labeling {
  import opened Options

  /** How an output byte becomes a score numerator (the score is the
      numerator over 255). The source reads bytes signed; `Unsigned` is the
      reading the `and 0xff` mask was evidently meant to produce. */
  datatype ByteReading = SignedAsWritten | Unsigned

  /** The value of a Kotlin `Byte`: two's complement, from -128 to 127. */
  function SignedValue(b: bv8): (v: int)
    ensures -128 <= v < 128
    ensures v % 256 == b as int
  {
    if b < 128 then b as int else b as int - 256
  }

  /** `labels[0][i] and 0xff.toByte()`, as a number. `0xff.toByte()` is the
      byte -1 with all bits set, so the `and` leaves the byte as it is and its
      signed value is what gets divided. */
  function Numerator(b: bv8, reading: ByteReading): (v: int)
    ensures reading == SignedAsWritten ==> -128 <= v < 128 && v % 256 == b as int && (v < 0 <==> b >= 128)
    ensures reading == Unsigned ==> 0 <= v < 256 && v == b as int
  {
    match reading
    case SignedAsWritten => SignedValue(b & (0xFF as bv8))
    case Unsigned => b as int
  }

  /** The mask is a no-op on a byte. */
  lemma MaskIsNoOp(b: bv8)
    ensures b & (0xFF as bv8) == b
  {
  }

  /** The score numerators of the first `n` output bytes. */
  function Numerators(row: seq<bv8>, n: nat, reading: ByteReading): (s: seq<int>)
    requires n <= |row|
    ensures |s| == n
    ensures forall i :: 0 <= i < n ==> s[i] == Numerator(row[i], reading)
  {
    seq(n, i requires 0 <= i < n => Numerator(row[i], reading))
  }

  /** `k` is the loop's pick: a strictly positive score, no score above it,
      and every earlier score strictly below it (ties keep the earliest). */
  predicate IsTopIndex(s: seq<int>, k: nat) {
    k < |s| && s[k] > 0
    && (forall i :: 0 <= i < |s| ==> s[i] <= s[k])
    && (forall i :: 0 <= i < k ==> s[i] < s[k])
  }

  /** The scan `if (score > topScore)` over the indices in increasing order,
      starting from a top score of 0: `None` when nothing beats 0. */
  function BestIndex(s: seq<int>): (r: Option<nat>)
    ensures r.None? <==> forall i :: 0 <= i < |s| ==> s[i] <= 0
    ensures r.Some? ==> IsTopIndex(s, r.value)
    decreases |s|
  {
    if |s| == 0 then None
    else
      var n := |s| - 1;
      var prev := BestIndex(s[..n]);
      var top := if prev.None? then 0 else s[prev.value];
      if s[n] > top then Some(n) else prev
  }

  /** At most one index is the pick, so the characterisation determines it. */
  lemma TopIndexUnique(s: seq<int>, k1: nat, k2: nat)
    requires IsTopIndex(s, k1) && IsTopIndex(s, k2)
    ensures k1 == k2
  {
  }

  /** The loop over the label list: the label and score of the pick, or `""`
      and 0 when no score is strictly positive. The output row must have an
      entry per label: the source indexes it by label position. */
  function TopLabel(labelList: seq<string>, row: seq<bv8>, reading: ByteReading): (r: (string, real))
    requires |labelList| <= |row|
    ensures var s := Numerators(row, |labelList|, reading);
      (exists k: nat :: IsTopIndex(s, k) && r == (labelList[k], s[k] as real / 255.0))
      || ((forall i :: 0 <= i < |s| ==> s[i] <= 0) && r == ("", 0.0))
    ensures r.1 >= 0.0
  {
    var s := Numerators(row, |labelList|, reading);
    match BestIndex(s)
    case None => ("", 0.0)
    case Some(k) => (labelList[k], s[k] as real / 255.0)
  }

  /** As written, a byte of 128 or more reads as a negative score and never
      wins, however confident the classifier was. */
  lemma HighBytesNeverWinAsWritten(labelList: seq<string>, row: seq<bv8>, i: nat)
    requires |labelList| <= |row| && i < |labelList| && row[i] >= 128
    ensures !IsTopIndex(Numerators(row, |labelList|, SignedAsWritten), i)
  {
  }

  /** Concrete case: a single label scored 200/255 is dropped as written and
      chosen under the unsigned reading. */
  lemma ConfidentLabelDroppedAsWritten()
    ensures TopLabel(["cat"], [200], SignedAsWritten) == ("", 0.0)
    ensures TopLabel(["cat"], [200], Unsigned) == ("cat", 200.0 / 255.0)
  {
    var s := Numerators([200], 1, SignedAsWritten);
    assert s[0] == -56;
    assert BestIndex(s) == None;
    var u := Numerators([200], 1, Unsigned);
    assert u[0] == 200;
    assert IsTopIndex(u, 0);
  }

  /** Under the unsigned reading, whenever some output byte is non-zero a
      label is chosen, and it carries the largest output byte. */
  lemma UnsignedPicksLargestByte(labelList: seq<string>, row: seq<bv8>, i: nat)
    requires |labelList| <= |row| && i < |labelList| && row[i] != 0
    ensures BestIndex(Numerators(row, |labelList|, Unsigned)).Some?
    ensures var k := BestIndex(Numerators(row, |labelList|, Unsigned)).value;
      k < |labelList|
      && TopLabel(labelList, row, Unsigned) == (labelList[k], row[k] as real / 255.0)
      && forall j :: 0 <= j < |labelList| ==> row[j] <= row[k]
  {
    var s := Numerators(row, |labelList|, Unsigned);
    assert s[i] == row[i] as int;
    var best := BestIndex(s);
    assert best.Some?;
    var k := best.value;
    assert s[k] == row[k] as int;
    forall j | 0 <= j < |labelList| ensures row[j] <= row[k] {
      assert s[j] == row[j] as int;
      assert s[j] <= s[k];
    }
  }
}
