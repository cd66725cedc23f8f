/** encode_move: a per-move additive cipher over the indexer's codes. */
module Cipher {
  import opened Errors
  import opened Alphabet

  /** The largest key. */
  const MaxK := 6
  /** The value that ends the real data of a row. */
  const Sentinel := 95
  /** The largest value a cipher may reach: one below the sentinel. */
  const TopValue := 94

  /** What encode_move returns: the key and the shifted codes. */
  datatype Encoded = Encoded(key: int, cipher: seq<int>)

  function Max(s: seq<int>): (m: int)
    requires s != []
    ensures exists i :: 0 <= i < |s| && s[i] == m
    ensures forall i :: 0 <= i < |s| ==> s[i] <= m
    decreases |s|
  {
    if |s| == 1 then s[0]
    else
      var t := Max(s[1..]);
      assert forall i :: 1 <= i < |s| ==> s[i] == s[1..][i - 1];
      if s[0] >= t then s[0] else t
  }

  /** The top of the key range: min(MAX_K, 94 - max(plain)). */
  function KeyMax(plain: seq<int>): int
    requires plain != []
  {
    var room := TopValue - Max(plain);
    if MaxK <= room then MaxK else room
  }

  /** Every code shifted by the key. */
  function Shift(plain: seq<int>, k: int): seq<int>
  {
    seq(|plain|, i requires 0 <= i < |plain| => plain[i] + k)
  }

  /** With this alphabet the largest code is 88, so the key range is always the full
      [1, MAX_K] and randint never meets an empty range. */
  lemma KeyRangeIsFull(san: string)
    requires san != [] && AllAllowed(san)
    ensures KeyMax(Codes(san)) == MaxK
  {
    var plain := Codes(san);
    var i :| 0 <= i < |plain| && plain[i] == Max(plain);
    CodeRange(san[i]);
  }

  /** Shifting codes that are not negative by a key in [1, KeyMax] keeps every value
      positive and strictly below the sentinel. */
  lemma ShiftBelowSentinel(plain: seq<int>, k: int)
    requires plain != [] && 1 <= k <= KeyMax(plain)
    requires forall i :: 0 <= i < |plain| ==> 0 <= plain[i]
    ensures forall i :: 0 <= i < |plain| ==> 1 <= Shift(plain, k)[i] <= TopValue
  {
  }

  /** encode_move: index the move, draw a key from [1, KeyMax] (any value the random
      source may return), and shift every code by it. The key is at most MAX_K and
      every cipher value stays strictly below the sentinel. */
  method EncodeMove(san: string) returns (r: Result<Encoded>)
    requires san != []
    ensures r.Success? <==> AllAllowed(san)
    ensures r.Failure? ==> !AllAllowed(san) && r.error == IllegalChar(san[FirstIllegal(san)], san)
    ensures r.Success? ==> 1 <= r.value.key <= KeyMax(Codes(san))
    ensures r.Success? ==> r.value.cipher == Shift(Codes(san), r.value.key)
    ensures r.Success? ==> r.value.key <= MaxK
    ensures r.Success? ==> |r.value.cipher| == |san|
    ensures r.Success? ==> forall i :: 0 <= i < |san| ==> 0 <= r.value.cipher[i] < Sentinel
  {
    var indexed := SanToIndices(san);
    if indexed.Failure? {
      return Failure(indexed.error);
    }
    var plain := indexed.value;
    KeyRangeIsFull(san);
    var kMax := KeyMax(plain);
    var k :| 1 <= k <= kMax;
    forall i | 0 <= i < |san|
      ensures 3 <= plain[i] <= Max(plain)
    {
      CodeRange(san[i]);
    }
    r := Success(Encoded(k, Shift(plain, k)));
  }
}
