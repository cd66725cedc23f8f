/** The pieces of Python's str(), int() and format() that the move sheet uses. */
module Text {

  predicate IsDigit(c: char) { '0' <= c <= '9' }

  predicate AllDigits(s: string) { forall i :: 0 <= i < |s| ==> IsDigit(s[i]) }

  function DigitChar(d: int): (c: char)
    requires 0 <= d < 10
    ensures IsDigit(c) && c as int - '0' as int == d
  {
    ('0' as int + d) as char
  }

  function DigitValue(c: char): (d: int)
    requires IsDigit(c)
    ensures 0 <= d < 10
  {
    c as int - '0' as int
  }

  /** str(n) for a non-negative integer: its decimal digits, no leading zero. */
  function NatStr(n: nat): (s: string)
    ensures 1 <= |s| && AllDigits(s)
    ensures s[0] == '0' <==> n == 0
    ensures n < 10 <==> |s| == 1
    decreases n
  {
    if n < 10 then [DigitChar(n)] else NatStr(n / 10) + [DigitChar(n % 10)]
  }

  /** int(s) for a string of ASCII digits (leading zeros allowed). Python raises on
      the empty string; here it reads as 0, and every caller passes a non-empty one. */
  function ParseNat(s: string): (n: nat)
    requires AllDigits(s)
    ensures n < Pow10(|s|)
    decreases |s|
  {
    if s == [] then 0 else ParseNat(s[..|s| - 1]) * 10 + DigitValue(s[|s| - 1])
  }

  /** Reading back the digits str() prints gives the number. */
  lemma {:induction false} ParseNatStr(n: nat)
    ensures ParseNat(NatStr(n)) == n
    decreases n
  {
    if n >= 10 {
      var s := NatStr(n);
      assert s[..|s| - 1] == NatStr(n / 10);
      ParseNatStr(n / 10);
    }
  }

  /** A number below 10^d has at most d digits. */
  lemma {:induction false} NatStrLength(n: nat, d: nat)
    requires 1 <= d && n < Pow10(d)
    ensures |NatStr(n)| <= d
    decreases d
  {
    if n >= 10 {
      assert Pow10(1) == 10;
      assert n / 10 < Pow10(d - 1);
      NatStrLength(n / 10, d - 1);
    }
  }

  /** A number of at least 10^d has more than d digits. */
  lemma {:induction false} NatStrLengthAtLeast(n: nat, d: nat)
    requires n >= Pow10(d)
    ensures |NatStr(n)| > d
    decreases d
  {
    if d > 0 {
      assert n / 10 >= Pow10(d - 1);
      NatStrLengthAtLeast(n / 10, d - 1);
    }
  }

  function Pow10(d: nat): (p: nat)
    ensures p >= 1
  {
    if d == 0 then 1 else 10 * Pow10(d - 1)
  }

  /** f"{s:<w}": s followed by spaces up to width w; a longer s is kept whole. */
  function PadRight(s: string, w: nat): (r: string)
    ensures |r| == if |s| < w then w else |s|
    ensures r[..|s|] == s
    ensures forall i :: |s| <= i < |r| ==> r[i] == ' '
  {
    if |s| < w then s + seq(w - |s|, _ => ' ') else s
  }

  /** The padding f"{s:<w}" adds is a run of spaces. */
  lemma PadRightIsSpaces(s: string, w: nat)
    ensures |PadRight(s, w)| >= |s|
    ensures PadRight(s, w) == s + seq(|PadRight(s, w)| - |s|, _ => ' ')
  {
  }

  /** s.rstrip(" "): what a reader does to a padded field. */
  function TrimRight(s: string): string
    decreases |s|
  {
    if s != [] && s[|s| - 1] == ' ' then TrimRight(s[..|s| - 1]) else s
  }

  /** f"{n:02}": the decimal digits of n, zero-padded on the left to width 2;
      a negative n is written with its sign, which counts towards the width. */
  function Format02(n: int): (r: string)
    ensures n >= 0 ==> |r| >= 2 && AllDigits(r)
    ensures 0 <= n < 100 ==> |r| == 2
    ensures n >= 10 ==> r[0] != '0'
    ensures n < 0 ==> |r| >= 2 && r[0] == '-'
  {
    if n < 0 then "-" + NatStr(-n)
    else if n < 10 then "0" + NatStr(n)
    else NatStr(n)
  }

  /** int() reads back every non-negative value f"{n:02}" prints. */
  lemma Format02ReadsBack(n: int)
    requires n >= 0
    ensures ParseNat(Format02(n)) == n
  {
    var r := Format02(n);
    if n < 10 {
      assert r[..1] == "0" && r[..1][..0] == [];
    } else {
      ParseNatStr(n);
    }
  }

  /** Every value below 100 is printed as exactly two digits, tens first. */
  lemma TwoDigitField(n: int)
    requires 0 <= n < 100
    ensures Format02(n) == [DigitChar(n / 10), DigitChar(n % 10)]
    ensures AllDigits(Format02(n)) && ParseNat(Format02(n)) == n
  {
    if n >= 10 {
      assert NatStr(n) == NatStr(n / 10) + [DigitChar(n % 10)];
    }
    var f := Format02(n);
    assert f[..1] == [DigitChar(n / 10)];
    assert f[..1][..0] == [];
    assert ParseNat(f[..1]) == n / 10;
  }

  /** sep.join(parts): the parts in order, with sep between each two of them. */
  function Join(sep: string, parts: seq<string>): (r: string)
    decreases |parts|
  {
    if |parts| == 0 then ""
    else if |parts| == 1 then parts[0]
    else parts[0] + sep + Join(sep, parts[1..])
  }

  /** Offset(a, j) is a * j, written with additions only. */
  function Offset(a: nat, j: nat): nat
  {
    if j == 0 then 0 else a + Offset(a, j - 1)
  }

  lemma {:induction false} OffsetIsProduct(a: nat, j: nat)
    ensures Offset(a, j) == a * j
  {
    if j > 0 {
      OffsetIsProduct(a, j - 1);
    }
  }

  /** Past the first j parts of one width w and their separators, the joined text is
      the join of the remaining parts. */
  lemma {:induction false} JoinSuffix(sep: string, parts: seq<string>, w: nat, j: nat)
    requires j < |parts|
    requires forall i :: 0 <= i < |parts| ==> |parts[i]| == w
    ensures Offset(w + |sep|, j) <= |Join(sep, parts)|
    ensures Join(sep, parts)[Offset(w + |sep|, j)..] == Join(sep, parts[j..])
    decreases j
  {
    if j > 0 {
      JoinSuffix(sep, parts[1..], w, j - 1);
      var rest := Join(sep, parts[1..]);
      var head := parts[0] + sep;
      assert Join(sep, parts) == head + rest;
      assert (head + rest)[Offset(w + |sep|, j)..] == rest[Offset(w + |sep|, j - 1)..];
      assert parts[1..][j - 1..] == parts[j..];
    }
  }

  /** Part j of parts of one width w, followed by the separator unless it is the last,
      starts at Offset(stride, j) of the joined text. */
  lemma JoinPartAt(sep: string, parts: seq<string>, w: nat, j: nat)
    requires j < |parts|
    requires forall i :: 0 <= i < |parts| ==> |parts[i]| == w
    ensures Offset(w + |sep|, j) + w <= |Join(sep, parts)|
    ensures Join(sep, parts)[Offset(w + |sep|, j) .. Offset(w + |sep|, j) + w] == parts[j]
    ensures j < |parts| - 1 ==>
      Offset(w + |sep|, j) + w + |sep| <= |Join(sep, parts)| &&
      Join(sep, parts)[Offset(w + |sep|, j) .. Offset(w + |sep|, j) + w + |sep|] == parts[j] + sep
    ensures j == |parts| - 1 ==> |Join(sep, parts)| == Offset(w + |sep|, j) + w
  {
    var s := Join(sep, parts);
    var k := Offset(w + |sep|, j);
    JoinSuffix(sep, parts, w, j);
    var tail := Join(sep, parts[j..]);
    assert parts[j..][0] == parts[j];
    if j < |parts| - 1 {
      assert tail == parts[j] + sep + Join(sep, parts[j..][1..]);
    }
    assert s[k .. k + w] == tail[..w];
    if j < |parts| - 1 {
      assert s[k .. k + w + |sep|] == tail[..w + |sep|];
    } else {
      assert parts[j..] == [parts[j]];
    }
  }

  /** A character found in neither the separator nor any part is not in the joined text. */
  lemma {:induction false} JoinAvoids(sep: string, parts: seq<string>, c: char)
    requires c !in sep
    requires forall j :: 0 <= j < |parts| ==> c !in parts[j]
    ensures c !in Join(sep, parts)
    decreases |parts|
  {
    if |parts| > 1 {
      JoinAvoids(sep, parts[1..], c);
      assert Join(sep, parts) == parts[0] + sep + Join(sep, parts[1..]);
    }
  }

  /** s.lstrip(" "): what a reader does to the spaces before a field. */
  function DropSpaces(s: string): (r: string)
    ensures r == [] || r[0] != ' '
    ensures |r| <= |s| && r == s[|s| - |r|..]
    ensures forall i :: 0 <= i < |s| - |r| ==> s[i] == ' '
    decreases |s|
  {
    if s != [] && s[0] == ' ' then DropSpaces(s[1..]) else s
  }

  /** Dropping the spaces before a text that does not start with one gives the text. */
  lemma {:induction false} DropSpacesBefore(m: nat, s: string)
    requires s == [] || s[0] != ' '
    ensures DropSpaces(seq(m, _ => ' ') + s) == s
    decreases m
  {
    if m > 0 {
      assert (seq(m, _ => ' ') + s)[1..] == seq(m - 1, _ => ' ') + s;
      DropSpacesBefore(m - 1, s);
    } else {
      assert seq(m, _ => ' ') + s == s;
    }
  }
}
