/** The characters a move may contain, the code the indexer gives each of them
    and the legend printed on the first page. */
module Alphabet {
  import opened Errors
  import opened Text

  /** Legend groups, in the order the legend prints them. */
  const Pieces: string := "KQRBN"
  const Files: string := "abcdefgh"
  const Ranks: string := "12345678"
  const Symbols: string := "x+#=O-"

  /** Every character a move may contain: pieces, files, ranks, capture, check,
      mate, promotion and the castling letter and dash. */
  const SanChars: string := "KQRBNabcdefgh12345678x+#=O-"

  /** SAN_ALLOWED: the alphabet as a set, which is what the indexer tests membership in. */
  const SanAllowed: set<char> := {'K', 'Q', 'R', 'B', 'N', 'a', 'b', 'c', 'd', 'e', 'f', 'g', 'h',
    '1', '2', '3', '4', '5', '6', '7', '8', 'x', '+', '#', '=', 'O', '-'}

  predicate Allowed(c: char) { c in SanAllowed }

  predicate AllAllowed(s: string) { forall i :: 0 <= i < |s| ==> Allowed(s[i]) }

  /** The code of a character: its code point less 32. */
  function Code(c: char): int { c as int - 32 }

  /** The inverse of Code on the printable range. */
  function CharOfCode(v: int): char
    requires 0 <= v <= 94
  {
    (v + 32) as char
  }

  /** The codes of a move, one per character. */
  function Codes(san: string): seq<int>
  {
    seq(|san|, i requires 0 <= i < |san| => Code(san[i]))
  }

  /** The alphabet's codes lie between 3 ('#') and 88 ('x'), and each one decodes
      back to its character. */
  lemma {:induction false} CodeRange(c: char)
    requires Allowed(c)
    ensures 3 <= Code(c) <= 88
    ensures CharOfCode(Code(c)) == c
  {
  }

  /** The codes of a move made of alphabet characters lie between 3 and 88. */
  lemma CodesRange(san: string)
    requires AllAllowed(san)
    ensures forall i :: 0 <= i < |san| ==> 3 <= Codes(san)[i] <= 88
  {
    forall i | 0 <= i < |san|
      ensures 3 <= Codes(san)[i] <= 88
    {
      CodeRange(san[i]);
    }
  }

  /** Mapping each code of a move back through CharOfCode gives the move. */
  lemma CodesDecode(san: string)
    requires AllAllowed(san)
    ensures forall i :: 0 <= i < |san| ==> 0 <= Codes(san)[i] <= 94 && CharOfCode(Codes(san)[i]) == san[i]
  {
    forall i | 0 <= i < |san|
      ensures 0 <= Codes(san)[i] <= 94 && CharOfCode(Codes(san)[i]) == san[i]
    {
      CodeRange(san[i]);
    }
  }

  /** The first character of a move that lies outside the alphabet. */
  function FirstIllegal(s: string): (i: nat)
    requires !AllAllowed(s)
    ensures i < |s| && !Allowed(s[i])
    ensures forall j :: 0 <= j < i ==> Allowed(s[j])
    decreases |s|
  {
    if !Allowed(s[0]) then 0
    else
      assert !AllAllowed(s[1..]) by {
        var j :| 0 <= j < |s| && !Allowed(s[j]);
        assert s[1..][j - 1] == s[j];
      }
      1 + FirstIllegal(s[1..])
  }

  /** san_to_indices: one code per character, in order; the first character
      outside the alphabet raises, naming that character and the move. */
  method SanToIndices(san: string) returns (r: Result<seq<int>>)
    ensures r.Success? <==> AllAllowed(san)
    ensures r.Success? ==> r.value == Codes(san)
    ensures r.Failure? ==> !AllAllowed(san) && r.error == IllegalChar(san[FirstIllegal(san)], san)
  {
    var indices: seq<int> := [];
    for i := 0 to |san|
      invariant indices == Codes(san[..i])
      invariant AllAllowed(san[..i])
    {
      var ch := san[i];
      if ch !in SanAllowed {
        assert !AllAllowed(san);
        assert FirstIllegal(san) == i;
        return Failure(IllegalChar(ch, san));
      }
      indices := indices + [Code(ch)];
      assert san[..i + 1] == san[..i] + [ch];
    }
    assert san[..|san|] == san;
    r := Success(indices);
  }

  /** One legend entry: the character, a colon and its code as two digits. */
  function LegendEntry(ch: char): (e: string)
    ensures |e| >= 4 && e[0] == ch && e[1] == ':'
    ensures Allowed(ch) ==> |e| == 4 && AllDigits(e[2..])
  {
    assert Allowed(ch) ==> 3 <= Code(ch) <= 88 by {
      if Allowed(ch) { CodeRange(ch); }
    }
    [ch] + ":" + Format02(Code(ch))
  }

  /** The entries of one legend line, one per character of its group. */
  function LegendEntries(chars: string): seq<string>
  {
    seq(|chars|, i requires 0 <= i < |chars| => LegendEntry(chars[i]))
  }

  /** One legend line: the tag padded to 7 columns, then the entries two spaces apart. */
  function LegendLine(tag: string, chars: string): string
  {
    PadRight(tag, 7) + Join("  ", LegendEntries(chars))
  }

  /** The tags and groups of the four legend lines, top to bottom. */
  const LegendTags: seq<string> := ["Pieces", "Files", "Ranks", "Symbols"]
  const LegendGroups: seq<string> := [Pieces, Files, Ranks, Symbols]

  /** The four lines draw_legend prints, each as wide as its layout says. */
  function Legend(): (ls: seq<string>)
    ensures |ls| == 4
    ensures forall k :: 0 <= k < 4 ==> |ls[k]| == 7 + 6 * |LegendGroups[k]| - 2
  {
    var ls := seq(4, k requires 0 <= k < 4 => LegendLine(LegendTags[k], LegendGroups[k]));
    assert forall k :: 0 <= k < 4 ==> |ls[k]| == 7 + 6 * |LegendGroups[k]| - 2 by {
      forall k | 0 <= k < 4
        ensures |ls[k]| == 7 + 6 * |LegendGroups[k]| - 2
      {
        GroupsAllowed(k);
        LegendLineLayout(LegendTags[k], LegendGroups[k]);
      }
    }
    ls
  }

  /** Every group is made of alphabet characters. */
  lemma GroupsAllowed(k: int)
    requires 0 <= k < 4
    ensures AllAllowed(LegendGroups[k])
  {
  }

  /** Every entry of a group of alphabet characters is four columns wide. */
  lemma EntriesWidth(chars: string)
    requires AllAllowed(chars)
    ensures |LegendEntries(chars)| == |chars|
    ensures forall i :: 0 <= i < |chars| ==> |LegendEntries(chars)[i]| == 4
  {
    forall i | 0 <= i < |chars|
      ensures |LegendEntries(chars)[i]| == 4
    {
      assert Allowed(chars[i]);
    }
  }

  /** Part i of four-column parts joined by two spaces, after a prefix, sits at
      column |pad| + 6i, followed by two spaces unless it is the last. */
  lemma PaddedCell(pad: string, parts: seq<string>, i: nat)
    requires i < |parts|
    requires forall j :: 0 <= j < |parts| ==> |parts[j]| == 4
    ensures |pad| + 6 * i + 4 <= |pad + Join("  ", parts)|
    ensures (pad + Join("  ", parts))[|pad| + 6 * i .. |pad| + 6 * i + 4] == parts[i]
    ensures i < |parts| - 1 ==>
      |pad| + 6 * i + 6 <= |pad + Join("  ", parts)| &&
      (pad + Join("  ", parts))[|pad| + 6 * i + 4 .. |pad| + 6 * i + 6] == "  "
    ensures i == |parts| - 1 ==> |pad + Join("  ", parts)| == |pad| + 6 * i + 4
  {
    var joined := Join("  ", parts);
    assert 4 + |"  "| == 6;
    JoinPartAt("  ", parts, 4, i);
    OffsetIsProduct(6, i);
    var o := 6 * i;
    assert (pad + joined)[|pad| + o .. |pad| + o + 4] == joined[o .. o + 4];
    if i < |parts| - 1 {
      assert joined[o .. o + 6] == parts[i] + "  ";
      assert (pad + joined)[|pad| + o + 4 .. |pad| + o + 6] == joined[o .. o + 6][4..];
    }
  }

  /** Entry i of a legend line sits at column 7 + 6i of the line, followed by two
      spaces unless it is the last; the line ends four columns after the last one. */
  lemma LegendCellAt(tag: string, chars: string, i: nat)
    requires |tag| <= 7 && i < |chars| && AllAllowed(chars)
    ensures 7 + 6 * i + 4 <= |LegendLine(tag, chars)|
    ensures LegendLine(tag, chars)[7 + 6 * i .. 7 + 6 * i + 4] == LegendEntry(chars[i])
    ensures i < |chars| - 1 ==>
      7 + 6 * i + 6 <= |LegendLine(tag, chars)| &&
      LegendLine(tag, chars)[7 + 6 * i + 4 .. 7 + 6 * i + 6] == "  "
    ensures i == |chars| - 1 ==> |LegendLine(tag, chars)| == 7 + 6 * i + 4
  {
    EntriesWidth(chars);
    assert |PadRight(tag, 7)| == 7;
    PaddedCell(PadRight(tag, 7), LegendEntries(chars), i);
  }

  /** The layout of a legend line whose tag fits the 7 columns: the tag padded to
      7 columns, then entry i at column 7 + 6i, with two spaces after each entry
      but the last. */
  lemma LegendLineLayout(tag: string, chars: string)
    requires |tag| <= 7 && |chars| >= 1 && AllAllowed(chars)
    ensures |LegendLine(tag, chars)| == 7 + 6 * |chars| - 2
    ensures LegendLine(tag, chars)[..7] == PadRight(tag, 7)
    ensures forall i :: 0 <= i < |chars| ==>
      LegendLine(tag, chars)[7 + 6 * i .. 7 + 6 * i + 4] == LegendEntry(chars[i])
    ensures forall i :: 0 <= i < |chars| - 1 ==>
      LegendLine(tag, chars)[7 + 6 * i + 4 .. 7 + 6 * i + 6] == "  "
  {
    LegendCellAt(tag, chars, |chars| - 1);
    assert |PadRight(tag, 7)| == 7;
    forall i | 0 <= i < |chars|
      ensures LegendLine(tag, chars)[7 + 6 * i .. 7 + 6 * i + 4] == LegendEntry(chars[i])
      ensures i < |chars| - 1 ==> LegendLine(tag, chars)[7 + 6 * i + 4 .. 7 + 6 * i + 6] == "  "
    {
      LegendCellAt(tag, chars, i);
    }
  }

  /** A four-column legend cell that shows c, a colon and c's code as two digits. */
  predicate ShowsCode(cell: string, c: char)
  {
    |cell| == 4 && cell[..2] == [c, ':'] && AllDigits(cell[2..]) && ParseNat(cell[2..]) == Code(c)
  }

  /** Entry i of legend line k shows group k's character i beside its code. */
  lemma GroupShowsCode(k: int, i: int)
    requires 0 <= k < 4 && 0 <= i < |LegendGroups[k]|
    ensures Allowed(LegendGroups[k][i])
    ensures 7 + 6 * i + 4 <= |Legend()[k]|
    ensures ShowsCode(Legend()[k][7 + 6 * i .. 7 + 6 * i + 4], LegendGroups[k][i])
  {
    GroupsAllowed(k);
    var c := LegendGroups[k][i];
    LegendLineLayout(LegendTags[k], LegendGroups[k]);
    LegendShowsCode(c);
  }

  /** Entry i of legend line k is the cell for c. */
  predicate ListedAt(c: char, k: int, i: int)
  {
    0 <= k < 4 && 0 <= i < |LegendGroups[k]| && LegendGroups[k][i] == c &&
    7 + 6 * i + 4 <= |Legend()[k]| && ShowsCode(Legend()[k][7 + 6 * i .. 7 + 6 * i + 4], c)
  }

  /** The legend line and entry that show character n of the alphabet. */
  function GroupOf(n: int): (ki: (int, int))
    requires 0 <= n < |SanChars|
    ensures 0 <= ki.0 < 4 && 0 <= ki.1 < |LegendGroups[ki.0]|
    ensures LegendGroups[ki.0][ki.1] == SanChars[n]
  {
    assert SanChars == LegendGroups[0] + LegendGroups[1] + LegendGroups[2] + LegendGroups[3];
    if n < 5 then (0, n)
    else if n < 13 then (1, n - 5)
    else if n < 21 then (2, n - 13)
    else (3, n - 21)
  }

  /** Character n of the alphabet is listed in the legend, beside its code. */
  lemma AlphabetCharListed(n: int)
    requires 0 <= n < |SanChars|
    ensures exists k, i :: ListedAt(SanChars[n], k, i)
  {
    var (k, i) := GroupOf(n);
    GroupShowsCode(k, i);
    assert ListedAt(SanChars[n], k, i);
  }

  /** Every alphabet character is listed in the legend, beside its code. */
  lemma LegendListsCode(c: char)
    requires Allowed(c)
    ensures exists k, i :: ListedAt(c, k, i)
  {
    LegendCoversAlphabet();
    var n :| 0 <= n < |SanChars| && SanChars[n] == c;
    AlphabetCharListed(n);
  }

  /** The legend's groups are the alphabet, in the same order, and the allowed set
      holds exactly the alphabet's characters. */
  lemma LegendCoversAlphabet()
    ensures Pieces + Files + Ranks + Symbols == SanChars
    ensures forall c :: c in SanAllowed <==> c in SanChars
  {
  }

  /** The legend entry of a character shows, as two digits, the very code the indexer
      gives that character, so a reader can look codes up in it. */
  lemma LegendShowsCode(ch: char)
    requires Allowed(ch)
    ensures |LegendEntry(ch)| == 4 && LegendEntry(ch)[..2] == [ch, ':']
    ensures AllDigits(LegendEntry(ch)[2..]) && ParseNat(LegendEntry(ch)[2..]) == Code(ch)
  {
    CodeRange(ch);
    TwoDigitField(Code(ch));
    assert LegendEntry(ch)[2..] == Format02(Code(ch));
  }
}
