/** build_row: the printable row of one move, and how a reader reads it back. */
module Rows {
  import opened Errors
  import opened Text
  import opened Alphabet
  import opened Cipher

  /** The least number of slots in a row. */
  const RowLen := 12
  /** The width of the label field. */
  const LabelWidth := 6

  /** The number of slots of a row whose cipher has n values: ROW_LEN is a floor, not a cap. */
  function RowLength(n: nat): nat
  {
    if n + 2 < RowLen then RowLen else n + 2
  }

  /** The layout of a row's slots: the key, the cipher values in order, the sentinel,
      then decoys drawn from [0, 94] until the row has ROW_LEN slots. */
  predicate RowShape(row: seq<int>, k: int, cipher: seq<int>)
  {
    && |row| == RowLength(|cipher|)
    && row[0] == k
    && row[1..|cipher| + 1] == cipher
    && row[|cipher| + 1] == Sentinel
    && forall j :: |cipher| + 2 <= j < |row| ==> 0 <= row[j] <= TopValue
  }

  /** A row holds an encoding of the move: a key in the range encode_move draws from,
      followed by that move's codes shifted by the key, laid out as build_row does. */
  predicate Encodes(row: seq<int>, san: string)
  {
    && san != []
    && AllAllowed(san)
    && |row| > 0
    && 1 <= row[0] <= KeyMax(Codes(san))
    && RowShape(row, row[0], Shift(Codes(san), row[0]))
  }

  /** Each slot as a two-digit field. */
  function Fields(row: seq<int>): seq<string>
  {
    seq(|row|, i requires 0 <= i < |row| => Format02(row[i]))
  }

  /** The text of a row: the label left-aligned in 6 columns, then the slots as
      zero-padded two-digit fields separated by single spaces. */
  function RowText(moveLabel: string, row: seq<int>): string
  {
    PadRight(moveLabel, LabelWidth) + Join(" ", Fields(row))
  }

  /** build_row, with random.randint(0, 94) as a nondeterministic choice. */
  method BuildRow(moveLabel: string, k: int, cipher: seq<int>) returns (row: seq<int>, text: string)
    ensures RowShape(row, k, cipher)
    ensures text == RowText(moveLabel, row)
  {
    row := [k] + cipher + [Sentinel];
    ghost var decoys: seq<int> := [];
    while |row| < RowLen
      invariant row == [k] + cipher + [Sentinel] + decoys
      invariant |row| <= RowLength(|cipher|)
      invariant forall j :: 0 <= j < |decoys| ==> 0 <= decoys[j] <= TopValue
      decreases RowLen - |row|
    {
      var f :| 0 <= f <= TopValue;
      if f != Sentinel {
        row := row + [f];
        decoys := decoys + [f];
      }
    }
    ShapeOf(k, cipher, decoys);
    text := RowText(moveLabel, row);
  }

  /** The key, the cipher, the sentinel and then decoys, as many as make RowLength slots. */
  lemma ShapeOf(k: int, cipher: seq<int>, decoys: seq<int>)
    requires |cipher| + 2 + |decoys| == RowLength(|cipher|)
    requires forall j :: 0 <= j < |decoys| ==> 0 <= decoys[j] <= TopValue
    ensures RowShape([k] + cipher + [Sentinel] + decoys, k, cipher)
  {
    var row := [k] + cipher + [Sentinel] + decoys;
    assert row[1..|cipher| + 1] == cipher;
    forall j | |cipher| + 2 <= j < |row|
      ensures 0 <= row[j] <= TopValue
    {
      assert row[j] == decoys[j - |cipher| - 2];
    }
  }

  /** Every slot of an encoded row is a number below 100, so it prints as two digits;
      the key is at most MAX_K and the cipher values are below the sentinel. */
  lemma RowValues(row: seq<int>, san: string)
    requires Encodes(row, san)
    ensures 1 <= row[0] <= MaxK
    ensures forall j :: 1 <= j <= |san| ==> 0 <= row[j] < Sentinel
    ensures forall j :: 0 <= j < |row| ==> 0 <= row[j] <= Sentinel
  {
    var plain := Codes(san);
    var k := row[0];
    CodesRange(san);
    ShiftBelowSentinel(plain, k);
    forall j | 1 <= j <= |san|
      ensures 0 <= row[j] < Sentinel
    {
      assert row[j] == row[1..|san| + 1][j - 1] == Shift(plain, k)[j - 1];
    }
  }

  /** The slots before the first sentinel. */
  function UntilSentinel(s: seq<int>): (p: seq<int>)
    ensures |p| <= |s| && p == s[..|p|]
    ensures forall i :: 0 <= i < |p| ==> p[i] != Sentinel
    ensures |p| < |s| ==> s[|p|] == Sentinel
    decreases |s|
  {
    if s == [] || s[0] == Sentinel then [] else [s[0]] + UntilSentinel(s[1..])
  }

  lemma {:induction false} UntilSentinelOf(p: seq<int>, rest: seq<int>)
    requires forall i :: 0 <= i < |p| ==> p[i] != Sentinel
    ensures UntilSentinel(p + [Sentinel] + rest) == p
    decreases |p|
  {
    if p != [] {
      assert (p + [Sentinel] + rest)[1..] == p[1..] + [Sentinel] + rest;
      UntilSentinelOf(p[1..], rest);
    }
  }

  /** How a reader recovers a move from its row: take the key from the first slot,
      read the slots up to the sentinel, subtract the key and add 32. */
  function DecodeRow(row: seq<int>): Option<string>
  {
    if row == [] then None
    else
      var k := row[0];
      var body := UntilSentinel(row[1..]);
      if forall i :: 0 <= i < |body| ==> 0 <= body[i] - k <= TopValue
      then Some(seq(|body|, i requires 0 <= i < |body| && 0 <= body[i] - k <= TopValue => CharOfCode(body[i] - k)))
      else None
  }

  /** Decoding the row of a move gives back the move, character for character. */
  lemma RowRoundTrip(row: seq<int>, san: string)
    requires Encodes(row, san)
    ensures DecodeRow(row) == Some(san)
  {
    var k := row[0];
    var plain := Codes(san);
    EncodedBody(row, san);
    var body := UntilSentinel(row[1..]);
    CodesDecode(san);
    assert forall i :: 0 <= i < |body| ==> body[i] - k == plain[i];
    var text := seq(|body|, i requires 0 <= i < |body| && 0 <= body[i] - k <= TopValue => CharOfCode(body[i] - k));
    assert text == san;
  }

  /** The slots of an encoded row before its sentinel are the move's cipher. */
  lemma EncodedBody(row: seq<int>, san: string)
    requires Encodes(row, san)
    ensures UntilSentinel(row[1..]) == Shift(Codes(san), row[0])
  {
    var cipher := Shift(Codes(san), row[0]);
    var n := |san|;
    RowValues(row, san);
    assert row[1..] == row[1..n + 1] + [row[n + 1]] + row[n + 2..];
    UntilSentinelOf(cipher, row[n + 2..]);
  }

  /** The sentinel appears exactly once in an encoded row, right after the cipher. */
  lemma SentinelOnce(row: seq<int>, san: string)
    requires Encodes(row, san)
    ensures forall j :: 0 <= j < |row| ==> (row[j] == Sentinel <==> j == |san| + 1)
    ensures multiset(row)[Sentinel] == 1
  {
    RowValues(row, san);
    var n := |san| + 1;
    forall j | 0 <= j < |row| && j != n
      ensures row[j] != Sentinel
    {
      if j > n {
        assert row[j] <= TopValue;
      }
    }
    OccursOnce(row[..n], Sentinel, row[n + 1..]);
    assert row == row[..n] + [Sentinel] + row[n + 1..];
  }

  lemma OccursOnce(a: seq<int>, x: int, b: seq<int>)
    requires forall i :: 0 <= i < |a| ==> a[i] != x
    requires forall i :: 0 <= i < |b| ==> b[i] != x
    ensures multiset(a + [x] + b)[x] == 1
  {
    assert x !in a && x !in b;
    assert multiset(a + [x] + b) == multiset(a) + multiset([x]) + multiset(b);
  }

  /** The fields of a row read back as its slots. */
  function ParseFields(s: string): seq<int>
    decreases |s|
  {
    if |s| < 2 || !AllDigits(s[..2]) then []
    else [ParseNat(s[..2]) as int] + (if |s| < 3 then [] else ParseFields(s[3..]))
  }

  /** Where a row's label ends: just after the text's last dot, or 0 when it has none.
      Every label ends in a dot and the fields hold only digits and spaces. */
  function LabelEnd(s: string): (n: nat)
    ensures n <= |s|
    ensures n > 0 ==> s[n - 1] == '.'
    ensures '.' !in s[n..]
    decreases |s|
  {
    if s == [] then 0
    else if s[|s| - 1] == '.' then |s|
    else
      var n := LabelEnd(s[..|s| - 1]);
      assert s[n..] == s[..|s| - 1][n..] + [s[|s| - 1]];
      n
  }

  /** Reading a row's text: the label up to its last dot, then, past the padding, the
      two-digit fields. */
  function ParseRowText(text: string): (string, seq<int>)
  {
    var n := LabelEnd(text);
    (text[..n], ParseFields(DropSpaces(text[n..])))
  }

  /** A label ending in a dot, followed by text without dots, ends where the label does. */
  lemma LabelEndAt(a: string, b: string)
    requires a != [] && a[|a| - 1] == '.'
    requires '.' !in b
    ensures LabelEnd(a + b) == |a|
  {
    var s := a + b;
    assert s[|a| - 1] == '.';
  }

  lemma {:induction false} ParseJoinedFields(row: seq<int>)
    requires forall j :: 0 <= j < |row| ==> 0 <= row[j] < 100
    ensures ParseFields(Join(" ", Fields(row))) == row
    decreases |row|
  {
    if |row| >= 1 {
      TwoDigitField(row[0]);
      var s := Join(" ", Fields(row));
      if |row| == 1 {
        assert s == Format02(row[0]);
        assert s[..2] == s;
        assert ParseFields(s) == [ParseNat(s[..2]) as int];
      } else {
        assert Fields(row)[1..] == Fields(row[1..]);
        assert s == Format02(row[0]) + " " + Join(" ", Fields(row[1..]));
        assert s[..2] == Format02(row[0]);
        assert s[3..] == Join(" ", Fields(row[1..]));
        ParseJoinedFields(row[1..]);
        assert [row[0]] + row[1..] == row;
      }
    }
  }

  /** The column where a row's fields begin: the label field is 6 columns wide, or as
      wide as a longer label. */
  function FieldStart(moveLabel: string): nat
  {
    |PadRight(moveLabel, LabelWidth)|
  }

  /** Every field of a row whose slots lie below 100 is two columns wide. */
  lemma FieldsWidth(row: seq<int>)
    requires forall i :: 0 <= i < |row| ==> 0 <= row[i] < 100
    ensures |Fields(row)| == |row|
    ensures forall i :: 0 <= i < |row| ==> |Fields(row)[i]| == 2
  {
  }

  /** The joined fields of a row take three columns per slot, less the last space. */
  lemma JoinedLength(row: seq<int>)
    requires |row| >= 1
    requires forall i :: 0 <= i < |row| ==> 0 <= row[i] < 100
    ensures |Join(" ", Fields(row))| == 3 * |row| - 1
  {
    FieldsWidth(row);
    assert 2 + |" "| == 3;
    JoinPartAt(" ", Fields(row), 2, |row| - 1);
    OffsetIsProduct(3, |row| - 1);
  }

  /** Field j of the joined fields sits at column 3j as slot j's two-digit field, with
      a space after it unless it is the last. */
  lemma FieldAt(row: seq<int>, j: nat)
    requires j < |row|
    requires forall i :: 0 <= i < |row| ==> 0 <= row[i] < 100
    ensures |Join(" ", Fields(row))| == 3 * |row| - 1
    ensures Join(" ", Fields(row))[3 * j .. 3 * j + 2] == Format02(row[j])
    ensures j < |row| - 1 ==> Join(" ", Fields(row))[3 * j + 2] == ' '
  {
    var fields := Fields(row);
    JoinedLength(row);
    FieldsWidth(row);
    assert 2 + |" "| == 3;
    JoinPartAt(" ", fields, 2, j);
    OffsetIsProduct(3, j);
    if j < |row| - 1 {
      var joined := Join(" ", fields);
      assert joined[3 * j .. 3 * j + 3] == fields[j] + " ";
      assert joined[3 * j + 2] == joined[3 * j .. 3 * j + 3][2];
    }
  }

  /** Field j of a row's text sits at column FieldStart + 3j as slot j's two-digit
      field, with a space after it unless it is the last. */
  lemma FieldInText(moveLabel: string, row: seq<int>, j: nat)
    requires j < |row|
    requires forall i :: 0 <= i < |row| ==> 0 <= row[i] < 100
    ensures FieldStart(moveLabel) + 3 * j + 2 <= |RowText(moveLabel, row)|
    ensures j < |row| - 1 ==> FieldStart(moveLabel) + 3 * j + 2 < |RowText(moveLabel, row)|
    ensures RowText(moveLabel, row)[FieldStart(moveLabel) + 3 * j .. FieldStart(moveLabel) + 3 * j + 2] ==
      Format02(row[j])
    ensures j < |row| - 1 ==> RowText(moveLabel, row)[FieldStart(moveLabel) + 3 * j + 2] == ' '
  {
    FieldAt(row, j);
    ShiftedField(PadRight(moveLabel, LabelWidth), Join(" ", Fields(row)), 3 * j, Format02(row[j]), j < |row| - 1);
  }

  /** A two-column field at column a of the part after a prefix, and the space after it,
      seen from the whole. */
  lemma ShiftedField(p: string, q: string, a: nat, f: string, spaced: bool)
    requires a + 2 <= |q| && q[a .. a + 2] == f
    requires spaced ==> a + 2 < |q| && q[a + 2] == ' '
    ensures |p| + a + 2 <= |p + q| && (p + q)[|p| + a .. |p| + a + 2] == f
    ensures spaced ==> |p| + a + 2 < |p + q| && (p + q)[|p| + a + 2] == ' '
  {
    assert (p + q)[|p| + a .. |p| + a + 2] == q[a .. a + 2];
  }

  /** The text of a row has a fixed format: the label field, then field j at column
      FieldStart + 3j as the two digits of slot j, with single spaces between. */
  lemma RowTextLayout(moveLabel: string, row: seq<int>)
    requires |row| >= 1
    requires forall j :: 0 <= j < |row| ==> 0 <= row[j] < 100
    ensures FieldStart(moveLabel) == if |moveLabel| < LabelWidth then LabelWidth else |moveLabel|
    ensures |RowText(moveLabel, row)| == FieldStart(moveLabel) + 3 * |row| - 1
    ensures RowText(moveLabel, row)[..FieldStart(moveLabel)] == PadRight(moveLabel, LabelWidth)
    ensures forall j :: 0 <= j < |row| ==>
      RowText(moveLabel, row)[FieldStart(moveLabel) + 3 * j .. FieldStart(moveLabel) + 3 * j + 2] ==
      [DigitChar(row[j] / 10), DigitChar(row[j] % 10)]
    ensures forall j :: 0 <= j < |row| - 1 ==> RowText(moveLabel, row)[FieldStart(moveLabel) + 3 * j + 2] == ' '
  {
    JoinedLength(row);
    forall j | 0 <= j < |row|
      ensures RowText(moveLabel, row)[FieldStart(moveLabel) + 3 * j .. FieldStart(moveLabel) + 3 * j + 2] ==
        [DigitChar(row[j] / 10), DigitChar(row[j] % 10)]
      ensures j < |row| - 1 ==> RowText(moveLabel, row)[FieldStart(moveLabel) + 3 * j + 2] == ' '
    {
      FieldInText(moveLabel, row, j);
      TwoDigitField(row[j]);
    }
  }

  /** The fields of a row hold digits and spaces only, so no dot. */
  lemma FieldsHaveNoDot(row: seq<int>)
    requires forall j :: 0 <= j < |row| ==> 0 <= row[j] < 100
    ensures '.' !in Join(" ", Fields(row))
  {
    var fields := Fields(row);
    forall j | 0 <= j < |fields|
      ensures '.' !in fields[j]
    {
      assert AllDigits(fields[j]);
    }
    JoinAvoids(" ", fields, '.');
  }

  /** A row's text is its label, then the label field's padding and the fields, which
      hold no dot: so the label ends at the text's last dot. */
  lemma LabelThenFields(moveLabel: string, row: seq<int>)
    requires moveLabel != [] && moveLabel[|moveLabel| - 1] == '.'
    requires forall j :: 0 <= j < |row| ==> 0 <= row[j] < 100
    ensures FieldStart(moveLabel) >= |moveLabel|
    ensures LabelEnd(RowText(moveLabel, row)) == |moveLabel|
    ensures RowText(moveLabel, row)[..|moveLabel|] == moveLabel
    ensures RowText(moveLabel, row)[|moveLabel|..] ==
      seq(FieldStart(moveLabel) - |moveLabel|, _ => ' ') + Join(" ", Fields(row))
  {
    var joined := Join(" ", Fields(row));
    var spaces := seq(FieldStart(moveLabel) - |moveLabel|, _ => ' ');
    PadRightIsSpaces(moveLabel, LabelWidth);
    FieldsHaveNoDot(row);
    assert '.' !in spaces;
    assert RowText(moveLabel, row) == moveLabel + (spaces + joined);
    LabelEndAt(moveLabel, spaces + joined);
  }

  /** The text of a row reads back as its label and its slots. */
  lemma RowTextRoundTrip(moveLabel: string, row: seq<int>)
    requires moveLabel != [] && moveLabel[|moveLabel| - 1] == '.'
    requires forall j :: 0 <= j < |row| ==> 0 <= row[j] < 100
    ensures ParseRowText(RowText(moveLabel, row)) == (moveLabel, row)
  {
    LabelThenFields(moveLabel, row);
    var joined := Join(" ", Fields(row));
    if |row| >= 1 {
      TwoDigitField(row[0]);
      assert joined[..2] == Fields(row)[0];
    }
    DropSpacesBefore(FieldStart(moveLabel) - |moveLabel|, joined);
    ParseJoinedFields(row);
  }

  /** A reader holding only the printed text recovers the label and the move: the row's
      text parses back to its slots, which decode to the move. */
  lemma TextRoundTrip(moveLabel: string, row: seq<int>, san: string)
    requires moveLabel != [] && moveLabel[|moveLabel| - 1] == '.'
    requires Encodes(row, san)
    ensures ParseRowText(RowText(moveLabel, row)).0 == moveLabel
    ensures DecodeRow(ParseRowText(RowText(moveLabel, row)).1) == Some(san)
  {
    RowValues(row, san);
    RowTextRoundTrip(moveLabel, row);
    RowRoundTrip(row, san);
  }
}
