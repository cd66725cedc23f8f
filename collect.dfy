/** build_rows: encode every ply of the requested range, optionally shuffling. */
module Collect {
  import opened Errors
  import opened Alphabet
  import opened Cipher
  import opened Rows
  import opened Plies
  import opened Text

  /** A row as build_rows makes it: the label of its ply and its slots. */
  datatype EncodedRow = EncodedRow(moveLabel: string, slots: seq<int>)

  /** The texts of rows, in the same order. */
  function Texts(rows: seq<EncodedRow>): seq<string>
  {
    seq(|rows|, i requires 0 <= i < |rows| => RowText(rows[i].moveLabel, rows[i].slots))
  }

  /** The move played at a ply (plies count from 1). */
  function MoveAt(moves: seq<string>, ply: int): string
    requires 1 <= ply <= |moves|
  {
    moves[ply - 1]
  }

  /** The last ply build_rows encodes: the end ply, or the last ply of the game. */
  function LastPly(plyCount: int, endPly: Option<int>): int
  {
    if endPly.Some? && endPly.value < plyCount then endPly.value else plyCount
  }

  /** The last ply lies within the game and not after the end ply, and is one of
      the two. */
  lemma LastPlyBounds(plyCount: int, endPly: Option<int>)
    ensures LastPly(plyCount, endPly) <= plyCount
    ensures endPly.Some? ==> LastPly(plyCount, endPly) <= endPly.value
    ensures LastPly(plyCount, endPly) == plyCount || (endPly.Some? && LastPly(plyCount, endPly) == endPly.value)
  {
  }

  /** The number of plies from first to last, none when last comes before first. */
  function PlyCount(first: int, last: int): nat
  {
    if last < first then 0 else last - first + 1
  }

  /** What build_rows returns: the rows' texts and the position before the first
      included ply, given as the moves played to reach it. */
  datatype Collected = Collected(rows: seq<string>, before: seq<string>)

  /** random.shuffle: a Fisher-Yates pass, each index drawn from the random source. */
  method Shuffle<T>(s: seq<T>) returns (t: seq<T>)
    ensures |t| == |s| && multiset(t) == multiset(s)
  {
    t := s;
    var i := |t| - 1;
    while i >= 1
      invariant |t| == |s| && i < |t|
      invariant multiset(t) == multiset(s)
    {
      var j :| 0 <= j <= i;
      t := t[i := t[j]][j := t[i]];
      i := i - 1;
    }
  }

  /** A row is the one build_rows makes for the ply: labelled with it and holding an
      encoding of its move. */
  predicate RowFor(moves: seq<string>, ply: int, row: EncodedRow)
  {
    1 <= ply <= |moves| && row.moveLabel == Label(ply) && Encodes(row.slots, MoveAt(moves, ply))
  }

  /** The body of build_rows's loop for one ply: label it, encode its move and build its
      row, returning the row and the text build_row prints for it. */
  method EncodePly(moves: seq<string>, ply: int) returns (r: Result<EncodedRow>, text: string)
    requires 1 <= ply <= |moves| && MoveAt(moves, ply) != []
    ensures r.Success? <==> AllAllowed(MoveAt(moves, ply))
    ensures r.Failure? ==> !AllAllowed(MoveAt(moves, ply))
    ensures r.Failure? ==> r.error == IllegalChar(MoveAt(moves, ply)[FirstIllegal(MoveAt(moves, ply))], MoveAt(moves, ply))
    ensures r.Success? ==> RowFor(moves, ply, r.value)
    ensures r.Success? ==> text == RowText(r.value.moveLabel, r.value.slots)
  {
    var san := MoveAt(moves, ply);
    var moveLabel := Label(ply);
    var encoded := EncodeMove(san);
    if encoded.Failure? {
      return Failure(encoded.error), [];
    }
    var slots;
    slots, text := BuildRow(moveLabel, encoded.value.key, encoded.value.cipher);
    r := Success(EncodedRow(moveLabel, slots));
  }

  /** Appending one row's text to the collected rows, then shuffling them all when asked:
      unshuffled, the rows stay the texts of the rows in game order; shuffled, they stay
      a permutation of them. */
  method AppendRow(rows: seq<string>, ghost ordered: seq<EncodedRow>, row: EncodedRow, text: string,
                   shuffleRows: bool)
    returns (rows': seq<string>, ghost ordered': seq<EncodedRow>)
    requires |rows| == |ordered| && text == RowText(row.moveLabel, row.slots)
    requires !shuffleRows ==> rows == Texts(ordered)
    requires shuffleRows ==> multiset(rows) == multiset(Texts(ordered))
    ensures ordered' == ordered + [row] && |rows'| == |ordered'|
    ensures !shuffleRows ==> rows' == Texts(ordered')
    ensures shuffleRows ==> multiset(rows') == multiset(Texts(ordered'))
  {
    rows' := rows + [text];
    assert Texts(ordered + [row]) == Texts(ordered) + [text];
    ordered' := ordered + [row];
    if shuffleRows {
      rows' := Shuffle(rows');
    }
  }

  /** Appending the row of the next ply keeps every row the one build_rows makes for
      its ply. */
  lemma RowsForAppend(moves: seq<string>, startPly: int, ordered: seq<EncodedRow>, row: EncodedRow)
    requires forall i :: 0 <= i < |ordered| ==> RowFor(moves, startPly + i, ordered[i])
    requires RowFor(moves, startPly + |ordered|, row)
    ensures forall i :: 0 <= i < |ordered| + 1 ==> RowFor(moves, startPly + i, (ordered + [row])[i])
  {
    forall i | 0 <= i < |ordered| + 1
      ensures RowFor(moves, startPly + i, (ordered + [row])[i])
    {
      if i < |ordered| {
        assert (ordered + [row])[i] == ordered[i];
      }
    }
  }

  /** One pass of build_rows's loop: encode the ply's move and append its row. */
  method AddPly(moves: seq<string>, startPly: int, ply: int, rows: seq<string>,
                ghost ordered: seq<EncodedRow>, shuffleRows: bool)
    returns (r: Result<seq<string>>, ghost ordered': seq<EncodedRow>)
    requires 1 <= startPly <= ply <= |moves| && MoveAt(moves, ply) != []
    requires |ordered| == ply - startPly && |rows| == |ordered|
    requires forall i :: 0 <= i < |ordered| ==> RowFor(moves, startPly + i, ordered[i])
    requires !shuffleRows ==> rows == Texts(ordered)
    requires shuffleRows ==> multiset(rows) == multiset(Texts(ordered))
    ensures r.Success? <==> AllAllowed(MoveAt(moves, ply))
    ensures r.Failure? ==> r.error == IllegalChar(MoveAt(moves, ply)[FirstIllegal(MoveAt(moves, ply))], MoveAt(moves, ply))
    ensures r.Success? ==> |ordered'| == |ordered| + 1 && |r.value| == |ordered'|
    ensures r.Success? ==> forall i :: 0 <= i < |ordered'| ==> RowFor(moves, startPly + i, ordered'[i])
    ensures r.Success? && !shuffleRows ==> r.value == Texts(ordered')
    ensures r.Success? && shuffleRows ==> multiset(r.value) == multiset(Texts(ordered'))
  {
    ordered' := ordered;
    var encoded, text := EncodePly(moves, ply);
    if encoded.Failure? {
      return Failure(encoded.error), ordered';
    }
    var rows';
    rows', ordered' := AppendRow(rows, ordered, encoded.value, text, shuffleRows);
    assert startPly + |ordered| == ply && ordered' == ordered + [encoded.value];
    RowsForAppend(moves, startPly, ordered, encoded.value);
    r := Success(rows');
  }

  /** The loop of build_rows: from the start ply on, encode each ply up to the end ply
      (or the last ply), appending its row and shuffling when asked. */
  method EncodeFrom(moves: seq<string>, startPly: int, endPly: Option<int>, shuffleRows: bool)
    returns (r: Result<seq<string>>, ghost ordered: seq<EncodedRow>)
    requires forall i :: 0 <= i < |moves| ==> moves[i] != []
    requires 1 <= startPly <= |moves|
    ensures r.Success? <==> forall ply :: startPly <= ply <= LastPly(|moves|, endPly) ==> AllAllowed(MoveAt(moves, ply))
    ensures r.Failure? ==>
      exists ply :: startPly <= ply <= LastPly(|moves|, endPly) &&
        (forall q :: startPly <= q < ply ==> AllAllowed(MoveAt(moves, q))) &&
        !AllAllowed(MoveAt(moves, ply)) &&
        r.error == IllegalChar(MoveAt(moves, ply)[FirstIllegal(MoveAt(moves, ply))], MoveAt(moves, ply))
    ensures r.Success? ==> |ordered| == PlyCount(startPly, LastPly(|moves|, endPly))
    ensures r.Success? ==> |r.value| == |ordered|
    ensures r.Success? ==> forall i :: 0 <= i < |ordered| ==> RowFor(moves, startPly + i, ordered[i])
    ensures r.Success? && !shuffleRows ==> r.value == Texts(ordered)
    ensures r.Success? && shuffleRows ==> multiset(r.value) == multiset(Texts(ordered))
  {
    ordered := [];
    var rows: seq<string> := [];
    var last := LastPly(|moves|, endPly);
    var ply := startPly;
    while ply <= |moves|
      invariant startPly <= ply <= |moves| + 1
      invariant ply == startPly || ply <= last + 1
      invariant |ordered| == ply - startPly && |rows| == |ordered|
      invariant forall q :: startPly <= q < ply ==> AllAllowed(MoveAt(moves, q))
      invariant forall i :: 0 <= i < |ordered| ==> RowFor(moves, startPly + i, ordered[i])
      invariant !shuffleRows ==> rows == Texts(ordered)
      invariant shuffleRows ==> multiset(rows) == multiset(Texts(ordered))
    {
      if endPly.Some? && ply > endPly.value {
        break;
      }
      var step;
      step, ordered := AddPly(moves, startPly, ply, rows, ordered, shuffleRows);
      if step.Failure? {
        assert startPly <= ply <= last;
        return Failure(step.error), ordered;
      }
      rows := step.value;
      ply := ply + 1;
    }
    assert ply == last + 1 || (ply == startPly && last < startPly);
    r := Success(rows);
  }

  /** build_rows over the game's moves (as the text of each move). The start ply must lie
      within the game; every ply from the start ply to the end ply (or the last ply)
      yields one row labelled with its ply, in game order, or in an order obtained by
      shuffling when shuffleRows holds. The first move in the range with a
      character outside the alphabet raises. */
  method BuildRows(moves: seq<string>, startPly: int, endPly: Option<int>, shuffleRows: bool)
    returns (r: Result<Collected>, ghost ordered: seq<EncodedRow>)
    requires forall i :: 0 <= i < |moves| ==> moves[i] != []
    ensures (startPly < 1 || startPly > |moves|) ==> r == Failure(StartPlyOutOfRange)
    ensures r.Success? <==>
      1 <= startPly <= |moves| &&
      forall ply :: startPly <= ply <= LastPly(|moves|, endPly) ==> AllAllowed(MoveAt(moves, ply))
    ensures r.Failure? && 1 <= startPly <= |moves| ==>
      exists ply :: startPly <= ply <= LastPly(|moves|, endPly) &&
        (forall q :: startPly <= q < ply ==> AllAllowed(MoveAt(moves, q))) &&
        !AllAllowed(MoveAt(moves, ply)) &&
        r.error == IllegalChar(MoveAt(moves, ply)[FirstIllegal(MoveAt(moves, ply))], MoveAt(moves, ply))
    ensures r.Success? ==> r.value.before == moves[..startPly - 1]
    ensures r.Success? ==> |ordered| == PlyCount(startPly, LastPly(|moves|, endPly))
    ensures r.Success? ==> |r.value.rows| == |ordered|
    ensures r.Success? ==> forall i :: 0 <= i < |ordered| ==> RowFor(moves, startPly + i, ordered[i])
    ensures r.Success? && !shuffleRows ==> r.value.rows == Texts(ordered)
    ensures r.Success? && shuffleRows ==> multiset(r.value.rows) == multiset(Texts(ordered))
  {
    if startPly < 1 || startPly > |moves| {
      return Failure(StartPlyOutOfRange), [];
    }
    var before := moves[..startPly - 1];
    var rows;
    rows, ordered := EncodeFrom(moves, startPly, endPly, shuffleRows);
    if rows.Failure? {
      return Failure(rows.error), ordered;
    }
    r := Success(Collected(rows.value, before));
  }

  /** The game 1. e4 e5 2. Nf3 Nc6 3. Bb5 asked for from move 1 to move 3, shuffled:
      five rows labelled 1. to 3., each decoding to its move and each printed text
      reading back as its label and slots, and the position before them is the
      starting one. */
  method ThreeMoveExample()
  {
    var moves := ["e4", "e5", "Nf3", "Nc6", "Bb5"];
    var startSpec := PlyFromSpec("1");
    var endSpec := PlyFromSpec("3");
    assert startSpec == Success((1, "."));
    assert endSpec == Success((5, "."));
    ExampleMovesAllowed(moves);
    var r, ordered := BuildRows(moves, 1, Some(5), true);
    assert r.Success?;
    assert |r.value.rows| == 5 && r.value.before == [];
    ExampleLabels();
    assert ordered[0].moveLabel == "1." && ordered[1].moveLabel == "1..";
    assert ordered[2].moveLabel == "2." && ordered[3].moveLabel == "2..";
    assert ordered[4].moveLabel == "3.";
    ExampleRowsReadBack(moves, ordered);
    assert multiset(r.value.rows) == multiset(Texts(ordered));
    assert DecodeRow(ordered[2].slots) == Some("Nf3");
  }

  /** A row build_rows makes decodes to its ply's move, and its printed text reads back
      as its label and a row that decodes to that move. */
  lemma RowReadsBack(moves: seq<string>, ply: int, row: EncodedRow)
    requires RowFor(moves, ply, row)
    ensures DecodeRow(row.slots) == Some(MoveAt(moves, ply))
    ensures ParseRowText(RowText(row.moveLabel, row.slots)).0 == row.moveLabel
    ensures DecodeRow(ParseRowText(RowText(row.moveLabel, row.slots)).1) == Some(MoveAt(moves, ply))
  {
    LabelShape(ply);
    RowRoundTrip(row.slots, MoveAt(moves, ply));
    TextRoundTrip(row.moveLabel, row.slots, MoveAt(moves, ply));
  }

  /** In the example every one of the five rows, and every one of their texts, reads
      back as its move. */
  lemma ExampleRowsReadBack(moves: seq<string>, ordered: seq<EncodedRow>)
    requires |moves| == |ordered| == 5
    requires forall i :: 0 <= i < 5 ==> RowFor(moves, 1 + i, ordered[i])
    ensures forall i :: 0 <= i < 5 ==>
      DecodeRow(ordered[i].slots) == Some(moves[i]) &&
      DecodeRow(ParseRowText(Texts(ordered)[i]).1) == Some(moves[i])
  {
    forall i | 0 <= i < 5
      ensures DecodeRow(ordered[i].slots) == Some(moves[i]) &&
              DecodeRow(ParseRowText(Texts(ordered)[i]).1) == Some(moves[i])
    {
      RowReadsBack(moves, 1 + i, ordered[i]);
    }
  }

  lemma ExampleMovesAllowed(moves: seq<string>)
    requires moves == ["e4", "e5", "Nf3", "Nc6", "Bb5"]
    ensures forall ply :: 1 <= ply <= 5 ==> AllAllowed(MoveAt(moves, ply))
  {
    assert AllAllowed("e4") && AllAllowed("e5") && AllAllowed("Nf3");
    assert AllAllowed("Nc6") && AllAllowed("Bb5");
  }

  lemma ExampleLabels()
    ensures Label(1) == "1." && Label(2) == "1.." && Label(3) == "2."
    ensures Label(4) == "2.." && Label(5) == "3."
  {
    assert NatStr(1) == "1" && NatStr(2) == "2" && NatStr(3) == "3";
  }
}
