/** ascii_board: the diagram of the position before the first encoded ply, with the
    board given as its 64 squares, a1 first, each empty or holding a piece symbol. */
module Board {
  import opened Errors
  import opened Text

  /** The symbols chess pieces print as. */
  const PieceSymbols: set<char> := {'P', 'N', 'B', 'R', 'Q', 'K', 'p', 'n', 'b', 'r', 'q', 'k'}

  /** What a square shows: its piece's symbol, or a dot when it is empty. */
  function SquareSymbol(sq: Option<char>): char
  {
    if sq.Some? then sq.value else '.'
  }

  /** Line r of the diagram (r = 0 is rank 8): the eight squares of that rank from
      file a to file h, one space apart. */
  function DiagramLine(squares: seq<Option<char>>, r: int): (line: string)
    requires |squares| == 64 && 0 <= r < 8
    ensures |line| == 15
  {
    seq(15, j requires 0 <= j < 15 => if j % 2 == 0 then SquareSymbol(squares[(7 - r) * 8 + j / 2]) else ' ')
  }

  /** ascii_board: eight lines, rank 8 first, each the rank's symbols followed by a
      space and right-stripped. */
  method AsciiBoard(squares: seq<Option<char>>) returns (rows: seq<string>)
    requires |squares| == 64
    requires forall i :: 0 <= i < 64 && squares[i].Some? ==> squares[i].value in PieceSymbols
    ensures |rows| == 8
    ensures forall r :: 0 <= r < 8 ==> rows[r] == DiagramLine(squares, r)
  {
    rows := [];
    var rank := 8;
    while rank > 0
      invariant 0 <= rank <= 8 && |rows| == 8 - rank
      invariant forall r :: 0 <= r < |rows| ==> rows[r] == DiagramLine(squares, r)
    {
      var line: string := [];
      for file := 0 to 8
        invariant |line| == 2 * file
        invariant forall j :: 0 <= j < |line| ==>
          line[j] == if j % 2 == 0 then SquareSymbol(squares[(rank - 1) * 8 + j / 2]) else ' '
      {
        var square := (rank - 1) * 8 + file;
        line := line + [SquareSymbol(squares[square]), ' '];
      }
      StripLine(squares, line, 8 - rank);
      rows := rows + [TrimRight(line)];
      rank := rank - 1;
    }
  }

  /** Right-stripping a built line removes only its final space, since no symbol is a space. */
  lemma StripLine(squares: seq<Option<char>>, line: string, r: int)
    requires |squares| == 64 && 0 <= r < 8
    requires forall i :: 0 <= i < 64 && squares[i].Some? ==> squares[i].value in PieceSymbols
    requires |line| == 16
    requires forall j :: 0 <= j < 16 ==>
      line[j] == if j % 2 == 0 then SquareSymbol(squares[(7 - r) * 8 + j / 2]) else ' '
    ensures TrimRight(line) == DiagramLine(squares, r)
  {
    assert line[..15] == DiagramLine(squares, r);
    assert line[14] != ' ';
  }
}
