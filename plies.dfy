/** ply_from_spec and the move labels of build_rows. */
module Plies {
  import opened Errors
  import opened Text

  /** ply_from_spec: `..N` names Black's N-th move, ply 2N; a bare `N` names
      White's N-th move, ply 2N - 1. Any other text makes int() raise. */
  function PlyFromSpec(spec: string): (r: Result<(int, string)>)
    ensures r.Failure? ==> r.error == InvalidPlySpec(spec)
    ensures r.Failure? ==> !AllDigits(spec) || spec == []
    ensures r.Success? ==> r.value.0 >= -1 && r.value.1 == Side(r.value.0)
    ensures r.Success? ==> (r.value.1 == ".." <==> |spec| >= 2 && spec[..2] == "..")
    ensures spec != [] && AllDigits(spec) ==> r.Success? && r.value.1 == "."
  {
    if |spec| >= 3 && spec[..2] == ".." && AllDigits(spec[2..]) then
      assert !IsDigit(spec[0]);
      Success((2 * ParseNat(spec[2..]), ".."))
    else if spec != [] && AllDigits(spec) then
      Success((2 * ParseNat(spec) - 1, "."))
    else
      Failure(InvalidPlySpec(spec))
  }

  /** Every `..N` and every `N`, N a non-empty run of digits, is accepted: `..N` is
      Black's N-th move, ply 2N, and `N` is White's, ply 2N - 1. */
  lemma PlySpecValues(d: string)
    requires d != [] && AllDigits(d)
    ensures PlyFromSpec(".." + d) == Success((2 * ParseNat(d), ".."))
    ensures PlyFromSpec(d) == Success((2 * ParseNat(d) - 1, "."))
  {
    assert (".." + d)[..2] == ".." && (".." + d)[2..] == d;
  }

  /** Leading zeros are read as int() reads them, and move 0 gives the plies 0 and -1. */
  lemma PlySpecExamples()
    ensures PlyFromSpec("..07") == Success((14, ".."))
    ensures PlyFromSpec("12") == Success((23, "."))
    ensures PlyFromSpec("..0") == Success((0, ".."))
    ensures PlyFromSpec("0") == Success((-1, "."))
    ensures PlyFromSpec("..") == Failure(InvalidPlySpec(".."))
    ensures PlyFromSpec("") == Failure(InvalidPlySpec(""))
    ensures PlyFromSpec(".5") == Failure(InvalidPlySpec(".5"))
  {
    PlySpecValues("07");
    PlySpecValues("12");
    PlySpecValues("0");
    assert ParseNat("07") == 7 by { assert "07"[..1] == "0"; }
    assert ParseNat("12") == 12 by { assert "12"[..1] == "1"; }
  }

  /** The side marker of a ply: ".." for Black (even plies), "." for White. */
  function Side(ply: int): string
  {
    if ply % 2 == 0 then ".." else "."
  }

  /** The move number a ply belongs to, (ply + 1) // 2. */
  function MoveNumber(ply: int): int
  {
    (ply + 1) / 2
  }

  /** The label build_rows prints for a ply: its move number, then its side marker. */
  function Label(ply: int): string
    requires ply >= 1
  {
    NatStr(MoveNumber(ply)) + Side(ply)
  }

  /** A label ends in a dot, and in two dots exactly when the ply is Black's. */
  lemma LabelShape(ply: int)
    requires ply >= 1
    ensures |Label(ply)| >= 2 && Label(ply)[|Label(ply)| - 1] == '.'
    ensures Label(ply)[|Label(ply)| - 2] == '.' <==> ply % 2 == 0
  {
  }

  /** The spec that names a ply. */
  function SpecOf(ply: int): string
    requires ply >= 1
  {
    if ply % 2 == 0 then ".." + NatStr(ply / 2) else NatStr(MoveNumber(ply))
  }

  /** Every ply has a spec, and ply_from_spec maps it back to that ply with the
      side marker the ply's label uses. */
  lemma SpecRoundTrip(ply: int)
    requires ply >= 1
    ensures PlyFromSpec(SpecOf(ply)) == Success((ply, Side(ply)))
  {
    if ply % 2 == 0 {
      var s := ".." + NatStr(ply / 2);
      assert s[2..] == NatStr(ply / 2);
      ParseNatStr(ply / 2);
    } else {
      var s := NatStr(MoveNumber(ply));
      assert !IsDigit('.');
      assert |s| >= 3 ==> s[..2] != "..";
      ParseNatStr(MoveNumber(ply));
    }
  }

  /** A spec's side marker is the one the label of its ply shows, and its number is
      the label's move number: a Black spec gives an even ply, a White one an odd ply. */
  lemma LabelAgreesWithSpec(spec: string, ply: int, side: string)
    requires PlyFromSpec(spec) == Success((ply, side)) && ply >= 1
    ensures side == Side(ply)
    ensures Label(ply) == NatStr(MoveNumber(ply)) + side
    ensures side == ".." ==> AllDigits(spec[2..]) && MoveNumber(ply) == ParseNat(spec[2..])
    ensures side == "." ==> AllDigits(spec) && MoveNumber(ply) == ParseNat(spec)
  {
  }

  /** A label is the ply's move number in digits, then the ply's side marker: the
      digits read back as the move number. */
  lemma LabelReadsBack(ply: int)
    requires ply >= 1
    ensures |Label(ply)| > |Side(ply)| && Label(ply)[|Label(ply)| - |Side(ply)|..] == Side(ply)
    ensures AllDigits(Label(ply)[..|Label(ply)| - |Side(ply)|])
    ensures ParseNat(Label(ply)[..|Label(ply)| - |Side(ply)|]) == MoveNumber(ply)
  {
    assert Label(ply)[..|Label(ply)| - |Side(ply)|] == NatStr(MoveNumber(ply));
    ParseNatStr(MoveNumber(ply));
  }

  /** Labels of plies up to 19999 (White's move 10000) fit the 6-column label field. */
  lemma LabelFits(ply: int)
    requires 1 <= ply <= 19999
    ensures |Label(ply)| <= 6
  {
    if ply <= 19998 {
      assert Pow10(4) == 10000;
      NatStrLength(MoveNumber(ply), 4);
    } else {
      assert Pow10(5) == 100000;
      NatStrLength(MoveNumber(ply), 5);
    }
  }

  /** The bound is sharp: Black's move 10000 has a seven-column label. */
  lemma LabelOverflows()
    ensures |Label(20000)| == 7
  {
    assert Pow10(4) == 10000 && Pow10(5) == 100000;
    NatStrLength(10000, 5);
    NatStrLengthAtLeast(10000, 4);
  }
}
