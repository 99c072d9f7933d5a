/** When two quoted ids have one normal form (engine/app/resolve/keys.py:30-38). */
module KeyForms {
  import opened Text
  import opened ObjectKeys

  /** The leading run of characters that are no white space. */
  function Piece(s: string): (p: string)
    ensures |p| <= |s| && p == s[..|p|] && forall i | 0 <= i < |p| :: !IsSpace(p[i])
    ensures |p| < |s| ==> IsSpace(s[|p|])
    ensures s != "" && !IsSpace(s[0]) ==> p != ""
  {
    if s != "" && !IsSpace(s[0]) then [s[0]] + Piece(s[1..]) else ""
  }

  /** What white space separates, as `str.split` gives it. */
  function Pieces(s: string): (ps: seq<string>)
    ensures forall i | 0 <= i < |ps| :: ps[i] != "" && forall j | 0 <= j < |ps[i]| :: !IsSpace(ps[i][j])
    decreases |s|
  {
    if s == "" then []
    else if IsSpace(s[0]) then Pieces(s[1..])
    else [Piece(s)] + Pieces(s[|Piece(s)|..])
  }

  lemma {:induction false} CollapseAfterPiece(piece: string, tail: string)
    requires forall i | 0 <= i < |piece| :: !IsSpace(piece[i])
    ensures Collapse(piece + tail) == piece + Collapse(tail)
  {
    if piece == "" {
      assert piece + tail == tail && piece + Collapse(tail) == Collapse(tail);
    } else {
      CollapseAfterPiece(piece[1..], tail);
      assert (piece + tail)[0] == piece[0] && (piece + tail)[1..] == piece[1..] + tail;
      assert [piece[0]] + (piece[1..] + Collapse(tail)) == piece + Collapse(tail);
    }
  }

  lemma {:induction false} SkippedSpaces(s: string)
    requires s != "" && !IsSpace(s[|s| - 1])
    ensures var r := SkipSpaces(s); r != "" && !IsSpace(r[0]) && r[|r| - 1] == s[|s| - 1] && Pieces(r) == Pieces(s)
  {
    if IsSpace(s[0]) {
      SkippedSpaces(s[1..]);
    }
  }

  /** Collapsing a stripped text joins its pieces by single spaces. */
  lemma {:induction false} CollapseJoinsThePieces(s: string)
    requires s == "" || Tight(s)
    ensures Collapse(s) == Join(Pieces(s), " ")
    decreases |s|
  {
    hide IsSpace;
    if s != "" {
      var piece := Piece(s);
      var tail := s[|piece|..];
      assert s == piece + tail;
      CollapseAfterPiece(piece, tail);
      if tail == "" {
        assert Collapse(tail) == "" && Pieces(tail) == [];
        assert piece + "" == piece;
      } else {
        assert tail[|tail| - 1] == s[|s| - 1];
        SkippedSpaces(tail);
        var rest := SkipSpaces(tail);
        CollapseJoinsThePieces(rest);
        assert Pieces(s) == [piece] + Pieces(rest) && Pieces(rest) != [];
        assert ([piece] + Pieces(rest))[1..] == Pieces(rest);
        assert piece + (" " + Join(Pieces(rest), " ")) == piece + " " + Join(Pieces(rest), " ");
      }
    }
  }

  function LowerAll(fold: char -> char, ps: seq<string>): (r: seq<string>)
    ensures |r| == |ps| && forall i | 0 <= i < |ps| :: r[i] == Lower(fold, ps[i])
  {
    seq(|ps|, i requires 0 <= i < |ps| => Lower(fold, ps[i]))
  }

  lemma LowerOfConcat(fold: char -> char, a: string, b: string)
    ensures Lower(fold, a + b) == Lower(fold, a) + Lower(fold, b)
  {}

  lemma {:induction false} LowerOfJoin(fold: char -> char, ps: seq<string>)
    requires fold(' ') == ' '
    ensures Lower(fold, Join(ps, " ")) == Join(LowerAll(fold, ps), " ")
  {
    if |ps| > 1 {
      LowerOfJoin(fold, ps[1..]);
      LowerOfConcat(fold, ps[0] + " ", Join(ps[1..], " "));
      LowerOfConcat(fold, ps[0], " ");
      assert Lower(fold, " ") == " ";
      assert LowerAll(fold, ps)[1..] == LowerAll(fold, ps[1..]);
    }
  }

  lemma JoinOfPieces(ps: seq<string>, qs: seq<string>)
    requires forall i | 0 <= i < |ps| :: ps[i] != "" && ' ' !in ps[i]
    requires forall i | 0 <= i < |qs| :: qs[i] != "" && ' ' !in qs[i]
    ensures Join(ps, " ") == Join(qs, " ") <==> ps == qs
  {
    if ps != [] && qs != [] {
      SplitJoin(ps, ' ');
      SplitJoin(qs, ' ');
    }
  }

  /** The pieces of an id, folded. */
  function FoldedPieces(fold: char -> char, value: string): seq<string> {
    LowerAll(fold, Pieces(Strip(value)))
  }

  lemma FoldedPiecesAreSpaceFree(fold: char -> char, value: string)
    requires forall c :: fold(c) == ' ' <==> c == ' '
    ensures var ps := FoldedPieces(fold, value); forall i | 0 <= i < |ps| :: ps[i] != "" && ' ' !in ps[i]
  {
    var ps, raw := FoldedPieces(fold, value), Pieces(Strip(value));
    forall i | 0 <= i < |ps| ensures ps[i] != "" && ' ' !in ps[i] {
      assert raw[i] != "" && ps[i] == Lower(fold, raw[i]);
      forall j | 0 <= j < |ps[i]| ensures ps[i][j] != ' ' {
        assert !IsSpace(raw[i][j]) && ps[i][j] == fold(raw[i][j]);
      }
    }
  }

  lemma TextFormJoins(fold: char -> char, value: string)
    requires forall c :: fold(c) == ' ' <==> c == ' '
    ensures TextForm(fold, value) == Join(FoldedPieces(fold, value), " ")
  {
    StripIsTight(value);
    CollapseJoinsThePieces(Strip(value));
    LowerOfJoin(fold, Pieces(Strip(value)));
  }

  /** Exactly when two ids agree under a text column: their pieces between white space are the same once
      folded. White space and case are noise, and every other character counts, a dash included. */
  lemma SameFormExactlyWhenSamePieces(fold: char -> char, a: string, b: string)
    requires forall c :: fold(c) == ' ' <==> c == ' '
    ensures TextForm(fold, a) == TextForm(fold, b) <==> FoldedPieces(fold, a) == FoldedPieces(fold, b)
  {
    hide TextForm, FoldedPieces;
    TextFormJoins(fold, a);
    TextFormJoins(fold, b);
    FoldedPiecesAreSpaceFree(fold, a);
    FoldedPiecesAreSpaceFree(fold, b);
    JoinOfPieces(FoldedPieces(fold, a), FoldedPieces(fold, b));
  }
}
