/**
 * The move text of the command-line front end: moves written in the long
 * algebraic notation of the UCI protocol ("e2e4", "e7e8q"), the comparison
 * of two moves on their squares and promotion piece, and the test that a
 * typed move is legal in the board's position.
 */
module Uci {
  import opened Bits
  import opened Types
  import opened Positions
  import opened Boards
  import opened Generation
  import opened MoveGen

  datatype Option<T> = None | Some(value: T)

  // ---------------------------------------------------------------------
  // move_to_uci

  /** `char(x)`: the character whose code is the low byte of `x`. */
  function Byte(x: nat): char
  {
    (x % 256) as char
  }

  /** The two characters naming square `sq`: the file letter `'a' + sq % 8`
      and the rank digit `'1' + sq / 8`. */
  function SquareText(sq: nat): string
  {
    [Byte('a' as int + sq % 8), Byte('1' as int + sq / 8)]
  }

  /** The promotion letter: rook, bishop or knight of either side by its
      own letter, any other piece as a queen. */
  function PromoLetter(promo: int): char
  {
    if promo == WR || promo == BR then 'r'
    else if promo == WB || promo == BB then 'b'
    else if promo == WN || promo == BN then 'n'
    else 'q'
  }

  /** The text of move `m`: origin, target and, when the move names a
      promotion piece, its letter. The squares are the 16-bit fields of a
      move. */
  function UciText(m: Move): (s: string)
    requires 0 <= m.from < 0x1_0000 && 0 <= m.to < 0x1_0000
    ensures |s| == (if m.promo != 0 then 5 else 4)
    ensures m.promo != 0 ==> s[4] in "qrbn"
    ensures m.promo != 0 ==> (s[4] == 'q' <==> m.promo !in {WR, BR, WB, BB, WN, BN})
  {
    SquareText(m.from) + SquareText(m.to) + (if m.promo != 0 then [PromoLetter(m.promo)] else [])
  }

  /** `move_to_uci(m)`, pushing one character after another. */
  method MoveToUci(m: Move) returns (s: string)
    requires 0 <= m.from < 0x1_0000 && 0 <= m.to < 0x1_0000
    ensures s == UciText(m)
  {
    s := [];
    s := s + [Byte('a' as int + m.from % 8)];
    s := s + [Byte('1' as int + m.from / 8)];
    s := s + [Byte('a' as int + m.to % 8)];
    s := s + [Byte('1' as int + m.to / 8)];
    if m.promo != 0 {
      var pc := 'q';
      if m.promo == WR || m.promo == BR {
        pc := 'r';
      } else if m.promo == WB || m.promo == BB {
        pc := 'b';
      } else if m.promo == WN || m.promo == BN {
        pc := 'n';
      }
      s := s + [pc];
    }
  }

  // ---------------------------------------------------------------------
  // same_move

  /** `same_move(a, b)`: the moves agree on origin, target and promotion
      piece, whatever their flags. */
  predicate SameMove(a: Move, b: Move): (r: bool)
    ensures r <==> a.(flags := 0) == b.(flags := 0)
  {
    a.from == b.from && a.to == b.to && a.promo == b.promo
  }

  // ---------------------------------------------------------------------
  // parse_uci_move

  /** `std::tolower` on a character of the C locale. */
  function Lower(c: char): char
  {
    if 'A' <= c <= 'Z' then (c as int + 32) as char else c
  }

  /** A file letter `a`..`h` followed by a rank digit `1`..`8`. */
  predicate IsCoord(file: char, rank: char)
  {
    0 <= file as int - 'a' as int <= 7 && 0 <= rank as int - '1' as int <= 7
  }

  /** The piece of side `c` a promotion letter names, if it names one. */
  function PromoPiece(c: Color, pc: char): Option<int>
  {
    if c == White then
      if pc == 'q' then Some(WQ) else if pc == 'r' then Some(WR)
      else if pc == 'b' then Some(WB) else if pc == 'n' then Some(WN) else None
    else
      if pc == 'q' then Some(BQ) else if pc == 'r' then Some(BR)
      else if pc == 'b' then Some(BB) else if pc == 'n' then Some(BN) else None
  }

  /** The promotion pieces side `c` can name: its queen, rook, bishop and
      knight. */
  predicate IsPromotion(c: Color, promo: int)
  {
    promo in (if c == White then {WQ, WR, WB, WN} else {BQ, BR, BB, BN})
  }

  /** `parse_uci_move(b, s, out)` with `b.stm == stm`: the move `s` names,
      with its promotion letter resolved for the side to move and no
      flags, or `None` where the parse fails. */
  function ParseUciMove(stm: Color, s: string): (r: Option<Move>)
    ensures r.Some? <==>
      |s| >= 4 && IsCoord(s[0], s[1]) && IsCoord(s[2], s[3]) && (|s| >= 5 ==> Lower(s[4]) in "qrbn")
    ensures r.Some? ==>
      && IsSquare(r.value.from) && IsSquare(r.value.to) && r.value.flags == 0
      && (r.value.promo == 0 <==> |s| == 4)
      && (r.value.promo != 0 ==> IsPromotion(stm, r.value.promo))
  {
    if |s| < 4 then None
    else
      var ffile := s[0] as int - 'a' as int;
      var frank := s[1] as int - '1' as int;
      var tfile := s[2] as int - 'a' as int;
      var trank := s[3] as int - '1' as int;
      if ffile < 0 || ffile > 7 || tfile < 0 || tfile > 7 || frank < 0 || frank > 7 || trank < 0 || trank > 7 then None
      else
        var from := frank * 8 + ffile;
        var to := trank * 8 + tfile;
        if |s| >= 5 then
          match PromoPiece(stm, Lower(s[4]))
          case None => None
          case Some(promo) => Some(Move(from, to, promo, 0))
        else Some(Move(from, to, 0, 0))
  }

  /** Printing a move and parsing the text back gives the move without its
      flags, for on-board squares and no promotion or one of the mover's
      queen, rook, bishop or knight. */
  lemma PrintThenParse(stm: Color, m: Move)
    requires IsSquare(m.from) && IsSquare(m.to) && (m.promo == 0 || IsPromotion(stm, m.promo))
    ensures ParseUciMove(stm, UciText(m)) == Some(m.(flags := 0))
  {
    var s := UciText(m);
    SquareTextBack(m.from);
    SquareTextBack(m.to);
    assert s[0] == SquareText(m.from)[0] && s[1] == SquareText(m.from)[1];
    assert s[2] == SquareText(m.to)[0] && s[3] == SquareText(m.to)[1];
  }

  /** The characters of a square read back as its file and rank. */
  lemma SquareTextBack(sq: int)
    requires IsSquare(sq)
    ensures var t := SquareText(sq);
      && t[0] as int - 'a' as int == sq % 8 && t[1] as int - '1' as int == sq / 8
      && IsCoord(t[0], t[1]) && (t[1] as int - '1' as int) * 8 + (t[0] as int - 'a' as int) == sq
  {
  }

  /** Parsing a text and printing the move gives the text back: its first
      four characters and the promotion letter in lower case, anything
      after it dropped. */
  lemma ParseThenPrint(stm: Color, s: string)
    requires ParseUciMove(stm, s).Some?
    ensures var m := ParseUciMove(stm, s).value;
      UciText(m) == s[..4] + (if |s| >= 5 then [Lower(s[4])] else [])
  {
    var m := ParseUciMove(stm, s).value;
    var t := UciText(m);
    CoordText(s[0], s[1]);
    CoordText(s[2], s[3]);
    assert t[..2] == SquareText(m.from) && t[2..4] == SquareText(m.to);
    assert t[..4] == s[..4];
    if |s| >= 5 {
      assert t == t[..4] + [t[4]];
    } else {
      assert t == t[..4];
    }
  }

  /** A file letter and rank digit print back as themselves. */
  lemma CoordText(file: char, rank: char)
    requires IsCoord(file, rank)
    ensures SquareText((rank as int - '1' as int) * 8 + (file as int - 'a' as int)) == [file, rank]
  {
  }

  // ---------------------------------------------------------------------
  // legal_in_pos

  /** `legal_in_pos(b, m)`: whether some move the generator emits for the
      board agrees with `m` on its squares and promotion piece. */
  method LegalInPos(b: Board, m: Move) returns (r: bool)
    requires b.Valid() && b.ply < HIST_SIZE && Sound(b.Pos()) && Generable(b.Pos())
    ensures r <==> exists x :: x in Generated(b.Pos()) && SameMove(x, m)
  {
    var mv := GenerateMoves(b);
    var i := 0;
    while i < |mv|
      invariant 0 <= i <= |mv|
      invariant forall j :: 0 <= j < i ==> !SameMove(mv[j], m)
    {
      if SameMove(mv[i], m) {
        return true;
      }
      i := i + 1;
    }
    return false;
  }

  /** The text of a generated move has no promotion letter, since the
      generator emits no promotions, and it parses back to a move
      `legal_in_pos` accepts. */
  lemma GeneratedText(p: Position, m: Move)
    requires Sound(p) && Generable(p) && m in Generated(p)
    ensures IsSquare(m.from) && IsSquare(m.to) && |UciText(m)| == 4
    ensures ParseUciMove(p.stm, UciText(m)) == Some(m.(flags := 0))
    ensures SameMove(m, ParseUciMove(p.stm, UciText(m)).value)
  {
    GeneratedFine(p, m);
    PrintThenParse(p.stm, m);
  }
}
