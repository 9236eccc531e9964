/** Board geometry: cells numbered row by row, and the 3x3 square around a cell. */
module Grid {
  import opened Naturals
  import opened Tallies

  datatype Dim = Dim(rows: nat, cols: nat) {
    function Cells(): nat { rows * cols }

    predicate InB(r: int, c: int) { 0 <= r < rows && 0 <= c < cols }

    function Idx(r: int, c: int): nat
      requires InB(r, c)
    {
      r * cols + c
    }

    function Row(i: nat): int
      requires cols > 0
    {
      i / cols
    }

    function Col(i: nat): int
      requires cols > 0
    {
      i % cols
    }

    // The first k offsets (-1,-1), (-1,0), ... of the 3x3 square around (r, c), inside the board.
    function SquareUpto(r: int, c: int, k: nat): seq<nat>
      requires k <= 9
    {
      if k == 0 then []
      else
        SquareUpto(r, c, k - 1)
        + (var rr, cc := r + (k - 1) / 3 - 1, c + (k - 1) % 3 - 1;
           if InB(rr, cc) then [Idx(rr, cc)] else [])
    }

    function Square(r: int, c: int): seq<nat> {
      SquareUpto(r, c, 9)
    }

    // The square around cell i, centre included.
    function Around(i: nat): seq<nat>
      requires i < Cells()
    {
      if cols == 0 then [] else Square(Row(i), Col(i))
    }

    lemma {:induction false} IdxRange(r: int, c: int)
      requires InB(r, c)
      ensures Idx(r, c) < Cells() && cols > 0
      ensures Row(Idx(r, c)) == r && Col(Idx(r, c)) == c
    {
      MulStep(r, cols);
      MulLe(r + 1, rows, cols);
      DivMod(r, cols, c);
    }

    lemma {:induction false} CellCoords(i: nat)
      requires i < Cells()
      ensures cols > 0 && InB(Row(i), Col(i)) && Idx(Row(i), Col(i)) == i
    {
      QuotientBelow(i, rows, cols);
    }

    lemma {:induction false} SquareMember(r: int, c: int, k: nat, x: nat)
      requires k <= 9
      ensures x in SquareUpto(r, c, k)
         <==> exists j: nat :: j < k && OffsetIs(r, c, j, x)
    {
      if k > 0 {
        SquareMember(r, c, k - 1, x);
        if OffsetIs(r, c, k - 1, x) { assert k - 1 < k; }
      }
    }

    // Cell x sits at offset j of the square around (r, c).
    predicate OffsetIs(r: int, c: int, j: nat, x: nat) {
      var rr, cc := r + j / 3 - 1, c + j % 3 - 1;
      InB(rr, cc) && x == Idx(rr, cc)
    }

    lemma {:induction false} SquareDistinct(r: int, c: int, k: nat)
      requires k <= 9
      ensures Distinct(SquareUpto(r, c, k))
    {
      if k > 0 {
        SquareDistinct(r, c, k - 1);
        var rr, cc := r + (k - 1) / 3 - 1, c + (k - 1) % 3 - 1;
        if InB(rr, cc) {
          SquareMember(r, c, k - 1, Idx(rr, cc));
          forall j: nat | j < k - 1 ensures !OffsetIs(r, c, j, Idx(rr, cc)) {
            var r', c' := r + j / 3 - 1, c + j % 3 - 1;
            if InB(r', c') && Idx(r', c') == Idx(rr, cc) {
              IdxRange(r', c');
              IdxRange(rr, cc);
            }
          }
        }
      }
    }

    // Exactly the cells at most one row and one column away.
    lemma {:induction false} SquareIs(r: int, c: int, x: nat)
      ensures x in Square(r, c)
         <==> x < Cells() && cols > 0 && -1 <= Row(x) - r <= 1 && -1 <= Col(x) - c <= 1
    {
      SquareMember(r, c, 9, x);
      if x in Square(r, c) {
        var j: nat :| j < 9 && OffsetIs(r, c, j, x);
        IdxRange(r + j / 3 - 1, c + j % 3 - 1);
      }
      if x < Cells() && cols > 0 && -1 <= Row(x) - r <= 1 && -1 <= Col(x) - c <= 1 {
        CellCoords(x);
        var a, b := Row(x) - r + 1, Col(x) - c + 1;
        var j := 3 * a + b;
        assert j / 3 == a && j % 3 == b;
        assert OffsetIs(r, c, j, x);
      }
    }

    lemma {:induction false} AroundIs(i: nat, x: nat)
      requires i < Cells()
      ensures cols > 0
      ensures x in Around(i) <==> x < Cells() && -1 <= Row(x) - Row(i) <= 1 && -1 <= Col(x) - Col(i) <= 1
    {
      CellCoords(i);
      SquareIs(Row(i), Col(i), x);
    }

    // Being neighbours is symmetric, and every cell is in its own square.
    lemma {:induction false} AroundSymmetric(i: nat, x: nat)
      requires i < Cells() && x < Cells()
      ensures x in Around(i) <==> i in Around(x)
      ensures i in Around(i)
    {
      AroundIs(i, x);
      AroundIs(x, i);
      AroundIs(i, i);
    }

    lemma {:induction false} AroundDistinct(i: nat)
      requires i < Cells()
      ensures Distinct(Around(i)) && |Around(i)| <= 9
      ensures forall x :: x in Around(i) ==> x < Cells()
    {
      CellCoords(i);
      SquareDistinct(Row(i), Col(i), 9);
      SquareLength(Row(i), Col(i), 9);
      forall x | x in Around(i) ensures x < Cells() {
        AroundIs(i, x);
      }
    }

    lemma {:induction false} SquareLength(r: int, c: int, k: nat)
      requires k <= 9
      ensures |SquareUpto(r, c, k)| <= k
    {
      if k > 0 { SquareLength(r, c, k - 1); }
    }
  }

  // Loop counters dr, dc in -1..1 visit offset 3 * (dr + 1) + dc + 1.
  lemma {:induction false} OffsetStep(d: Dim, r: int, c: int, dr: int, dc: int)
    requires -1 <= dr <= 1 && -1 <= dc <= 1
    ensures var k := 3 * (dr + 1) + (dc + 1);
      d.SquareUpto(r, c, k + 1)
      == d.SquareUpto(r, c, k) + (if d.InB(r + dr, c + dc) then [d.Idx(r + dr, c + dc)] else [])
  {
    var k := 3 * (dr + 1) + (dc + 1);
    assert k / 3 - 1 == dr && k % 3 - 1 == dc;
  }
}
