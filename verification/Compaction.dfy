/** Dropped components: which results remain, and where they are written. */
module Compaction {
  import opened Tallies
  import opened Placements
  import opened Search
  import opened ComponentSolver
  import opened Components

  // The components whose search stays within the budget.
  ghost function Afforded(parts: seq<Component>): (flags: seq<bool>)
    ensures |flags| == |parts|
  {
    seq(|parts|, i requires 0 <= i < |parts| => NodeCost(parts[i].cells, parts[i].cons) <= NODE_BUDGET)
  }

  // The indices of the components that were solved; result si belongs to component Indices(solved)[si].
  function Indices(solved: seq<bool>): (kept: seq<nat>)
    ensures |kept| <= |solved| && forall si :: 0 <= si < |kept| ==> kept[si] < |solved| && solved[kept[si]]
  {
    if solved == [] then []
    else
      var last := |solved| - 1;
      Indices(solved[..last]) + (if solved[last] then [last] else [])
  }

  // The solved components, in order.
  ghost function Picked(parts: seq<Component>, solved: seq<bool>): (comps: seq<Component>)
    requires |parts| == |solved|
    ensures |comps| == |Indices(solved)|
    ensures forall si :: 0 <= si < |comps| ==> comps[si] == parts[Indices(solved)[si]]
  {
    seq(|Indices(solved)|, si requires 0 <= si < |Indices(solved)| => parts[Indices(solved)[si]])
  }

  // All their constraints.
  function JoinedCons(comps: seq<Component>): seq<Con> {
    if comps == [] then [] else JoinedCons(comps[..|comps| - 1]) + comps[|comps| - 1].cons
  }

  /** The constraints that are left after dropping the components over the budget. */
  ghost function UsedCons(parts: seq<Component>): seq<Con> {
    JoinedCons(Picked(parts, Afforded(parts)))
  }

  // The cells of the components dropped among the first k.
  ghost function DroppedCells(parts: seq<Component>, solved: seq<bool>, k: nat): set<nat>
    requires k <= |parts| == |solved|
  {
    if k == 0 then {}
    else DroppedCells(parts, solved, k - 1) + (if solved[k - 1] then {} else Elems(parts[k - 1].cells))
  }

  lemma {:induction false} DroppedMember(parts: seq<Component>, solved: seq<bool>, k: nat, x: nat)
    requires k <= |parts| == |solved|
    ensures x in DroppedCells(parts, solved, k) <==> exists j: nat :: j < k && !solved[j] && x in parts[j].cells
  {
    if k > 0 {
      DroppedMember(parts, solved, k - 1, x);
      if !solved[k - 1] && x in parts[k - 1].cells { assert k - 1 < k; }
    }
  }

  lemma {:induction false} IndexOf(solved: seq<bool>, i: nat) returns (si: nat)
    requires i < |solved| && solved[i]
    ensures si < |Indices(solved)| && Indices(solved)[si] == i
  {
    var last := |solved| - 1;
    if i == last {
      si := |Indices(solved[..last])|;
    } else {
      si := IndexOf(solved[..last], i);
    }
  }

  lemma {:induction false} JoinedMember(comps: seq<Component>, c: Con)
    ensures c in JoinedCons(comps) <==> ConInPiece(comps, c)
  {
    if comps != [] {
      var init, last := comps[..|comps| - 1], comps[|comps| - 1];
      JoinedMember(init, c);
      if ConInPiece(init, c) {
        var i: nat :| i < |init| && c in init[i].cons;
        assert c in comps[i].cons;
      }
      if c in last.cons { assert c in comps[|comps| - 1].cons; }
      if ConInPiece(comps, c) {
        var i: nat :| i < |comps| && c in comps[i].cons;
        if i < |init| { assert c in init[i].cons; }
      }
    }
  }

  // ---- the solved components decompose the remaining constraints ----

  // A cell of component i lies in some constraint of component i.
  lemma {:induction false} OwnCon(parts: seq<Component>, cons: seq<Con>, i: nat, x: nat) returns (c: Con)
    requires Decomposition(parts, cons) && i < |parts| && x in parts[i].cells
    ensures c in parts[i].cons && x in c.cells
  {
    assert CellInPiece(parts, x);
    assert x in Mentioned(cons);
    c :| c in cons && x in c.cells;
    assert ConInPiece(parts, c);
    var j: nat :| j < |parts| && c in parts[j].cons;
    assert WellFormed(parts[j].cells, parts[j].cons);
    assert x in Elems(parts[j].cells) && x in Elems(parts[i].cells);
  }

  lemma {:induction false} PickedApart(parts: seq<Component>, cons: seq<Con>, solved: seq<bool>)
    requires Decomposition(parts, cons) && |solved| == |parts|
    ensures PiecesWellFormed(Picked(parts, solved)) && PiecesApart(Picked(parts, solved))
  {
    hide Mentioned, WellFormed, CellInPiece, ConInPiece;
    var comps := Picked(parts, solved);
    forall i: nat, j: nat | i < j < |comps| ensures Elems(comps[i].cells) !! Elems(comps[j].cells) {
      IndicesRise(solved, i, j);
    }
  }

  lemma {:induction false} IndicesRise(solved: seq<bool>, i: nat, j: nat)
    requires i < j < |Indices(solved)|
    ensures Indices(solved)[i] < Indices(solved)[j]
  {
    var last := |solved| - 1;
    if j < |Indices(solved[..last])| { IndicesRise(solved[..last], i, j); }
  }

  lemma {:induction false} PickedDecompose(parts: seq<Component>, cons: seq<Con>, solved: seq<bool>)
    requires Decomposition(parts, cons) && |solved| == |parts|
    ensures Decomposition(Picked(parts, solved), JoinedCons(Picked(parts, solved)))
    ensures forall c :: c in JoinedCons(Picked(parts, solved)) ==> c in cons
  {
    hide WellFormed;
    var comps := Picked(parts, solved);
    var used := JoinedCons(comps);
    PickedApart(parts, cons, solved);
    forall c ensures c in used <==> ConInPiece(comps, c) {
      JoinedMember(comps, c);
    }
    forall c | c in used ensures c in cons {
      var i: nat :| i < |comps| && c in comps[i].cons;
      assert ConInPiece(parts, c);
    }
    forall x: nat ensures x in Mentioned(used) <==> CellInPiece(comps, x) {
      PickedCell(parts, cons, solved, x);
    }
  }

  lemma {:induction false} PickedCell(parts: seq<Component>, cons: seq<Con>, solved: seq<bool>, x: nat)
    requires Decomposition(parts, cons) && |solved| == |parts|
    ensures x in Mentioned(JoinedCons(Picked(parts, solved))) <==> CellInPiece(Picked(parts, solved), x)
  {
    hide Decomposition;
    var comps := Picked(parts, solved);
    var used := JoinedCons(comps);
    if x in Mentioned(used) {
      var c :| c in used && x in c.cells;
      JoinedMember(comps, c);
      var i: nat :| i < |comps| && c in comps[i].cons;
      PickedApart(parts, cons, solved);
      assert WellFormed(comps[i].cells, comps[i].cons);
      assert x in Elems(comps[i].cells);
    }
    if CellInPiece(comps, x) {
      var i: nat :| i < |comps| && x in comps[i].cells;
      var c := OwnCon(parts, cons, Indices(solved)[i], x);
      assert ConInPiece(comps, c);
      JoinedMember(comps, c);
    }
  }

  /** The frontier that remains is what the dropped components leave of it. */
  lemma {:induction false} RemainingFrontier(parts: seq<Component>, cons: seq<Con>, solved: seq<bool>)
    requires Decomposition(parts, cons) && |solved| == |parts|
    ensures Mentioned(JoinedCons(Picked(parts, solved))) == Mentioned(cons) - DroppedCells(parts, solved, |parts|)
  {
    hide Decomposition, Mentioned;
    forall x: nat
      ensures x in Mentioned(JoinedCons(Picked(parts, solved)))
         <==> x in Mentioned(cons) && x !in DroppedCells(parts, solved, |parts|)
    {
      RemainingCell(parts, cons, solved, x);
    }
  }

  lemma {:induction false} OnePart(parts: seq<Component>, k: nat, x: nat)
    requires PiecesApart(parts) && k < |parts| && x in parts[k].cells
    ensures forall j: nat :: j < |parts| && x in parts[j].cells ==> j == k
  {
    forall j: nat | j < |parts| && x in parts[j].cells ensures j == k {
      assert x in Elems(parts[j].cells) && x in Elems(parts[k].cells);
    }
  }

  lemma {:induction false} RemainingCell(parts: seq<Component>, cons: seq<Con>, solved: seq<bool>, x: nat)
    requires Decomposition(parts, cons) && |solved| == |parts|
    ensures x in Mentioned(JoinedCons(Picked(parts, solved)))
       <==> x in Mentioned(cons) && x !in DroppedCells(parts, solved, |parts|)
  {
    hide Mentioned, PiecesWellFormed, ConInPiece;
    var comps := Picked(parts, solved);
    PickedCell(parts, cons, solved, x);
    DroppedMember(parts, solved, |parts|, x);
    if CellInPiece(comps, x) {
      var i: nat :| i < |comps| && x in comps[i].cells;
      var k := Indices(solved)[i];
      assert x in parts[k].cells && CellInPiece(parts, x);
      OnePart(parts, k, x);
    }
    if x in Mentioned(cons) && x !in DroppedCells(parts, solved, |parts|) {
      assert CellInPiece(parts, x);
      var k: nat :| k < |parts| && x in parts[k].cells;
      var si := IndexOf(solved, k);
      assert x in comps[si].cells;
    }
  }

  // ---- where the results are written ----

  // The sorted cells hold component after component.
  ghost predicate Laid(parts: seq<Component>, ofs: seq<nat>, cells: seq<nat>) {
    |ofs| == |parts| + 1 && forall i: nat :: i < |parts| ==> RangeIs(ofs, cells, i, parts[i].cells)
  }

  lemma {:induction false} OffsetsRise(parts: seq<Component>, ofs: seq<nat>, cells: seq<nat>, i: nat, j: nat)
    requires Laid(parts, ofs, cells) && i <= j <= |parts|
    ensures ofs[i] <= ofs[j]
  {
    if i < j {
      OffsetsRise(parts, ofs, cells, i, j - 1);
      assert RangeIs(ofs, cells, j - 1, parts[j - 1].cells);
    }
  }

  lemma {:induction false} IndexBound(solved: seq<bool>, si: nat)
    requires si < |Indices(solved)|
    ensures si <= Indices(solved)[si]
  {
    if si > 0 {
      IndexBound(solved, si - 1);
      IndicesRise(solved, si - 1, si);
    }
  }

  // Result si has room from offset si on.
  lemma {:induction false} SlotRoom(parts: seq<Component>, ofs: seq<nat>, cells: seq<nat>, solved: seq<bool>, si: nat)
    requires Laid(parts, ofs, cells) && |solved| == |parts| && si < |Indices(solved)|
    ensures si < |ofs| && ofs[si] + |Picked(parts, solved)[si].cells| <= |cells|
  {
    var k := Indices(solved)[si];
    IndexBound(solved, si);
    OffsetsRise(parts, ofs, cells, si, k);
    assert RangeIs(ofs, cells, k, parts[k].cells);
  }

  // The cells that the probability loop writes for result si: as many as it has, from offset si on.
  ghost function Written(parts: seq<Component>, ofs: seq<nat>, cells: seq<nat>, solved: seq<bool>, si: nat): seq<nat>
    requires Laid(parts, ofs, cells) && |solved| == |parts| && si < |Indices(solved)|
  {
    SlotRoom(parts, ofs, cells, solved, si);
    cells[ofs[si]..ofs[si] + |Picked(parts, solved)[si].cells|]
  }

  // Dropped components come after all solved ones.
  ghost predicate DroppedLast(solved: seq<bool>) {
    forall i, j :: 0 <= i < j < |solved| && solved[j] ==> solved[i]
  }

  // Result si is written to its own cells exactly when no component before it was dropped.
  lemma {:induction false} OneInPlace(parts: seq<Component>, ofs: seq<nat>, cells: seq<nat>, solved: seq<bool>, si: nat)
    requires PiecesWellFormed(parts) && PiecesApart(parts)
    requires Laid(parts, ofs, cells) && |solved| == |parts| && si < |Indices(solved)|
    ensures Written(parts, ofs, cells, solved, si) == Picked(parts, solved)[si].cells <==> Indices(solved)[si] == si
  {
    hide WellFormed;
    var k := Indices(solved)[si];
    SlotRoom(parts, ofs, cells, solved, si);
    IndexBound(solved, si);
    assert RangeIs(ofs, cells, si, parts[si].cells) && RangeIs(ofs, cells, k, parts[k].cells);
    assert Written(parts, ofs, cells, solved, si)[0] == cells[ofs[si]] == parts[si].cells[0];
    OnePart(parts, si, parts[si].cells[0]);
  }

  lemma {:induction false} KeptAll(solved: seq<bool>, k: nat)
    requires k <= |solved| && forall i :: 0 <= i < |solved| ==> (solved[i] <==> i < k)
    ensures |Indices(solved)| == k && forall si :: 0 <= si < k ==> Indices(solved)[si] == si
  {
    if solved != [] {
      var last := |solved| - 1;
      KeptAll(solved[..last], if k > last then last else k);
    }
  }

  lemma {:induction false} KeptInPlace(solved: seq<bool>)
    requires forall si :: 0 <= si < |Indices(solved)| ==> Indices(solved)[si] == si
    ensures DroppedLast(solved)
  {
    forall i, j | 0 <= i < j < |solved| && solved[j] ensures solved[i] {
      var si := IndexOf(solved, j);
      assert Indices(solved)[i] == i;
    }
  }

  lemma {:induction false} InitialStretch(solved: seq<bool>) returns (k: nat)
    requires DroppedLast(solved)
    ensures k <= |solved| && forall i :: 0 <= i < |solved| ==> (solved[i] <==> i < k)
  {
    if solved == [] {
      k := 0;
    } else {
      var last := |solved| - 1;
      assert forall i, j :: 0 <= i < j < last && solved[..last][j] ==> solved[j] && solved[..last][i] == solved[i];
      k := InitialStretch(solved[..last]);
      if solved[last] { k := |solved|; }
      forall i | 0 <= i < |solved| ensures solved[i] <==> i < k {
        if i < last { assert solved[..last][i] == solved[i]; }
      }
    }
  }

  // Every result is written to the cells of its own component.
  ghost predicate InPlace(parts: seq<Component>, ofs: seq<nat>, cells: seq<nat>, solved: seq<bool>)
    requires Laid(parts, ofs, cells) && |solved| == |parts|
  {
    forall si: nat :: si < |Indices(solved)| ==>
      Written(parts, ofs, cells, solved, si) == Picked(parts, solved)[si].cells
  }

  /** That is so exactly when no dropped component precedes a solved one. */
  lemma {:induction false} LinedUp(parts: seq<Component>, ofs: seq<nat>, cells: seq<nat>, solved: seq<bool>)
    requires PiecesWellFormed(parts) && PiecesApart(parts)
    requires Laid(parts, ofs, cells) && |solved| == |parts|
    ensures InPlace(parts, ofs, cells, solved) <==> DroppedLast(solved)
  {
    hide Laid, PiecesWellFormed, PiecesApart, Written;
    forall si: nat | si < |Indices(solved)|
      ensures Written(parts, ofs, cells, solved, si) == Picked(parts, solved)[si].cells <==> Indices(solved)[si] == si
    {
      OneInPlace(parts, ofs, cells, solved, si);
    }
    if DroppedLast(solved) {
      var k := InitialStretch(solved);
      KeptAll(solved, k);
    }
    if InPlace(parts, ofs, cells, solved) { KeptInPlace(solved); }
  }
}
