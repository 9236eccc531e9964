/** The constraints that the revealed numbers put on the hidden cells. */
module Constraints {
  import opened Tallies
  import opened Grid
  import opened Placements
  import opened Components

  // What the analyzer is given: the visible board and the mine count.
  datatype Snapshot = Snapshot(dim: Dim, mines: nat, revealed: seq<bool>, mine: seq<bool>,
                               mark: seq<nat>, adj: seq<nat>) {
    predicate Shaped() {
      |revealed| == |mine| == |mark| == |adj| == dim.Cells()
    }

    predicate Hidden(i: nat)
      requires Shaped() && i < dim.Cells()
    {
      !revealed[i] && mark[i] != 1
    }

    ghost function HiddenUpto(k: nat): (s: set<nat>)
      requires Shaped() && k <= dim.Cells()
      ensures forall i: nat :: i in s <==> i < k && !revealed[i] && mark[i] != 1
    {
      if k == 0 then {} else HiddenUpto(k - 1) + (if Hidden(k - 1) then {k - 1} else {})
    }

    // The cells that are neither revealed nor flagged.
    ghost function HiddenSet(): set<nat>
      requires Shaped()
    {
      HiddenUpto(dim.Cells())
    }

    ghost function FlagsUpto(k: nat): (s: set<nat>)
      requires Shaped() && k <= dim.Cells()
      ensures forall i: nat :: i in s <==> i < k && mark[i] == 1
    {
      if k == 0 then {} else FlagsUpto(k - 1) + (if mark[k - 1] == 1 then {k - 1} else {})
    }

    ghost function FlagSet(): set<nat>
      requires Shaped()
    {
      FlagsUpto(dim.Cells())
    }

    // The constraint of revealed number i, if it is kept: hidden neighbours must hold adj - flags mines.
    ghost function ConAt(i: nat, open: set<nat>, flags: set<nat>): seq<Con>
      requires Shaped() && i < dim.Cells()
    {
      var cells := Keep(dim.Around(i), open);
      var need := adj[i] - Tally(dim.Around(i), flags);
      if !revealed[i] || mark[i] == 1 || mine[i] || cells == [] || need < 0 || need > |cells| then []
      else [Con(cells, need)]
    }

    ghost function KeptUpto(k: nat, open: set<nat>, flags: set<nat>): seq<Con>
      requires Shaped() && k <= dim.Cells()
    {
      if k == 0 then [] else KeptUpto(k - 1, open, flags) + ConAt(k - 1, open, flags)
    }

    /** All kept constraints, in cell order. */
    ghost function Kept(): seq<Con>
      requires Shaped()
    {
      KeptUpto(dim.Cells(), HiddenSet(), FlagSet())
    }

    lemma {:induction false} KeptMember(k: nat, open: set<nat>, flags: set<nat>, c: Con)
      requires Shaped() && k <= dim.Cells()
      ensures c in KeptUpto(k, open, flags) <==> exists i: nat :: i < k && c in ConAt(i, open, flags)
    {
      hide Snapshot.ConAt;
      if k > 0 {
        KeptMember(k - 1, open, flags, c);
        if c in ConAt(k - 1, open, flags) { assert k - 1 < k; }
      }
    }

    lemma {:induction false} ConAtUsable(i: nat, open: set<nat>, flags: set<nat>, c: Con)
      requires Shaped() && i < dim.Cells() && c in ConAt(i, open, flags)
      ensures c.cells != [] && Distinct(c.cells) && 0 <= c.need <= |c.cells|
      ensures forall x :: x in c.cells ==> x < dim.Cells() && x in open
    {
      dim.AroundDistinct(i);
      KeepFacts(dim.Around(i), open);
    }

    lemma {:induction false} KeptUsable()
      requires Shaped()
      ensures Usable(Kept(), dim.Cells()) && Mentioned(Kept()) <= HiddenSet()
    {
      var n, open, flags := dim.Cells(), HiddenSet(), FlagSet();
      forall c | c in Kept()
        ensures c.cells != [] && Distinct(c.cells) && 0 <= c.need <= |c.cells|
        ensures forall x :: x in c.cells ==> x < n && x in open
      {
        KeptMember(n, open, flags, c);
        var i: nat :| i < n && c in ConAt(i, open, flags);
        ConAtUsable(i, open, flags, c);
      }
    }

    // ---- what the kept constraints say ----

    /** A number that must be heeded: shown on a safe, unflagged cell beside a hidden one, and possible, in that its
        hidden neighbours can hold what its flags leave. */
    ghost predicate Speaks(i: nat, open: set<nat>, flags: set<nat>)
      requires Shaped() && i < dim.Cells()
    {
      && revealed[i] && mark[i] != 1 && !mine[i]
      && (exists x :: x in dim.Around(i) && x in open)
      && 0 <= adj[i] - Tally(dim.Around(i), flags) <= Tally(dim.Around(i), open)
    }

    // With the flags taken for mines, w puts as many mines around every such number as it shows.
    ghost predicate FitsNumbers(w: World, open: set<nat>, flags: set<nat>)
      requires Shaped()
    {
      forall i: nat :: i < dim.Cells() && Speaks(i, open, flags) ==> Tally(dim.Around(i), w + flags) == adj[i]
    }

    // Exactly the numbers that must be heeded give a constraint, on the hidden cells around them.
    lemma {:induction false} ConSpeaks(i: nat, open: set<nat>, flags: set<nat>)
      requires Shaped() && i < dim.Cells()
      ensures ConAt(i, open, flags) != [] <==> Speaks(i, open, flags)
      ensures forall c :: c in ConAt(i, open, flags) ==>
                && c.need == adj[i] - Tally(dim.Around(i), flags)
                && forall x :: x in c.cells <==> x in dim.Around(i) && x in open
    {
      hide Dim.Around, Dim.Cells, Tally, Keep;
      var around := dim.Around(i);
      KeepLength(around, open);
      KeepFacts(around, open);
      if Keep(around, open) != [] {
        var x := Keep(around, open)[0];
        assert x in around && x in open;
      }
    }

    // It says what the number says.
    lemma {:induction false} ConMeans(i: nat, open: set<nat>, flags: set<nat>, c: Con, w: World)
      requires Shaped() && i < dim.Cells() && c in ConAt(i, open, flags) && open !! flags && w <= open
      ensures Tally(c.cells, w) == c.need <==> Tally(dim.Around(i), w + flags) == adj[i]
    {
      hide Dim.Around, Dim.Cells, Tally, Keep;
      KeepTally(dim.Around(i), open, w);
      TallyUnion(dim.Around(i), w, flags);
    }

    /** No number is forgotten and none is misread: an assignment to the hidden cells satisfies the kept constraints
        exactly when it fits every number that must be heeded. */
    lemma {:induction false} KeptFits(open: set<nat>, flags: set<nat>, w: World)
      requires Shaped() && open !! flags && w <= open
      ensures Sat(KeptUpto(dim.Cells(), open, flags), w) <==> FitsNumbers(w, open, flags)
    {
      hide Snapshot.ConAt, Snapshot.KeptUpto, Snapshot.Speaks, Dim.Around, Dim.Cells, Tally;
      var cons := KeptUpto(dim.Cells(), open, flags);
      if Sat(cons, w) {
        forall i: nat | i < dim.Cells() && Speaks(i, open, flags) ensures Tally(dim.Around(i), w + flags) == adj[i] {
          ConSpeaks(i, open, flags);
          var con := ConAt(i, open, flags)[0];
          KeptMember(dim.Cells(), open, flags, con);
          assert con in cons;
          ConMeans(i, open, flags, con, w);
        }
      }
      if FitsNumbers(w, open, flags) {
        forall con | con in cons ensures Tally(con.cells, w) == con.need {
          KeptMember(dim.Cells(), open, flags, con);
          var i: nat :| i < dim.Cells() && con in ConAt(i, open, flags);
          ConSpeaks(i, open, flags);
          ConMeans(i, open, flags, con, w);
        }
      }
    }

    lemma {:induction false} KeptComplete(w: World)
      requires Shaped() && w <= HiddenSet()
      ensures Sat(Kept(), w) <==> FitsNumbers(w, HiddenSet(), FlagSet())
    {
      hide Sat, Snapshot.FitsNumbers, Snapshot.KeptUpto, Dim.Cells;
      FlagsApart();
      KeptFits(HiddenSet(), FlagSet(), w);
    }

    lemma {:induction false} FlagsApart()
      requires Shaped()
      ensures HiddenSet() !! FlagSet()
    {
      hide Snapshot.HiddenUpto, Snapshot.FlagsUpto, Dim.Cells;
    }
  }

  // The 3x3 scans of one revealed number: flags around it, then hidden cells around it.

  lemma {:induction false} EmptyScan(d: Dim, r: int, c: int, s: set<nat>)
    ensures d.SquareUpto(r, c, 0) == [] && Tally([], s) == 0 && Keep([], s) == []
  {}

  method CountFlags(d: Dim, flagged: array<bool>, i: nat, ghost flags: set<nat>) returns (fl: nat)
    requires flagged.Length == d.Cells() && i < d.Cells()
    requires forall x: nat :: x < flagged.Length ==> (flagged[x] <==> x in flags)
    ensures fl == Tally(d.Around(i), flags)
  {
    hide Dim.SquareUpto, Tally, Keep, Dim.Cells;
    d.CellCoords(i);
    var r, c := d.Row(i), d.Col(i);
    EmptyScan(d, r, c, flags);
    ghost var scanned, k := d.SquareUpto(r, c, 0), 0;
    fl := 0;
    for dr := -1 to 2
      invariant k == 3 * (dr + 1) && scanned == d.SquareUpto(r, c, k)
      invariant fl == Tally(scanned, flags)
    {
      for dc := -1 to 2
        invariant k == 3 * (dr + 1) + (dc + 1) && scanned == d.SquareUpto(r, c, k)
        invariant fl == Tally(scanned, flags)
      {
        OffsetStep(d, r, c, dr, dc);
        if d.InB(r + dr, c + dc) {
          d.IdxRange(r + dr, c + dc);
          var j := d.Idx(r + dr, c + dc);
          TallySnoc(scanned, j, flags);
          if flagged[j] { fl := fl + 1; }
          scanned := scanned + [j];
        }
        k := k + 1;
      }
    }
  }

  method CollectHidden(d: Dim, hidden: array<bool>, i: nat, ghost open: set<nat>) returns (cells: seq<nat>)
    requires hidden.Length == d.Cells() && i < d.Cells()
    requires forall x: nat :: x < hidden.Length ==> (hidden[x] <==> x in open)
    ensures cells == Keep(d.Around(i), open)
  {
    hide Dim.SquareUpto, Tally, Keep, Dim.Cells;
    d.CellCoords(i);
    var r, c := d.Row(i), d.Col(i);
    EmptyScan(d, r, c, open);
    ghost var scanned, k := d.SquareUpto(r, c, 0), 0;
    cells := [];
    for dr := -1 to 2
      invariant k == 3 * (dr + 1) && scanned == d.SquareUpto(r, c, k)
      invariant cells == Keep(scanned, open)
    {
      for dc := -1 to 2
        invariant k == 3 * (dr + 1) + (dc + 1) && scanned == d.SquareUpto(r, c, k)
        invariant cells == Keep(scanned, open)
      {
        OffsetStep(d, r, c, dr, dc);
        if d.InB(r + dr, c + dc) {
          d.IdxRange(r + dr, c + dc);
          var j := d.Idx(r + dr, c + dc);
          KeepSnoc(scanned, j, open);
          if hidden[j] { cells := cells + [j]; }
          scanned := scanned + [j];
        }
        k := k + 1;
      }
    }
  }

  lemma {:induction false} HiddenStep(b: Snapshot, i: nat)
    requires b.Shaped() && i < b.dim.Cells()
    ensures |b.HiddenUpto(0)| == 0
    ensures |b.HiddenUpto(i + 1)| == |b.HiddenUpto(i)| + (if b.Hidden(i) then 1 else 0)
  {}

  method Visibility(b: Snapshot) returns (hidden: array<bool>, flagged: array<bool>, nHidden: nat)
    requires b.Shaped()
    ensures fresh(hidden) && fresh(flagged) && hidden.Length == flagged.Length == b.dim.Cells()
    ensures forall x :: 0 <= x < hidden.Length ==> (hidden[x] <==> !b.revealed[x] && b.mark[x] != 1)
    ensures forall x :: 0 <= x < flagged.Length ==> (flagged[x] <==> b.mark[x] == 1)
    ensures nHidden == |b.HiddenSet()|
  {
    hide Snapshot.HiddenUpto;
    var n := b.dim.Cells();
    hidden := new bool[n](_ => false);
    flagged := new bool[n](_ => false);
    nHidden := 0;
    assert b.HiddenUpto(0) == {};
    for i := 0 to n
      invariant forall x :: 0 <= x < i ==> (hidden[x] <==> b.Hidden(x)) && (flagged[x] <==> b.mark[x] == 1)
      invariant nHidden == |b.HiddenUpto(i)|
    {
      HiddenStep(b, i);
      hidden[i] := !b.revealed[i] && b.mark[i] != 1;
      flagged[i] := b.mark[i] == 1;
      if hidden[i] { nHidden := nHidden + 1; }
    }
  }

  // The constraint of cell i: none, or one.
  method OneConstraint(b: Snapshot, hidden: array<bool>, flagged: array<bool>, i: nat, ghost open: set<nat>,
                       ghost flags: set<nat>) returns (con: seq<Con>)
    requires b.Shaped() && hidden.Length == flagged.Length == b.dim.Cells() && i < b.dim.Cells()
    requires forall x: nat :: x < hidden.Length ==> (hidden[x] <==> x in open)
    requires forall x: nat :: x < flagged.Length ==> (flagged[x] <==> x in flags)
    ensures con == b.ConAt(i, open, flags) && (con != [] <==> b.Speaks(i, open, flags))
    ensures forall c :: c in con ==>
              && c.need == b.adj[i] - Tally(b.dim.Around(i), flags)
              && forall x :: x in c.cells <==> x in b.dim.Around(i) && x in open
  {
    hide Keep, Snapshot.Speaks, Dim.Around;
    b.ConSpeaks(i, open, flags);
    if !b.revealed[i] || b.mark[i] == 1 || b.mine[i] {
      return [];
    }
    var fl := CountFlags(b.dim, flagged, i, flags);
    var need := b.adj[i] as int - fl as int;
    var cells := CollectHidden(b.dim, hidden, i, open);
    if cells == [] || need < 0 || need > |cells| {
      return [];
    }
    return [Con(cells, need)];
  }

  method BuildConstraints(b: Snapshot, hidden: array<bool>, flagged: array<bool>, ghost open: set<nat>,
                          ghost flags: set<nat>) returns (cons: seq<Con>)
    requires b.Shaped() && hidden.Length == flagged.Length == b.dim.Cells()
    requires forall x: nat :: x < hidden.Length ==> (hidden[x] <==> x in open)
    requires forall x: nat :: x < flagged.Length ==> (flagged[x] <==> x in flags)
    ensures cons == b.KeptUpto(b.dim.Cells(), open, flags)
    ensures open !! flags ==> forall w: World :: w <= open ==> (Sat(cons, w) <==> b.FitsNumbers(w, open, flags))
  {
    hide Sat, Snapshot.FitsNumbers;
    cons := [];
    for i := 0 to hidden.Length
      invariant cons == b.KeptUpto(i, open, flags)
    {
      var con := OneConstraint(b, hidden, flagged, i, open, flags);
      cons := cons + con;
    }
    if open !! flags {
      forall w: World | w <= open ensures Sat(cons, w) <==> b.FitsNumbers(w, open, flags) {
        b.KeptFits(open, flags, w);
      }
    }
  }
}
