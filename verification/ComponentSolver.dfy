/** comp_solve: exact solution counts of one frontier component. */
module ComponentSolver {
  import opened Tallies
  import opened Placements
  import opened SearchSpec
  import opened Search
  import opened Effort

  // What stays fixed during one search.
  datatype Problem = Problem(cells: seq<nat>, cons: seq<Con>, member: seq<seq<nat>>, order: seq<nat>) {

    ghost predicate Valid() {
      && WellFormed(cells, cons) && cells != []
      && |member| == |cells| && |order| == |cells|
      && (forall li :: 0 <= li < |cells| ==> MemberOf(cells, cons, li, member[li]))
      && Arrangement(order, |cells|)
    }

    // The cells in search order.
    ghost function Xs(): seq<nat>
      requires Valid()
    {
      Ordered(cells, order)
    }

    lemma {:induction false} XsFacts()
      requires Valid()
      ensures Distinct(Xs()) && Elems(Xs()) == Elems(cells)
    {
      OrderedFacts(cells, order);
    }
  }

  // A snapshot of the search arrays.
  datatype State = State(depth: nat, sp: seq<int>, sv: seq<int>, cv: seq<int>,
                         value: seq<int>, mines: seq<int>, left: seq<int>, s: seq<nat>, t: seq<nat>)

  // Frames below the top hold an applied value; only the top one may be fresh.
  ghost predicate Frames(order: seq<nat>, st: State) {
    var m := |order|;
    && |st.sp| == m + 1 && |st.sv| == m + 1 && |st.cv| == m + 1 && st.depth <= m + 1
    && (forall l :: 0 <= l < st.depth - 1 ==>
         st.sp[l] == order[l] && (st.cv[l] == 0 || st.cv[l] == 1) && st.sv[l] == st.cv[l] + 1)
    && (st.depth > 0 ==> TopFrame(order, st.depth - 1, st.sp[st.depth - 1], st.sv[st.depth - 1], st.cv[st.depth - 1]))
  }

  ghost predicate TopFrame(order: seq<nat>, top: nat, sp: int, sv: int, cv: int) {
    if sp == -1 then sv == 0 && cv == -1
    else
      && top < |order| && sp == order[top]
      && (if cv == -1 then 0 <= sv <= 2 else (cv == 0 || cv == 1) && sv == cv + 1)
  }

  // Values applied below the top frame, and including the top frame's own value.
  ghost function PathOf(st: State): seq<int>
    requires st.depth <= |st.cv|
  {
    if st.depth == 0 then [] else st.cv[..st.depth - 1]
  }

  ghost function FullOf(st: State): seq<int>
    requires st.depth <= |st.cv|
  {
    if st.depth == 0 then []
    else if st.cv[st.depth - 1] == -1 then st.cv[..st.depth - 1]
    else st.cv[..st.depth]
  }

  ghost function NextOf(st: State): int
    requires st.depth <= |st.sv|
  {
    if st.depth == 0 then 2 else st.sv[st.depth - 1]
  }

  // The assignment array holds the applied values and -1 elsewhere.
  ghost predicate Values(order: seq<nat>, full: seq<int>, value: seq<int>) {
    && |value| == |order| && |full| <= |order|
    && (forall l :: 0 <= l < |order| ==> order[l] < |value|)
    && forall l :: 0 <= l < |order| ==> value[order[l]] == if l < |full| then full[l] else -1
  }

  ghost predicate Inv(pb: Problem, st: State) {
    && pb.Valid() && Frames(pb.order, st)
    && IsPath(pb.Xs(), PathOf(st)) && IsPath(pb.Xs(), FullOf(st))
    && (st.depth > 0 ==>
         && Counters(pb.cons, pb.Xs(), FullOf(st), st.mines, st.left)
         && Room(pb.cons, pb.Xs(), FullOf(st))
         && Values(pb.order, FullOf(st), st.value))
    && Tables(pb.cells, st.s, st.t, Seen(pb.cons, pb.Xs(), PathOf(st), NextOf(st)))
  }

  // Nodes the search still has to count.
  ghost function ToCount(pb: Problem, st: State): nat
    requires pb.Valid() && st.depth <= |st.cv| && st.depth <= |st.sv| && |PathOf(st)| <= |pb.cells|
  {
    Remaining(pb.cons, pb.Xs(), PathOf(st), NextOf(st))
  }

  // Loop steps still to come.
  ghost function Work(order: seq<nat>, st: State): int
    requires Frames(order, st)
  {
    if st.depth == 0 then 0
    else
      var top := st.depth - 1;
      Waiting(PathOf(st), |order|) + TopWork(order, top, st.sp[top], st.sv[top], st.cv[top])
  }

  ghost function TopWork(order: seq<nat>, top: nat, sp: int, sv: int, cv: int): int
    requires top <= |order|
  {
    if sp == -1 || top == |order| then Steps(|order| - top)
    else (if cv == -1 then 1 else 2) + (2 - sv) * (2 + Steps(|order| - top - 1))
  }

  lemma {:induction false} StepsPositive(d: nat)
    ensures Steps(d) >= 1
  {}

  lemma {:induction false} WaitingNonneg(path: seq<int>, m: nat)
    requires |path| <= m && forall l :: 0 <= l < |path| ==> path[l] == 0 || path[l] == 1
    ensures Waiting(path, m) >= 0
  {
    if path != [] { WaitingNonneg(path[..|path| - 1], m); }
  }

  lemma {:induction false} WaitingNone(m: nat)
    ensures Waiting([], m) == 0
  {}

  lemma {:induction false} WaitingSnoc(path: seq<int>, v: int, m: nat)
    requires |path| < m
    ensures Waiting(path + [v], m) == Waiting(path, m) + 2 + (1 - v) * (2 + Steps(m - |path| - 1))
  {
    assert (path + [v])[..|path|] == path;
  }

  // ---- one lemma per kind of loop step ----

  lemma {:induction false} PickKeeps(pb: Problem, st: State, st': State)
    requires Inv(pb, st) && 0 < st.depth <= |pb.cells| && st.sp[st.depth - 1] == -1
    requires st' == st.(sp := st.sp[st.depth - 1 := pb.order[st.depth - 1]])
    ensures Inv(pb, st') && Work(pb.order, st') < Work(pb.order, st) && ToCount(pb, st') == ToCount(pb, st)
  {
    assert PathOf(st') == PathOf(st) && FullOf(st') == FullOf(st);
    StepsPositive(|pb.cells| - (st.depth - 1));
  }

  ghost predicate Popped(st: State, st': State) {
    && 0 < st.depth <= |st.cv| && |st.sp| == |st.sv| == |st.cv|
    && st.sp[st.depth - 1] != -1 && st.cv[st.depth - 1] == -1 && st.sv[st.depth - 1] == 2
    && st' == st.(depth := st.depth - 1)
  }

  // What a step may rely on before it looks at the top frame.
  lemma {:induction false} Shapes(pb: Problem, st: State)
    requires Inv(pb, st) && st.depth > 0
    ensures pb.Valid() && |st.sp| == |st.sv| == |st.cv| == |pb.cells| + 1 && st.depth <= |pb.cells| + 1
    ensures |pb.order| == |pb.member| == |st.value| == |pb.cells| && |st.mines| == |st.left| == |pb.cons|
    ensures var top := st.depth - 1;
      if st.sp[top] == -1 then st.sv[top] == 0 && st.cv[top] == -1
      else
        && top < |pb.cells| && st.sp[top] == pb.order[top] && pb.order[top] < |pb.cells|
        && 0 <= st.sv[top] <= 2 && st.cv[top] <= 1
  {}

  // What a pop leaves on the paths.
  lemma {:induction false} PopPaths(order: seq<nat>, st: State, st': State)
    requires Frames(order, st) && Popped(st, st')
    ensures Frames(order, st') && FullOf(st') == FullOf(st) == PathOf(st)
    ensures st.depth > 1 ==> var v := st.cv[st.depth - 2];
      && PathOf(st) == PathOf(st') + [v] && NextOf(st') == v + 1 && NextOf(st) == 2 && |PathOf(st)| < |order|
    ensures st.depth == 1 ==> PathOf(st) == [] == PathOf(st') && NextOf(st) == 2 == NextOf(st')
  {}

  lemma {:induction false} PopWork(order: seq<nat>, st: State, st': State)
    requires Frames(order, st) && Popped(st, st')
    ensures Frames(order, st') && Work(order, st') < Work(order, st)
  {
    hide Waiting;
    PopPaths(order, st, st');
    WaitingNone(|order|);
    if st.depth > 1 { WaitingSnoc(PathOf(st'), st.cv[st.depth - 2], |order|); }
  }

  lemma {:induction false} PopKeeps(pb: Problem, st: State, st': State)
    requires Inv(pb, st) && Popped(st, st')
    ensures Inv(pb, st') && Work(pb.order, st') < Work(pb.order, st)
  {
    hide Tables, Counters, Room, Seen, Work, Waiting, IsPath, PathOf, FullOf, NextOf, Values;
    PopPaths(pb.order, st, st');
    PopWork(pb.order, st, st');
    PopIsPath(pb, st, st');
    if st.depth > 1 { SeenPop(pb.cons, pb.Xs(), PathOf(st'), st.cv[st.depth - 2]); }
  }

  lemma {:induction false} PopCounts(pb: Problem, st: State, st': State)
    requires Inv(pb, st) && Inv(pb, st') && Popped(st, st')
    ensures ToCount(pb, st') == ToCount(pb, st)
  {
    hide Tables, Counters, Room, Seen, Values, IsPath, Remaining;
    PopPaths(pb.order, st, st');
    if st.depth > 1 {
      RemainingPop(pb.cons, pb.Xs(), PathOf(st'), st.cv[st.depth - 2]);
    }
  }

  lemma {:induction false} PopIsPath(pb: Problem, st: State, st': State)
    requires pb.Valid() && Frames(pb.order, st) && Popped(st, st')
    requires IsPath(pb.Xs(), PathOf(st)) && IsPath(pb.Xs(), FullOf(st))
    ensures st'.depth <= |st'.cv| && IsPath(pb.Xs(), PathOf(st')) && IsPath(pb.Xs(), FullOf(st'))
  {
    hide Arrangement, MemberOf, WellFormed;
  }

  lemma {:induction false} SkipKeeps(pb: Problem, st: State, st': State, bad: nat)
    requires Inv(pb, st) && st.depth > 0
    requires var top := st.depth - 1;
      && st.sp[top] != -1 && st.cv[top] == -1 && st.sv[top] < 2
      && bad in pb.member[pb.order[top]]
      && bad < |pb.cons|
      && !(0 <= pb.cons[bad].need - (st.mines[bad] + st.sv[top]) <= st.left[bad] - 1)
      && st' == st.(sv := st.sv[top := st.sv[top] + 1])
    ensures Inv(pb, st') && Work(pb.order, st') < Work(pb.order, st)
  {
    hide Tables, Counters, Room, MemberOf;
    var top := st.depth - 1;
    var li := pb.order[top];
    pb.XsFacts();
    assert PathOf(st') == PathOf(st) == FullOf(st) == FullOf(st');
    BranchPruned(pb.cells, pb.cons, pb.Xs(), PathOf(st), st.sv[top], li, pb.member[li], st.mines, st.left, bad);
    SkipWork(2 - st.sv[top], 2 + Steps(|pb.order| - top - 1));
  }

  lemma {:induction false} SkipCounts(pb: Problem, st: State, st': State, bad: nat)
    requires Inv(pb, st) && Inv(pb, st') && st.depth > 0
    requires var top := st.depth - 1;
      && st.sp[top] != -1 && st.cv[top] == -1 && st.sv[top] < 2
      && bad in pb.member[pb.order[top]]
      && bad < |pb.cons|
      && !(0 <= pb.cons[bad].need - (st.mines[bad] + st.sv[top]) <= st.left[bad] - 1)
      && st' == st.(sv := st.sv[top := st.sv[top] + 1])
    ensures ToCount(pb, st') == ToCount(pb, st)
  {
    hide Tables, Seen, MemberOf, Remaining, Values;
    var top := st.depth - 1;
    var li := pb.order[top];
    pb.XsFacts();
    assert PathOf(st') == PathOf(st) == FullOf(st);
    BranchFull(pb.cells, pb.cons, pb.Xs(), PathOf(st), st.sv[top], li, pb.member[li], st.mines, st.left, bad);
    RemainingSkip(pb.cons, pb.Xs(), PathOf(st), st.sv[top]);
  }

  lemma {:induction false} SkipWork(k: int, w: int)
    requires w > 0
    ensures (k - 1) * w < k * w
  {}

  ghost predicate Applied(order: seq<nat>, st: State, st': State) {
    var top := st.depth - 1;
    && 0 < st.depth <= |order| && |st.sp| == |st.sv| == |st.cv| == |order| + 1
    && order[top] < |st.value|
    && st.sp[top] != -1 && st.cv[top] == -1 && (st.sv[top] == 0 || st.sv[top] == 1)
    && st'.depth == st.depth + 1
    && st'.sp == st.sp[top + 1 := -1]
    && st'.sv == st.sv[top := st.sv[top] + 1][top + 1 := 0]
    && st'.cv == st.cv[top := st.sv[top]][top + 1 := -1]
    && st'.value == st.value[order[top] := st.sv[top]]
    && st'.s == st.s && st'.t == st.t
  }

  lemma {:induction false} ApplyFrames(order: seq<nat>, st: State, st': State)
    requires Frames(order, st) && Applied(order, st, st')
    ensures Frames(order, st')
    ensures FullOf(st) == PathOf(st)
    ensures FullOf(st') == PathOf(st') == PathOf(st) + [st.sv[st.depth - 1]]
    ensures NextOf(st') == 0 && NextOf(st) == st.sv[st.depth - 1]
  {}

  lemma {:induction false} ApplyLess(order: seq<nat>, st: State, st': State)
    requires Frames(order, st) && Applied(order, st, st')
    ensures Frames(order, st') && Work(order, st') < Work(order, st)
  {
    hide Frames, PathOf, FullOf, NextOf, Waiting;
    ApplyFrames(order, st, st');
    TopsOf(order, st);
    TopsOf(order, st');
    var top := st.depth - 1;
    WaitingSnoc(PathOf(st), st.sv[top], |order|);
    ApplyWork(st.sv[top], Steps(|order| - top - 1));
  }

  // The work of the top frame in either of its states.
  lemma {:induction false} TopsOf(order: seq<nat>, st: State)
    requires Frames(order, st) && st.depth > 0
    ensures st.depth <= |order| + 1 && |st.sp| == |st.sv| == |st.cv| == |order| + 1
    ensures st.sp[st.depth - 1] != -1 ==> st.depth <= |order|
    ensures |PathOf(st)| == st.depth - 1
  {}

  lemma {:induction false} ApplyValues(order: seq<nat>, path: seq<int>, v: int, value: seq<int>)
    requires |path| < |order| && Arrangement(order, |order|) && Values(order, path, value)
    ensures Values(order, path + [v], value[order[|path|] := v])
  {}

  lemma {:induction false} ApplyKeeps(pb: Problem, st: State, st': State)
    requires Inv(pb, st) && Applied(pb.order, st, st')
    requires var v := st.sv[st.depth - 1]; var members := pb.member[pb.order[st.depth - 1]];
      && (forall ci :: ci in members ==>
           ci < |pb.cons| && 0 <= pb.cons[ci].need - (st.mines[ci] + v) <= st.left[ci] - 1)
      && |st'.mines| == |st.mines| && |st'.left| == |st.left|
      && (forall ci: nat :: ci < |pb.cons| ==>
           st'.mines[ci] == st.mines[ci] + (if ci in members then v else 0)
           && st'.left[ci] == st.left[ci] + (if ci in members then -1 else 0))
    ensures Inv(pb, st') && Work(pb.order, st') < Work(pb.order, st)
  {
    var v := st.sv[st.depth - 1];
    var li := pb.order[st.depth - 1];
    var path := PathOf(st);
    hide Tables, Tally, MemberOf, Work, Frames, Seen, Room, Arrangement;
    pb.XsFacts();
    ApplyFrames(pb.order, st, st');
    ApplyLess(pb.order, st, st');
    CountersApply(pb.cells, pb.cons, pb.Xs(), path, v, li, pb.member[li], st.mines, st.left, st'.mines, st'.left);
    RoomApply(pb.cells, pb.cons, pb.Xs(), path, v, li, pb.member[li], st.mines, st.left);
    SeenPush(pb.cons, pb.Xs(), path, v);
    ApplyValues(pb.order, path, v, st.value);
  }

  lemma {:induction false} ApplyCounts(pb: Problem, st: State, st': State)
    requires Inv(pb, st) && Inv(pb, st') && Applied(pb.order, st, st')
    ensures ToCount(pb, st) == ToCount(pb, st') + 1
  {
    hide Tables, Seen, Counters, Remaining, Values, Work, Room, IsPath;
    ApplyFrames(pb.order, st, st');
    RemainingPush(pb.cons, pb.Xs(), PathOf(st), st.sv[st.depth - 1]);
  }

  lemma {:induction false} ApplyWork(v: int, w: int)
    ensures 1 + (2 - v) * (2 + w) == 3 + (1 - v) * (2 + w) + w
  {}

  lemma {:induction false} UndoKeeps(pb: Problem, st: State, st': State)
    requires Inv(pb, st) && st.depth > 0
    requires var top := st.depth - 1; var v := st.cv[top];
      && st.sp[top] != -1 && v != -1
      && var li := pb.order[top];
      && |st'.mines| == |st.mines| && |st'.left| == |st.left|
      && (forall ci: nat :: ci < |pb.cons| ==>
           st'.mines[ci] == st.mines[ci] + (if ci in pb.member[li] then -v else 0)
           && st'.left[ci] == st.left[ci] + (if ci in pb.member[li] then 1 else 0))
      && st' == st.(cv := st.cv[top := -1], value := st.value[li := -1], mines := st'.mines, left := st'.left)
    ensures Inv(pb, st') && Work(pb.order, st') < Work(pb.order, st)
  {
    hide Tables, Seen, Tally, MemberOf;
    var top := st.depth - 1;
    var v := st.cv[top];
    var li := pb.order[top];
    var path := PathOf(st);
    pb.XsFacts();
    assert FullOf(st) == path + [v];
    assert PathOf(st') == path == FullOf(st');
    CountersApply(pb.cells, pb.cons, pb.Xs(), path, v, li, pb.member[li], st'.mines, st'.left, st.mines, st.left);
    RoomUndo(pb.cons, pb.Xs(), path, v);
  }

  lemma {:induction false} UndoCounts(pb: Problem, st: State, st': State)
    requires Inv(pb, st) && Inv(pb, st') && st.depth > 0 && st.sp == st'.sp && st.sv == st'.sv && st.depth == st'.depth
    requires st'.cv == st.cv[st.depth - 1 := -1]
    ensures ToCount(pb, st') == ToCount(pb, st)
  {
    hide Tables, Seen, Counters, Remaining, Values, Room, IsPath;
    assert PathOf(st') == PathOf(st);
  }

  // At a leaf the assignment array is the indicator of the applied mines.
  lemma {:induction false} LeafValues(pb: Problem, full: seq<int>, value: seq<int>)
    requires pb.Valid() && Values(pb.order, full, value) && |full| == |pb.order|
    ensures forall li :: 0 <= li < |pb.cells| ==> (value[li] == 1 <==> pb.cells[li] in Ones(pb.Xs(), full))
  {
    ArrangementCovers(pb.order, |pb.cells|);
    forall li | 0 <= li < |pb.cells| ensures value[li] == 1 <==> pb.cells[li] in Ones(pb.Xs(), full) {
      assert li in pb.order;
      var l :| 0 <= l < |pb.order| && pb.order[l] == li;
      assert value[li] == full[l] && pb.Xs()[l] == pb.cells[li];
      if pb.cells[li] in Ones(pb.Xs(), full) {
        var l' :| 0 <= l' < |full| && full[l'] == 1 && pb.Xs()[l'] == pb.cells[li];
        assert pb.order[l'] == li;
      }
    }
  }

  lemma {:induction false} LeafReady(pb: Problem, st: State)
    requires Inv(pb, st) && st.depth == |pb.cells| + 1
    ensures pb.Valid() && |PathOf(st)| <= |FullOf(st)| <= |pb.cells|
    ensures Tables(pb.cells, st.s, st.t, Seen(pb.cons, pb.Xs(), PathOf(st), 0))
    ensures var ones := Ones(pb.Xs(), FullOf(st));
      && ones <= Elems(pb.cells)
      && ones !in Seen(pb.cons, pb.Xs(), PathOf(st), 0)
      && |st.value| == |pb.cells|
      && forall li :: 0 <= li < |pb.cells| ==> (st.value[li] == 1 <==> pb.cells[li] in ones)
  {
    hide Tables, Counters, Work, Arrangement, MemberOf;
    var path := st.cv[..st.depth - 2];
    var v := st.cv[st.depth - 2];
    pb.XsFacts();
    assert FullOf(st) == PathOf(st) == path + [v];
    LeafValues(pb, FullOf(st), st.value);
    Leaf(pb.cons, pb.Xs(), FullOf(st));
    SeenLeaf(pb.cons, pb.Xs(), path, v);
    SeenPush(pb.cons, pb.Xs(), path, v);
  }

  ghost predicate Counted(order: seq<nat>, st: State, st': State) {
    order != [] && st.depth == |order| + 1 && st' == st.(depth := st.depth - 1, s := st'.s, t := st'.t)
  }

  // What leaving a leaf does to the paths.
  lemma {:induction false} LeafFrames(order: seq<nat>, st: State, st': State)
    requires Frames(order, st) && Counted(order, st, st')
    ensures Frames(order, st') && FullOf(st') == FullOf(st) == PathOf(st)
    ensures var v := st.cv[st.depth - 2];
      && (v == 0 || v == 1) && PathOf(st) == PathOf(st') + [v] && |PathOf(st')| + 1 == |order|
      && NextOf(st) == 0 && NextOf(st') == v + 1
  {}

  lemma {:induction false} LeafLess(order: seq<nat>, st: State, st': State)
    requires Frames(order, st) && Counted(order, st, st')
    ensures Frames(order, st') && Work(order, st') < Work(order, st)
  {
    hide Waiting;
    LeafFrames(order, st, st');
    WaitingSnoc(PathOf(st'), st.cv[st.depth - 2], |order|);
  }

  lemma {:induction false} LeafKeeps(pb: Problem, st: State, st': State)
    requires Inv(pb, st) && Counted(pb.order, st, st')
    requires Tables(pb.cells, st'.s, st'.t, Seen(pb.cons, pb.Xs(), PathOf(st), 0) + {Ones(pb.Xs(), FullOf(st))})
    ensures Inv(pb, st') && Work(pb.order, st') < Work(pb.order, st)
  {
    hide Tables, Counters, Room, Seen, Work, Waiting, PathOf, FullOf, NextOf, Values, Frames, Ones;
    pb.XsFacts();
    LeafFrames(pb.order, st, st');
    LeafLess(pb.order, st, st');
    var v := st.cv[st.depth - 2];
    assert PathOf(st') == PathOf(st)[..|PathOf(st')|];
    assert IsPath(pb.Xs(), PathOf(st'));
    SeenLeaf(pb.cons, pb.Xs(), PathOf(st'), v);
    SeenPush(pb.cons, pb.Xs(), PathOf(st'), v);
  }

  lemma {:induction false} LeafCounts(pb: Problem, st: State, st': State)
    requires Inv(pb, st) && Inv(pb, st') && Counted(pb.order, st, st')
    ensures ToCount(pb, st) == ToCount(pb, st') + 1
  {
    hide Tables, Seen, Counters, Remaining, Values, Room, IsPath, PathOf, NextOf, FullOf, Frames;
    LeafFrames(pb.order, st, st');
    RemainingLeaf(pb.cons, pb.Xs(), PathOf(st'), st.cv[st.depth - 2]);
  }

  lemma {:induction false} TallyFull(xs: seq<nat>, s: set<nat>)
    requires Elems(xs) <= s
    ensures Tally(xs, s) == |xs|
  {
    if xs != [] {
      assert xs[0] in Elems(xs);
      assert Elems(xs[1..]) <= Elems(xs);
      TallyFull(xs[1..], s);
    }
  }

  // The arrays before the first step.
  ghost predicate Started(pb: Problem, st: State) {
    var m := |pb.cells|;
    && st.depth == 1
    && |st.sp| == m + 1 && |st.sv| == m + 1 && |st.cv| == m + 1
    && st.sp[0] == -1 && st.sv[0] == 0 && st.cv[0] == -1
    && st.value == seq(m, _ => -1)
    && |st.mines| == |pb.cons| && |st.left| == |pb.cons|
    && (forall ci :: 0 <= ci < |pb.cons| ==> st.mines[ci] == 0 && st.left[ci] == |pb.cons[ci].cells|)
    && |st.s| == m + 1 && (forall k :: 0 <= k <= m ==> st.s[k] == 0)
    && |st.t| == m * (m + 1) && (forall k :: 0 <= k < m * (m + 1) ==> st.t[k] == 0)
  }

  lemma {:induction false} StartKeeps(pb: Problem, st: State)
    requires pb.Valid() && Started(pb, st)
    ensures Inv(pb, st) && ToCount(pb, st) == Nodes(pb.cons, pb.Xs(), [])
  {
    var xs := pb.Xs();
    pb.XsFacts();
    assert PathOf(st) == [] == FullOf(st);
    assert Open(xs, []) == Elems(xs) && Ones(xs, []) == {};
    forall c | c in pb.cons ensures Tally(c.cells, {}) == 0 && Tally(c.cells, Elems(xs)) == |c.cells| {
      TallyZero(c.cells, {});
      TallyFull(c.cells, Elems(xs));
    }
    forall ci | 0 <= ci < |pb.cons|
      ensures st.mines[ci] == Tally(pb.cons[ci].cells, {}) && st.left[ci] == Tally(pb.cons[ci].cells, Elems(xs))
    {
      assert pb.cons[ci] in pb.cons;
    }
    SeenStart(pb.cons, xs);
    RemainingStart(pb.cons, xs);
    forall k: nat ensures |OfSize({}, k)| == 0 {
      assert OfSize({}, k) == {};
    }
    forall li: nat, k: nat | li < |pb.cells| && k <= |pb.cells|
      ensures At(|pb.cells|, li, k) < |st.t| && |OfSizeWith({}, pb.cells[li], k)| == 0
    {
      AtRange(|pb.cells|, li, k);
      assert OfSizeWith({}, pb.cells[li], k) == {};
    }
  }

  // The exact counts the search is for.
  ghost predicate Exact(cells: seq<nat>, cons: seq<Con>, s: seq<nat>, t: seq<nat>) {
    var m := |cells|;
    && |s| == m + 1
    && (forall k: nat :: k <= m ==> s[k] == N(Elems(cells), cons, k))
    && forall li: nat, k: nat :: li < m && k <= m ==>
         At(m, li, k) < |t| && t[At(m, li, k)] == N(Elems(cells), cons + [MineAt(cells[li])], k)
  }

  lemma {:induction false} FinishS(pb: Problem, st: State, k: nat)
    requires Inv(pb, st) && st.depth == 0 && k <= |pb.cells|
    ensures k < |st.s| && st.s[k] == N(Elems(pb.cells), pb.cons, k)
  {
    pb.XsFacts();
    SeenAll(pb.cons, pb.Xs(), k);
  }

  lemma {:induction false} FinishT(pb: Problem, st: State, li: nat, k: nat)
    requires Inv(pb, st) && st.depth == 0 && k <= |pb.cells| && li < |pb.cells|
    ensures var i := At(|pb.cells|, li, k);
      i < |st.t| && st.t[i] == N(Elems(pb.cells), pb.cons + [MineAt(pb.cells[li])], k)
  {
    pb.XsFacts();
    SeenAll(pb.cons, pb.Xs(), k);
    assert RowT(|pb.cells|, st.t, li, pb.cells[li], Seen(pb.cons, pb.Xs(), [], 2));
  }

  lemma {:induction false} FinishExact(pb: Problem, st: State)
    requires Inv(pb, st) && st.depth == 0
    ensures Exact(pb.cells, pb.cons, st.s, st.t)
  {
    forall k: nat | k <= |pb.cells| ensures k < |st.s| && st.s[k] == N(Elems(pb.cells), pb.cons, k) {
      FinishS(pb, st, k);
    }
    forall li: nat, k: nat | li < |pb.cells| && k <= |pb.cells|
      ensures var i := At(|pb.cells|, li, k);
        i < |st.t| && st.t[i] == N(Elems(pb.cells), pb.cons + [MineAt(pb.cells[li])], k)
    {
      FinishT(pb, st, li, k);
    }
  }

  lemma {:induction false} ElemsEmpty(xs: seq<nat>)
    ensures Elems(xs) == {} <==> xs == []
  {
    if xs != [] { assert xs[0] in Elems(xs); }
  }

  lemma {:induction false} EmptyExact(cells: seq<nat>, cons: seq<Con>)
    requires WellFormed(cells, cons) && cells == []
    ensures Exact(cells, cons, [1], [0])
  {
    assert Elems(cells) == {};
    forall c ensures c !in cons {
      ElemsEmpty(c.cells);
    }
    forall w: World | w <= {} ensures w == {} {}
    assert Worlds({}, cons, 0) == {{}};
  }

  lemma {:induction false} WorkNonneg(pb: Problem, st: State)
    requires Inv(pb, st)
    ensures Work(pb.order, st) >= 0
  {
    if st.depth > 0 {
      WaitingNonneg(PathOf(st), |pb.order|);
      var top := st.depth - 1;
      if st.sp[top] != -1 { SkipNonneg(2 - st.sv[top], 2 + Steps(|pb.order| - top - 1)); }
    }
  }

  lemma {:induction false} SkipNonneg(k: int, w: int)
    requires k >= 0 && w >= 0
    ensures k * w >= 0
  {}

  // The arrays and counters of one running search.
  class Searcher {
    const cells: seq<nat>
    const cons: seq<Con>
    const member: seq<seq<nat>>
    const order: array<nat>
    const stackP: array<int>
    const stackV: array<int>
    const curV: array<int>
    const value: array<int>
    const mines: array<int>
    const left: array<int>
    const S: array<nat>
    const T: array<nat>
    var depth: nat
    var nodes: nat

    ghost function View(): State
      reads this, stackP, stackV, curV, value, mines, left, S, T
    {
      State(depth, stackP[..], stackV[..], curV[..], value[..], mines[..], left[..], S[..], T[..])
    }

    ghost function Fixed(): Problem
      reads order
    {
      Problem.Problem(cells, cons, member, order[..])
    }

    ghost predicate Shape() {
      && stackP != stackV && stackP != curV && stackP != value && stackP != mines && stackP != left
      && stackV != curV && stackV != value && stackV != mines && stackV != left
      && curV != value && curV != mines && curV != left && value != mines && value != left && mines != left
      && S != T && order as object != S && order as object != T
    }

    constructor (cells: seq<nat>, cons: seq<Con>, member: seq<seq<nat>>, order: array<nat>)
      ensures this.cells == cells && this.cons == cons && this.member == member && this.order == order
      ensures fresh(stackP) && fresh(stackV) && fresh(curV) && fresh(value) && fresh(mines) && fresh(left)
      ensures fresh(S) && fresh(T) && Shape() && nodes == 0
      ensures Started(Fixed(), View())
    {
      this.cells := cells;
      this.cons := cons;
      this.member := member;
      this.order := order;
      value := new int[|cells|](_ => -1);
      mines := new int[|cons|](_ => 0);
      left := new int[|cons|](ci requires 0 <= ci < |cons| => |cons[ci].cells|);
      S := new nat[|cells| + 1](_ => 0);
      T := new nat[|cells| * (|cells| + 1)](_ => 0);
      stackP := new int[|cells| + 1](_ => -1);
      stackV := new int[|cells| + 1](_ => 0);
      curV := new int[|cells| + 1](_ => -1);
      depth := 1;
      nodes := 0;
    }

    // Heap effects of the single kinds of step, as updates of the snapshot.

    method Pick(top: nat)
      requires Shape() && top < stackP.Length && top < stackV.Length && top < curV.Length && top < order.Length
      requires stackV[top] == 0 && curV[top] == -1
      modifies stackP, stackV, curV
      ensures View() == old(View()).(sp := old(stackP[..])[top := order[top]])
    {
      ghost var was := View();
      stackP[top] := order[top];
      stackV[top] := 0;
      curV[top] := -1;
      assert stackV[..] == was.sv && curV[..] == was.cv;
    }

    method Apply(top: nat, pp: nat, v: int)
      requires Shape() && top + 1 < stackP.Length && top + 1 < stackV.Length && top + 1 < curV.Length
      requires pp < value.Length && pp < |member| && mines.Length == left.Length
      requires Distinct(member[pp]) && forall j :: 0 <= j < |member[pp]| ==> member[pp][j] < mines.Length
      modifies this, stackP, stackV, curV, value, mines, left
      ensures nodes == old(nodes) + 1
      ensures View() == State(old(depth) + 1, old(stackP[..])[top + 1 := -1],
                              old(stackV[..])[top := v + 1][top + 1 := 0], old(curV[..])[top := v][top + 1 := -1],
                              old(value[..])[pp := v], mines[..], left[..], old(S[..]), old(T[..]))
      ensures forall ci: nat :: ci < mines.Length ==>
        mines[ci] == old(mines[ci]) + (if ci in member[pp] then v else 0)
        && left[ci] == old(left[ci]) + (if ci in member[pp] then -1 else 0)
    {
      value[pp] := v;
      Adjust(member[pp], mines, left, v, -1);
      curV[top] := v;
      stackV[top] := v + 1;
      depth := depth + 1;
      stackP[top + 1] := -1;
      stackV[top + 1] := 0;
      curV[top + 1] := -1;
      nodes := nodes + 1;
    }

    method Undo(top: nat, pp: nat)
      requires Shape() && top < curV.Length
      requires pp < value.Length && pp < |member| && mines.Length == left.Length
      requires Distinct(member[pp]) && forall j :: 0 <= j < |member[pp]| ==> member[pp][j] < mines.Length
      modifies curV, value, mines, left
      ensures View() == old(View()).(cv := old(curV[..])[top := -1], value := old(value[..])[pp := -1],
                                     mines := mines[..], left := left[..])
      ensures forall ci: nat :: ci < mines.Length ==>
        mines[ci] == old(mines[ci]) + (if ci in member[pp] then -old(curV[top]) else 0)
        && left[ci] == old(left[ci]) + (if ci in member[pp] then 1 else 0)
    {
      var v := curV[top];
      Adjust(member[pp], mines, left, -v, 1);
      value[pp] := -1;
      curV[top] := -1;
    }

    ghost predicate Running()
      reads this, order, stackP, stackV, curV, value, mines, left, S, T
    {
      Shape() && Inv(Fixed(), View())
    }

    ghost function Ahead(): int
      reads this, order, stackP, stackV, curV, value, mines, left, S, T
      requires Running()
    {
      Work(order[..], View())
    }

    // Nodes still to be counted.
    ghost function Left(): nat
      reads this, order, stackP, stackV, curV, value, mines, left, S, T
      requires Running()
    {
      ToCount(Fixed(), View())
    }

    // Leaf: count the assignment.
    method StepLeaf()
      requires Running() && depth == |cells| + 1
      modifies this, S, T
      ensures Running() && Ahead() < old(Ahead()) && nodes + Left() == old(nodes + Left())
    {
      hide Inv, Work, ToCount, Tables, Seen;
      ghost var pb, was := Fixed(), View();
      Shapes(pb, was);
      LeafReady(pb, was);
      nodes := nodes + 1;
      CountLeaf(cells, value[..], S, T, Ones(pb.Xs(), FullOf(was)), Seen(pb.cons, pb.Xs(), PathOf(was), 0));
      depth := depth - 1;
      assert View() == was.(depth := was.depth - 1, s := S[..], t := T[..]);
      LeafKeeps(pb, was, View());
      LeafCounts(pb, was, View());
    }

    method StepPick()
      requires Running() && 0 < depth <= |cells| && stackP[depth - 1] == -1
      modifies stackP, stackV, curV
      ensures Running() && Ahead() < old(Ahead()) && nodes + Left() == old(nodes + Left())
    {
      hide Inv, Work, ToCount;
      ghost var was := View();
      Shapes(Fixed(), was);
      Pick(depth - 1);
      PickKeeps(Fixed(), was, View());
    }

    method StepTry()
      requires Running() && depth > 0 && stackP[depth - 1] != -1 && curV[depth - 1] == -1 && stackV[depth - 1] < 2
      modifies this, stackP, stackV, curV, value, mines, left
      ensures Running() && Ahead() < old(Ahead()) && nodes + Left() == old(nodes + Left())
    {
      hide Inv, Work, ToCount;
      ghost var pb, was := Fixed(), View();
      Shapes(pb, was);
      var top := depth - 1;
      var pp, v := stackP[top], stackV[top];
      MembersInRange(pb, pp);
      var ok, bad := Feasible(member[pp], cons, mines, left, v);
      if ok {
        StepApply(top, pp, v);
      } else {
        StepSkip(top, v, bad);
      }
    }

    // Apply a feasible value and go down one level.
    method StepApply(top: nat, pp: nat, v: int)
      requires Running() && depth == top + 1 <= |cells| && top < stackP.Length && top < curV.Length
      requires top < stackV.Length && stackP[top] == pp && curV[top] == -1 && stackV[top] == v < 2
      requires pp < |member| && mines.Length == left.Length == |cons|
      requires forall ci :: ci in member[pp] ==>
        ci < |cons| && 0 <= cons[ci].need - (mines[ci] + v) <= left[ci] - 1
      modifies this, stackP, stackV, curV, value, mines, left
      ensures Running() && Ahead() < old(Ahead()) && nodes + Left() == old(nodes + Left())
    {
      hide Inv, Work, ToCount;
      ghost var pb, was := Fixed(), View();
      Shapes(pb, was);
      MembersInRange(pb, pp);
      Apply(top, pp, v);
      assert Applied(pb.order, was, View());
      ApplyKeeps(pb, was, View());
      ApplyCounts(pb, was, View());
    }

    // Pass over an infeasible value.
    method StepSkip(top: nat, v: int, ghost bad: nat)
      requires Running() && depth == top + 1 && top < stackP.Length && top < curV.Length && top < stackV.Length
      requires stackP[top] != -1 && curV[top] == -1 && stackV[top] == v < 2
      requires 0 <= stackP[top] < |member| && mines.Length == left.Length == |cons| && bad in member[stackP[top]]
      requires bad < |cons| && !(0 <= cons[bad].need - (mines[bad] + v) <= left[bad] - 1)
      modifies stackV
      ensures Running() && Ahead() < old(Ahead()) && nodes + Left() == old(nodes + Left())
    {
      hide Inv, Work, ToCount;
      ghost var pb, was := Fixed(), View();
      Shapes(pb, was);
      stackV[top] := v + 1;
      assert View() == was.(sv := was.sv[top := v + 1]);
      SkipKeeps(pb, was, View(), bad);
      SkipCounts(pb, was, View(), bad);
    }

    method StepUndo()
      requires Running() && depth > 0 && stackP[depth - 1] != -1 && curV[depth - 1] != -1
      modifies curV, value, mines, left
      ensures Running() && Ahead() < old(Ahead()) && nodes + Left() == old(nodes + Left())
    {
      hide Inv, Work, ToCount;
      ghost var pb, was := Fixed(), View();
      Shapes(pb, was);
      var top := depth - 1;
      MembersInRange(pb, stackP[top]);
      Undo(top, stackP[top]);
      UndoKeeps(pb, was, View());
      UndoCounts(pb, was, View());
    }

    method StepPop()
      requires Running() && depth > 0 && stackP[depth - 1] != -1 && curV[depth - 1] == -1 && stackV[depth - 1] >= 2
      modifies this
      ensures Running() && Ahead() < old(Ahead()) && nodes + Left() == old(nodes + Left())
    {
      hide Inv, Work, ToCount;
      ghost var was := View();
      Shapes(Fixed(), was);
      depth := depth - 1;
      PopKeeps(Fixed(), was, View());
      PopCounts(Fixed(), was, View());
    }

    // One iteration of the loop.
    method Step()
      requires Running() && depth > 0
      modifies this, stackP, stackV, curV, value, mines, left, S, T
      ensures Running() && Ahead() < old(Ahead()) && nodes + Left() == old(nodes + Left())
    {
      var top := depth - 1;
      if stackP[top] == -1 {
        if top == |cells| { StepLeaf(); } else { StepPick(); }
      } else if curV[top] == -1 {
        if stackV[top] >= 2 { StepPop(); } else { StepTry(); }
      } else {
        StepUndo();
      }
    }
  }

  lemma {:induction false} MembersInRange(pb: Problem, li: nat)
    requires pb.Valid() && li < |pb.cells|
    ensures Distinct(pb.member[li])
    ensures forall j :: 0 <= j < |pb.member[li]| ==> pb.member[li][j] < |pb.cons|
  {
    assert MemberOf(pb.cells, pb.cons, li, pb.member[li]);
    assert forall j :: 0 <= j < |pb.member[li]| ==> pb.member[li][j] in pb.member[li];
  }

  /** The number of nodes that solving a component takes. */
  ghost function NodeCost(cells: seq<nat>, cons: seq<Con>): nat {
    Nodes(cons, SearchCells(cells, cons), [])
  }

  /** Enumerate every placement of one component: S[t] solutions with t mines,
      T[li * (m + 1) + t] of them with cell li a mine. The search succeeds exactly when
      the nodes it takes are within the budget. */
  method CompSolve(cells: seq<nat>, cons: seq<Con>) returns (solved: bool, S: array<nat>, T: array<nat>)
    requires WellFormed(cells, cons)
    ensures fresh(S) && fresh(T)
    ensures solved ==> Exact(cells, cons, S[..], T[..])
    ensures cells == [] ==> solved
    ensures cells != [] ==> (solved <==> NodeCost(cells, cons) <= NODE_BUDGET)
  {
    hide Inv, ToCount, Work, Exact, Nodes;
    var m := |cells|;
    if m == 0 {
      S := new nat[1](_ => 0);
      T := new nat[1](_ => 0);
      S[0] := 1;
      EmptyExact(cells, cons);
      assert S[..] == [1] && T[..] == [0];
      return true, S, T;
    }
    var member := MemberLists(cells, cons);
    var len := seq(m, li requires 0 <= li < m => |member[li]|);
    DegreesAre(cells, cons, member, len);
    var order := OrderCells(len);
    var run := new Searcher(cells, cons, member, order);
    StartKeeps(run.Fixed(), run.View());
    ghost var n := NodeCost(cells, cons);
    SearchOrderIs(cells, cons, order[..]);
    while run.depth > 0 && run.nodes <= NODE_BUDGET
      invariant run.Running() && run.nodes + run.Left() == n
      decreases run.Ahead()
    {
      WorkNonneg(run.Fixed(), run.View());
      run.Step();
    }
    solved := run.nodes <= NODE_BUDGET;
    S, T := run.S, run.T;
    if run.depth == 0 {
      NoneLeft(run.Fixed(), run.View());
      FinishExact(run.Fixed(), run.View());
    }
  }

  lemma {:induction false} NoneLeft(pb: Problem, st: State)
    requires Inv(pb, st) && st.depth == 0
    ensures ToCount(pb, st) == 0
  {
    RemainingStart(pb.cons, pb.Xs());
  }

  lemma {:induction false} DegreesAre(cells: seq<nat>, cons: seq<Con>, member: seq<seq<nat>>, len: seq<nat>)
    requires |len| == |member| == |cells|
    requires forall li :: 0 <= li < |cells| ==> MemberOf(cells, cons, li, member[li]) && len[li] == |member[li]|
    ensures len == Degrees(cells, cons)
  {
    forall li: nat | li < |cells| ensures len[li] == Degree(cons, cells[li]) {
      MemberDegree(cells, cons, li, member[li]);
    }
  }

  /** Never more than without pruning. */
  lemma {:induction false} CostBound(cells: seq<nat>, cons: seq<Con>)
    ensures NodeCost(cells, cons) <= MostNodes(|cells|)
  {
    NodesBound(cons, SearchCells(cells, cons), []);
  }

  /** Only a component of twenty or more cells can be over the budget. */
  lemma {:induction false} CostlyIsLarge(cells: seq<nat>, cons: seq<Con>)
    requires NodeCost(cells, cons) > NODE_BUDGET
    ensures |cells| >= 20
  {
    hide NodeCost;
    CostBound(cells, cons);
    NineteenFit(|cells|);
  }
}
