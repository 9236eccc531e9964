/** Requested games on a stream that also carries broadcasts. */
module Requests {
  import opened Naturals

  datatype Option<T> = None | Some(value: T)

  datatype Game = Game(won: bool, moves: nat, timeMs: nat, guesses: nat)

  // A finished requested game as the client returns it.
  datatype Row = Row(diff: string, seed: int, game: Game)

  datatype Line =
    | ReqWait(diff: string, what: int)
    | ReqGame(diff: string, seed: int)
    | Seed(diff: string, seed: int)
    | Outcome(row: Row)
    | LossFound(diff: string, seed: int, run: nat, game: Game)
    | NoLoss(diff: string, seed: int, max: nat)
    | ReqDone(diff: string, played: nat)
    | ReqDenied

  datatype LossInfo = NoInfo | Loss(run: nat, game: Game) | AllWon(max: nat)

  // ---- the server's side ----

  /** A parsed request. Without a seed every run draws its own; an `until` request stops at the first loss. */
  datatype Request = Request(diff: string, seed: Option<int>, count: int, until: bool, heavy: bool)

  // How the games turn out: the seeds drawn for a batch, and the deterministic outcome of each run.
  datatype Dice = Dice(draw: nat -> int, play: (int, nat) -> Game)

  function SeedOf(req: Request, dice: Dice, run: nat): int {
    if req.seed.Some? then req.seed.value else dice.draw(run)
  }

  function RowOf(req: Request, dice: Dice, run: nat): Row {
    Row(req.diff, SeedOf(req, dice, run), dice.play(SeedOf(req, dice, run), run))
  }

  // The games played from `run` on.
  function Played(req: Request, dice: Dice, run: nat, count: nat): seq<Row>
    requires run <= count
    decreases count - run
  {
    if run == count then []
    else
      var row := RowOf(req, dice, run);
      [row] + (if req.until && !row.game.won then [] else Played(req, dice, run + 1, count))
  }

  // What is sent for each game.
  function GameLines(rows: seq<Row>): seq<Line> {
    if rows == [] then []
    else GameLines(rows[..|rows| - 1]) + LinesFor(rows[|rows| - 1])
  }

  function LinesFor(row: Row): seq<Line> {
    [ReqGame(row.diff, row.seed), Seed(row.diff, row.seed), Outcome(row)]
  }

  ghost predicate FirstLossEnds(rows: seq<Row>) {
    forall i :: 0 <= i < |rows| - 1 ==> rows[i].game.won
  }

  // An `until` request reports the first loss, or that there was none.
  function Verdict(req: Request, rows: seq<Row>): seq<Line> {
    if !req.until || req.seed.None? then []
    else if rows != [] && !rows[|rows| - 1].game.won then
      [LossFound(req.diff, req.seed.value, |rows| - 1, rows[|rows| - 1].game)]
    else [NoLoss(req.diff, req.seed.value, |rows|)]
  }

  function Waiting(req: Request, count: nat): seq<Line> {
    if req.heavy then [ReqWait(req.diff, if req.seed.Some? then req.seed.value else count)] else []
  }

  /** Everything a served request sends to the client. */
  function Reply(req: Request, dice: Dice, count: nat): seq<Line> {
    var rows := Played(req, dice, 0, count);
    Waiting(req, count) + GameLines(rows) + Verdict(req, rows) + [ReqDone(req.diff, |rows|)]
  }

  lemma {:induction false} PlayedSplit(req: Request, dice: Dice, run: nat, count: nat, done: seq<Row>)
    requires run < count
    ensures var row := RowOf(req, dice, run);
      done + Played(req, dice, run, count)
      == (done + [row]) + (if req.until && !row.game.won then [] else Played(req, dice, run + 1, count))
  {}

  // What arrives of some lines on a connection that takes `room` lines before it dies.
  function Cut(lines: seq<Line>, room: nat): seq<Line> {
    if |lines| <= room then lines else lines[..room]
  }

  lemma {:induction false} CutMore(a: seq<Line>, b: seq<Line>, room: nat)
    ensures Cut(Cut(a, room) + b, room) == Cut(a + b, room)
    ensures |a| > room ==> Cut(a + b, room) == Cut(a, room)
  {
    if |a| > room {
      assert (a[..room] + b)[..room] == a[..room] == (a + b)[..room];
    }
  }

  // Send one line; a connection that has died takes nothing any more.
  method SendTo(sent: seq<Line>, line: Line, room: nat, ghost whole: seq<Line>) returns (now: seq<Line>, ok: bool)
    requires sent == Cut(whole, room)
    ensures now == Cut(whole + [line], room)
    ensures ok <==> |whole + [line]| <= room
  {
    CutMore(whole, [line], room);
    ok := |sent| < room;
    now := if ok then sent + [line] else sent;
  }

  // The three lines of one game; later ones are not tried after a failure.
  method SendGame(sent: seq<Line>, row: Row, room: nat, ghost whole: seq<Line>) returns (now: seq<Line>, ok: bool)
    requires sent == Cut(whole, room)
    ensures now == Cut(whole + LinesFor(row), room)
    ensures ok <==> |whole + LinesFor(row)| <= room
  {
    ghost var l := LinesFor(row);
    ghost var one, two := whole + [l[0]], whole + [l[0]] + [l[1]];
    assert whole + l == one + [l[1], l[2]] == two + [l[2]];
    CutMore(one, [l[1], l[2]], room);
    CutMore(two, [l[2]], room);
    now, ok := SendTo(sent, ReqGame(row.diff, row.seed), room, whole);
    if !ok { return; }
    now, ok := SendTo(now, Seed(row.diff, row.seed), room, one);
    if !ok { return; }
    now, ok := SendTo(now, Outcome(row), room, two);
  }

  function LossOf(req: Request, rows: seq<Row>): Option<Game> {
    if req.until && rows != [] && !rows[|rows| - 1].game.won then Some(rows[|rows| - 1].game) else None
  }

  // Play and stream the games, stopping an `until` request at its first loss and any request at a dead connection.
  method StreamGames(req: Request, dice: Dice, count: nat, room: nat, start: seq<Line>, ghost whole: seq<Line>)
      returns (sent: seq<Line>, played: nat, loss: Option<Game>)
    requires start == Cut(whole, room)
    ensures var rows := Played(req, dice, 0, count); var all := whole + GameLines(rows);
      && sent == Cut(all, room)
      && (|all| <= room ==> played == |rows| && loss == LossOf(req, rows))
    ensures loss.Some? ==> played > 0
  {
    hide GameLines, Played, Cut, LinesFor;
    sent, played, loss := start, 0, None;
    ghost var rows: seq<Row> := [];
    NoGames();
    assert whole + [] == whole && rows + Played(req, dice, 0, count) == Played(req, dice, 0, count);
    var run: nat := 0;
    while run < count && loss.None?
      invariant run <= count && played == |rows| && sent == Cut(whole + GameLines(rows), room)
      invariant Played(req, dice, 0, count) == rows + (if loss.Some? then [] else Played(req, dice, run, count))
      invariant loss == LossOf(req, rows)
      decreases count - run, if loss.None? then 1 else 0
    {
      PlayedSplit(req, dice, run, count, rows);
      var s := SeedOf(req, dice, run);
      var row := Row(req.diff, s, dice.play(s, run));
      GameLinesSnoc(rows, row);
      ghost var before := whole + GameLines(rows);
      assert before + LinesFor(row) == whole + GameLines(rows + [row]);
      var ok;
      sent, ok := SendGame(sent, row, room, before);
      rows := rows + [row];
      if !ok {
        CutShort(whole, rows, Played(req, dice, 0, count), room);
        return;
      }
      played := played + 1;
      run := run + 1;
      if req.until && !row.game.won { loss := Some(row.game); }
    }
    PlayedEnd(req, dice, count);
    assert rows + [] == rows;
  }

  // Nothing more arrives once the lines of the games so far did not fit.
  lemma {:induction false} CutShort(whole: seq<Line>, rows: seq<Row>, all: seq<Row>, room: nat)
    requires rows <= all && |whole + GameLines(rows)| > room
    ensures |whole + GameLines(all)| > room
    ensures Cut(whole + GameLines(all), room) == Cut(whole + GameLines(rows), room)
  {
    hide Cut, GameLines;
    var rest := all[|rows|..];
    assert all == rows + rest;
    GameLinesConcat(rows, rest);
    assert whole + GameLines(all) == (whole + GameLines(rows)) + GameLines(rest);
    CutMore(whole + GameLines(rows), GameLines(rest), room);
  }

  lemma {:induction false} GameLinesConcat(a: seq<Row>, b: seq<Row>)
    ensures GameLines(a + b) == GameLines(a) + GameLines(b)
    decreases |b|
  {
    if b == [] {
      assert a + b == a;
    } else {
      assert (a + b)[..|a + b| - 1] == a + b[..|b| - 1];
      GameLinesConcat(a, b[..|b| - 1]);
    }
  }

  lemma {:induction false} NoGames()
    ensures GameLines([]) == []
  {}

  lemma {:induction false} PlayedEnd(req: Request, dice: Dice, count: nat)
    ensures Played(req, dice, count, count) == []
  {}

  /** Serve one request on a connection that takes `room` lines before it dies. Nothing is sent for an ill-formed
      request, a refusal to a client without credentials, and otherwise the reply as far as the connection takes it. */
  method HandleRequest(req: Request, dice: Dice, authed: bool, knownDiffs: set<string>, maxRequest: nat, room: nat)
      returns (sent: seq<Line>)
    requires req.until ==> req.seed.Some?
    ensures !authed ==> sent == Cut([ReqDenied], room)
    ensures authed && (req.diff !in knownDiffs || req.count < 1) ==> sent == []
    ensures authed && req.diff in knownDiffs && req.count >= 1 ==>
        sent == Cut(Reply(req, dice, Least(req.count, maxRequest)), room)
  {
    hide GameLines, Played, Cut;
    var ok;
    NothingCut(room);
    if !authed {
      sent, ok := SendTo([], ReqDenied, room, []);
      assert [] + [ReqDenied] == [ReqDenied];
      return;
    }
    if req.diff !in knownDiffs || req.count < 1 { return []; }
    var count: nat := Least(req.count, maxRequest);
    sent := [];
    ghost var wait := Waiting(req, count);
    if req.heavy {
      sent, ok := SendTo(sent, ReqWait(req.diff, if req.seed.Some? then req.seed.value else count), room, []);
      assert [] + wait == wait;
    }
    var played, loss;
    sent, played, loss := StreamGames(req, dice, count, room, sent, wait);
    ghost var rows := Played(req, dice, 0, count);
    sent := Report(req, room, sent, played, loss, rows, wait + GameLines(rows));
  }

  lemma {:induction false} NothingCut(room: nat)
    ensures Cut([], room) == []
  {}

  // The lines after the games.
  method Report(req: Request, room: nat, start: seq<Line>, played: nat, loss: Option<Game>, ghost rows: seq<Row>,
                ghost whole: seq<Line>) returns (sent: seq<Line>)
    requires req.until ==> req.seed.Some?
    requires start == Cut(whole, room)
    requires |whole| <= room ==> played == |rows| && loss == LossOf(req, rows)
    requires req.until && loss.Some? ==> played > 0
    ensures sent == Cut(whole + Verdict(req, rows) + [ReqDone(req.diff, |rows|)], room)
  {
    hide Cut;
    sent := start;
    ghost var verdict, end := Verdict(req, rows), [ReqDone(req.diff, |rows|)];
    var ok;
    assert whole + [] == whole;
    if req.until {
      var line := if loss.Some? then LossFound(req.diff, req.seed.value, played - 1, loss.value)
                  else NoLoss(req.diff, req.seed.value, played);
      sent, ok := SendTo(sent, line, room, whole);
      CutMore(whole, [line], room);
      CutMore(whole, verdict, room);
    }
    assert sent == Cut(whole + verdict, room);
    sent, ok := SendTo(sent, ReqDone(req.diff, played), room, whole + verdict);
    CutMore(whole, verdict + [ReqDone(req.diff, played)], room);
    CutMore(whole, verdict + end, room);
    assert whole + verdict + [ReqDone(req.diff, played)] == whole + (verdict + [ReqDone(req.diff, played)]);
    assert whole + verdict + end == whole + (verdict + end);
  }

  lemma {:induction false} GameLinesSnoc(rows: seq<Row>, row: Row)
    ensures GameLines(rows + [row]) == GameLines(rows) + LinesFor(row)
  {
    assert (rows + [row])[..|rows|] == rows;
  }

  // ---- the client's side ----

  datatype Reader = Reader(pending: Option<(string, int)>, games: seq<Row>, loss: LossInfo)

  datatype Answer = Finished(games: seq<Row>, loss: LossInfo, played: nat) | Denied | TimedOut

  // What one line other than reqdone and reqdenied does.
  function Take(r: Reader, line: Line): Reader {
    match line
    case ReqGame(diff, seed) => r.(pending := Some((diff, seed)))
    case Outcome(row) =>
      if r.pending == Some((row.diff, row.seed)) then r.(games := r.games + [row], pending := None) else r
    case LossFound(_, _, run, game) => r.(loss := Loss(run, game))
    case NoLoss(_, _, max) => r.(loss := AllWon(max))
    case _ => r
  }

  // Reading the stream to the end of the request.
  function Read(r: Reader, lines: seq<Line>): Answer
    decreases |lines|
  {
    if lines == [] then TimedOut
    else if lines[0].ReqDenied? then Denied
    else if lines[0].ReqDone? then Finished(r.games, r.loss, lines[0].played)
    else Read(Take(r, lines[0]), lines[1..])
  }

  const FRESH := Reader(None, [], NoInfo)

  /** The client's loop; the stream ends where the deadline cuts it off. */
  method ClientRequest(lines: seq<Line>) returns (answer: Answer)
    ensures answer == Read(FRESH, lines)
  {
    var pending: Option<(string, int)> := None;
    var games: seq<Row> := [];
    var loss := NoInfo;
    for i := 0 to |lines|
      invariant Read(FRESH, lines) == Read(Reader(pending, games, loss), lines[i..])
    {
      assert lines[i..][1..] == lines[i + 1..];
      match lines[i] {
        case ReqGame(diff, seed) => pending := Some((diff, seed));
        case Seed(_, _) =>
        case Outcome(row) =>
          if pending.Some? && (row.diff, row.seed) == pending.value {
            games := games + [row];
            pending := None;
          }
        case LossFound(_, _, run, game) => loss := Loss(run, game);
        case NoLoss(_, _, max) => loss := AllWon(max);
        case ReqDenied => return Denied;
        case ReqDone(_, played) => return Finished(games, loss, played);
        case ReqWait(_, _) =>
      }
    }
    answer := TimedOut;
  }

  // ---- interleaving ----

  // A line on the wire, and whether it was broadcast to everybody.
  datatype Sent = Sent(line: Line, broadcast: bool)

  function LinesIn(mix: seq<Sent>): seq<Line> {
    if mix == [] then [] else [mix[0].line] + LinesIn(mix[1..])
  }

  // The server's reply to this client, in order.
  function Own(mix: seq<Sent>): seq<Line> {
    if mix == [] then [] else (if mix[0].broadcast then [] else [mix[0].line]) + Own(mix[1..])
  }

  /** Broadcasts are seeds and outcomes. */
  ghost predicate Public(mix: seq<Sent>) {
    forall m :: m in mix && m.broadcast ==> m.line.Seed? || m.line.Outcome?
  }

  // The games of a reply that are still to come.
  function RowsIn(own: seq<Line>): seq<Row> {
    if own == [] || own[0].ReqDone? then []
    else (if own[0].Outcome? then [own[0].row] else []) + RowsIn(own[1..])
  }

  /** Whenever a broadcast outcome of the game this client is waiting for arrives, it equals the outcome that the
      reply itself brings next. */
  ghost predicate Harmless(r: Reader, mix: seq<Sent>)
    decreases |mix|
  {
    mix != [] ==>
      var line := mix[0].line;
      if mix[0].broadcast then
        && (line.Outcome? && r.pending == Some((line.row.diff, line.row.seed)) ==>
              RowsIn(Own(mix)) != [] && RowsIn(Own(mix))[0] == line.row)
        && Harmless(Take(r, line), mix[1..])
      else line.ReqDone? || line.ReqDenied? || Harmless(Take(r, line), mix[1..])
  }

  // A reply in order: every game is announced before its outcome, and reqdone comes when none is open.
  ghost predicate Tidy(open: Option<(string, int)>, own: seq<Line>)
    decreases |own|
  {
    && own != []
    && match own[0]
       case ReqGame(diff, seed) => open.None? && Tidy(Some((diff, seed)), own[1..])
       case Outcome(row) => open == Some((row.diff, row.seed)) && Tidy(None, own[1..])
       case ReqDone(_, _) => open.None?
       case ReqDenied => false
       case _ => Tidy(open, own[1..])
  }

  // The open game is the next one to come.
  lemma {:induction false} OpenNext(open: Option<(string, int)>, own: seq<Line>)
    requires Tidy(open, own) && open.Some?
    ensures RowsIn(own) != [] && open == Some((RowsIn(own)[0].diff, RowsIn(own)[0].seed))
    decreases |own|
  {
    if !own[0].Outcome? { OpenNext(open, own[1..]); }
  }

  // The games a reader will still add: all that come, or all but the open one if a broadcast has stood in for it.
  function Due(r: Reader, open: Option<(string, int)>, rows: seq<Row>): seq<Row> {
    if r.pending == open || rows == [] then rows else rows[1..]
  }

  // The same boards in the same order.
  ghost predicate SameBoards(a: seq<Row>, b: seq<Row>) {
    |a| == |b| && forall i :: 0 <= i < |a| ==> a[i].diff == b[i].diff && a[i].seed == b[i].seed
  }

  // Every game is the expected one or was broadcast.
  ghost predicate FromMix(got: seq<Row>, due: seq<Row>, mix: seq<Sent>)
    requires |got| == |due|
  {
    forall i :: 0 <= i < |got| ==> got[i] == due[i] || Sent(Outcome(got[i]), true) in mix
  }

  // What the reader knows at the end, compared with what the reply alone says.
  ghost predicate Outcomes(r: Reader, mix: seq<Sent>, answer: Answer, alone: Answer, got: seq<Row>, due: seq<Row>) {
    && answer.Finished? && alone.Finished? && answer.games == r.games + got
    && answer.loss == alone.loss && answer.played == alone.played
    && SameBoards(got, due) && FromMix(got, due, mix) && (got == due <==> Harmless(r, mix))
  }

  /** Reading any mix, against a reader o of the reply alone: boards, loss report and count agree, a game differs
      only if it was broadcast, and none differs exactly when the broadcasts are harmless. */
  lemma {:induction false} MixRead(r: Reader, o: Reader, mix: seq<Sent>) returns (got: seq<Row>)
    requires Public(mix) && Tidy(o.pending, Own(mix))
    requires r.loss == o.loss && (r.pending == o.pending || r.pending.None?)
    ensures Outcomes(r, mix, Read(r, LinesIn(mix)), Read(o, Own(mix)), got, Due(r, o.pending, RowsIn(Own(mix))))
    decreases |mix|
  {
    hide Outcomes, Public, Tidy, Harmless;
    TidyStep(o, mix);
    var line, rest := mix[0].line, mix[1..];
    assert LinesIn(mix)[1..] == LinesIn(rest);
    if mix[0].broadcast {
      got := MixRead(Take(r, line), o, rest);
      got := BroadcastRead(r, o, mix, got);
    } else if line.ReqDone? {
      got := [];
      LastRead(r, o, mix);
    } else {
      assert Own(mix)[1..] == Own(rest);
      got := MixRead(Take(r, line), Take(o, line), rest);
      got := OwnRead(r, o, mix, got);
    }
  }

  lemma {:induction false} TidyStep(o: Reader, mix: seq<Sent>)
    requires Public(mix) && Tidy(o.pending, Own(mix))
    ensures mix != [] && Public(mix[1..])
    ensures mix[0].broadcast ==>
      (mix[0].line.Seed? || mix[0].line.Outcome?) && Own(mix) == Own(mix[1..])
    ensures !mix[0].broadcast ==>
      && !mix[0].line.ReqDenied? && Own(mix) == [mix[0].line] + Own(mix[1..])
      && (mix[0].line.ReqDone? ==> o.pending.None?)
      && (mix[0].line.ReqGame? ==> o.pending.None?)
      && (mix[0].line.Outcome? ==> o.pending == Some((mix[0].line.row.diff, mix[0].line.row.seed)))
      && (!mix[0].line.ReqDone? ==> Tidy(Take(o, mix[0].line).pending, Own(mix[1..])))
  {
    assert mix[0] in mix;
    if !mix[0].broadcast { assert Own(mix)[1..] == Own(mix[1..]); }
  }

  lemma {:induction false} LastRead(r: Reader, o: Reader, mix: seq<Sent>)
    requires mix != [] && !mix[0].broadcast && mix[0].line.ReqDone? && r.loss == o.loss
    requires r.pending == o.pending
    ensures Outcomes(r, mix, Read(r, LinesIn(mix)), Read(o, Own(mix)), [], Due(r, o.pending, RowsIn(Own(mix))))
  {
    assert r.games + [] == r.games;
  }

  // A broadcast line: it stands in for the open game, or changes nothing.
  lemma {:induction false} BroadcastRead(r: Reader, o: Reader, mix: seq<Sent>, got0: seq<Row>) returns (got: seq<Row>)
    requires mix != [] && mix[0].broadcast && (mix[0].line.Seed? || mix[0].line.Outcome?)
    requires Own(mix) == Own(mix[1..]) && LinesIn(mix)[1..] == LinesIn(mix[1..]) && Tidy(o.pending, Own(mix))
    requires r.pending == o.pending || r.pending.None?
    requires var r' := Take(r, mix[0].line);
      Outcomes(r', mix[1..], Read(r', LinesIn(mix[1..])), Read(o, Own(mix)), got0,
               Due(r', o.pending, RowsIn(Own(mix))))
    ensures Outcomes(r, mix, Read(r, LinesIn(mix)), Read(o, Own(mix)), got, Due(r, o.pending, RowsIn(Own(mix))))
  {
    hide Outcomes, RowsIn, Tidy, SameBoards, FromMix;
    var line, rows := mix[0].line, RowsIn(Own(mix));
    var answer, alone := Read(r, LinesIn(mix)), Read(o, Own(mix));
    assert answer == Read(Take(r, line), LinesIn(mix[1..]));
    if line.Outcome? && r.pending == Some((line.row.diff, line.row.seed)) {
      OpenNext(o.pending, Own(mix));
      got := [line.row] + got0;
      StoodIn(r, mix, answer, alone, got0, rows);
    } else {
      got := got0;
      Unmoved(r, mix, answer, alone, got0, Due(r, o.pending, rows));
    }
  }

  lemma {:induction false} Unmoved(r: Reader, mix: seq<Sent>, answer: Answer, alone: Answer, got: seq<Row>,
                                   due: seq<Row>)
    requires mix != [] && mix[0].broadcast && (mix[0].line.Seed? || mix[0].line.Outcome?)
    requires mix[0].line.Outcome? ==> r.pending != Some((mix[0].line.row.diff, mix[0].line.row.seed))
    requires Outcomes(r, mix[1..], answer, alone, got, due)
    ensures Outcomes(r, mix, answer, alone, got, due)
  {
    assert mix == [mix[0]] + mix[1..];
  }

  lemma {:induction false} StoodIn(r: Reader, mix: seq<Sent>, answer: Answer, alone: Answer, got: seq<Row>,
                                   rows: seq<Row>)
    requires mix != [] && mix[0].broadcast && mix[0].line.Outcome? && rows != [] && rows == RowsIn(Own(mix))
    requires r.pending == Some((mix[0].line.row.diff, mix[0].line.row.seed)) == Some((rows[0].diff, rows[0].seed))
    requires Outcomes(Take(r, mix[0].line), mix[1..], answer, alone, got, rows[1..])
    ensures Outcomes(r, mix, answer, alone, [mix[0].line.row] + got, rows)
  {
    hide RowsIn, Own;
    var row := mix[0].line.row;
    assert (r.games + [row]) + got == r.games + ([row] + got);
    assert mix[0] == Sent(Outcome(row), true) && rows == [rows[0]] + rows[1..];
    OnePlus(row, got, rows[0], rows[1..], mix);
  }

  lemma {:induction false} OnePlus(x: Row, got: seq<Row>, y: Row, due: seq<Row>, mix: seq<Sent>)
    requires mix != [] && mix[0] == Sent(Outcome(x), true) && x.diff == y.diff && x.seed == y.seed
    requires SameBoards(got, due) && FromMix(got, due, mix[1..])
    ensures SameBoards([x] + got, [y] + due) && FromMix([x] + got, [y] + due, mix)
    ensures [x] + got == [y] + due <==> x == y && got == due
  {
    var a, b := [x] + got, [y] + due;
    forall i | 0 <= i < |a|
      ensures a[i].diff == b[i].diff && a[i].seed == b[i].seed
      ensures a[i] == b[i] || Sent(Outcome(a[i]), true) in mix
    {
      if i > 0 { assert a[i] == got[i - 1] && b[i] == due[i - 1]; }
    }
    assert a[0] == x && b[0] == y && a[1..] == got && b[1..] == due;
  }

  // A line of the reply.
  lemma {:induction false} OwnRead(r: Reader, o: Reader, mix: seq<Sent>, got0: seq<Row>) returns (got: seq<Row>)
    requires mix != [] && !mix[0].broadcast && !mix[0].line.ReqDone? && !mix[0].line.ReqDenied?
    requires Own(mix) == [mix[0].line] + Own(mix[1..]) && LinesIn(mix)[1..] == LinesIn(mix[1..])
    requires r.pending == o.pending || r.pending.None?
    requires mix[0].line.ReqGame? ==> o.pending.None?
    requires mix[0].line.Outcome? ==> o.pending == Some((mix[0].line.row.diff, mix[0].line.row.seed))
    requires Tidy(o.pending, Own(mix))
    requires var r', o' := Take(r, mix[0].line), Take(o, mix[0].line);
      Outcomes(r', mix[1..], Read(r', LinesIn(mix[1..])), Read(o', Own(mix[1..])), got0,
               Due(r', o'.pending, RowsIn(Own(mix[1..]))))
    ensures Outcomes(r, mix, Read(r, LinesIn(mix)), Read(o, Own(mix)), got, Due(r, o.pending, RowsIn(Own(mix))))
  {
    hide Outcomes, Tidy, SameBoards, FromMix;
    var line, own := mix[0].line, Own(mix[1..]);
    var r', o' := Take(r, line), Take(o, line);
    assert Own(mix)[1..] == own;
    var answer, alone := Read(r, LinesIn(mix)), Read(o, Own(mix));
    assert answer == Read(r', LinesIn(mix[1..])) && alone == Read(o', own);
    var due' := Due(r', o'.pending, RowsIn(own));
    if line.Outcome? && r.pending == o.pending {
      assert RowsIn(Own(mix)) == [line.row] + RowsIn(own);
      got := [line.row] + got0;
      assert due' == RowsIn(own);
      Delivered(r, mix, answer, alone, got0, due');
    } else {
      got := got0;
      if line.Outcome? {
        assert RowsIn(Own(mix)) == [line.row] + RowsIn(own);
        assert ([line.row] + RowsIn(own))[1..] == RowsIn(own);
      } else {
        assert RowsIn(Own(mix)) == RowsIn(own);
      }
      assert due' == Due(r, o.pending, RowsIn(Own(mix)));
      CarriedOver(r, mix, answer, alone, got0, due');
    }
  }

  lemma {:induction false} CarriedOver(r: Reader, mix: seq<Sent>, answer: Answer, alone: Answer, got: seq<Row>,
                                       due: seq<Row>)
    requires mix != [] && !mix[0].broadcast && !mix[0].line.ReqDone? && !mix[0].line.ReqDenied?
    requires Take(r, mix[0].line).games == r.games
    requires Outcomes(Take(r, mix[0].line), mix[1..], answer, alone, got, due)
    ensures Outcomes(r, mix, answer, alone, got, due)
  {
    assert mix == [mix[0]] + mix[1..];
  }

  lemma {:induction false} Delivered(r: Reader, mix: seq<Sent>, answer: Answer, alone: Answer, got: seq<Row>,
                                     due: seq<Row>)
    requires mix != [] && !mix[0].broadcast && mix[0].line.Outcome?
    requires r.pending == Some((mix[0].line.row.diff, mix[0].line.row.seed))
    requires Outcomes(Take(r, mix[0].line), mix[1..], answer, alone, got, due)
    ensures Outcomes(r, mix, answer, alone, [mix[0].line.row] + got, [mix[0].line.row] + due)
  {
    var row := mix[0].line.row;
    assert (r.games + [row]) + got == r.games + ([row] + got);
    OneMore(row, got, due, mix);
  }

  lemma {:induction false} OneMore(x: Row, got: seq<Row>, due: seq<Row>, mix: seq<Sent>)
    requires mix != [] && SameBoards(got, due) && FromMix(got, due, mix[1..])
    ensures SameBoards([x] + got, [x] + due) && FromMix([x] + got, [x] + due, mix)
    ensures [x] + got == [x] + due <==> got == due
  {
    var a, b := [x] + got, [x] + due;
    forall i | 0 <= i < |a|
      ensures a[i].diff == b[i].diff && a[i].seed == b[i].seed
      ensures a[i] == b[i] || Sent(Outcome(a[i]), true) in mix
    {
      if i > 0 { assert a[i] == got[i - 1] && b[i] == due[i - 1]; }
    }
    assert a[1..] == got && b[1..] == due;
  }

  // Any mix of a tidy reply is at least as long as a broadcast-free reading needs; the replies are tidy.
  lemma {:induction false} GamesTidy(rows: seq<Row>, tail: seq<Line>)
    requires Tidy(None, tail)
    ensures Tidy(None, GameLines(rows) + tail) && RowsIn(GameLines(rows) + tail) == rows + RowsIn(tail)
    decreases |rows|
  {
    hide Tidy, RowsIn, GameLines, LinesFor;
    if rows == [] {
      NoGames();
      assert [] + tail == tail && rows + RowsIn(tail) == RowsIn(tail);
    } else {
      var init, last := rows[..|rows| - 1], rows[|rows| - 1];
      assert rows == init + [last];
      GameLinesSnoc(init, last);
      OneGameTidy(last, tail);
      GamesTidy(init, LinesFor(last) + tail);
      assert GameLines(rows) + tail == GameLines(init) + (LinesFor(last) + tail);
      assert rows + RowsIn(tail) == init + ([last] + RowsIn(tail));
    }
  }

  lemma {:induction false} OneGameTidy(row: Row, tail: seq<Line>)
    requires Tidy(None, tail)
    ensures Tidy(None, LinesFor(row) + tail) && RowsIn(LinesFor(row) + tail) == [row] + RowsIn(tail)
  {
    var l := LinesFor(row);
    var l2 := [l[2]] + tail;
    var l1 := [l[1]] + l2;
    assert l + tail == [l[0]] + l1;
    assert l2[1..] == tail && l1[1..] == l2 && ([l[0]] + l1)[1..] == l1;
    assert RowsIn(l2) == [row] + RowsIn(tail);
    assert RowsIn(l1) == RowsIn(l2);
  }

  lemma {:induction false} ReplyTidy(req: Request, dice: Dice, count: nat)
    ensures Tidy(None, Reply(req, dice, count)) && RowsIn(Reply(req, dice, count)) == Played(req, dice, 0, count)
  {
    hide Played, GameLines;
    var rows := Played(req, dice, 0, count);
    var end := [ReqDone(req.diff, |rows|)];
    assert Tidy(None, end) && RowsIn(end) == [];
    var tail := Verdict(req, rows) + end;
    OneLine(Verdict(req, rows), end);
    GamesTidy(rows, tail);
    OneLine(Waiting(req, count), GameLines(rows) + tail);
    assert Reply(req, dice, count) == Waiting(req, count) + (GameLines(rows) + tail);
    assert rows + [] == rows;
  }

  lemma {:induction false} OneLine(lines: seq<Line>, tail: seq<Line>)
    requires |lines| <= 1 && Tidy(None, tail)
    requires forall l :: l in lines ==> l.ReqWait? || l.LossFound? || l.NoLoss?
    ensures Tidy(None, lines + tail) && RowsIn(lines + tail) == RowsIn(tail)
  {
    if lines == [] {
      assert lines + tail == tail;
    } else {
      assert lines[0] in lines && (lines + tail)[1..] == tail;
    }
  }

  /** No broadcast outcome carries the game this client is waiting for when it arrives. */
  ghost predicate Undisturbed(r: Reader, mix: seq<Sent>)
    decreases |mix|
  {
    mix != [] ==>
      if mix[0].broadcast then
        && (mix[0].line.Seed? || mix[0].line.Outcome?)
        && (mix[0].line.Outcome? ==> r.pending != Some((mix[0].line.row.diff, mix[0].line.row.seed)))
        && Undisturbed(r, mix[1..])
      else mix[0].line.ReqDone? || mix[0].line.ReqDenied? || Undisturbed(Take(r, mix[0].line), mix[1..])
  }

  lemma {:induction false} UndisturbedHarmless(r: Reader, mix: seq<Sent>)
    requires Undisturbed(r, mix)
    ensures Harmless(r, mix)
    decreases |mix|
  {
    if mix != [] {
      var line := mix[0].line;
      if mix[0].broadcast || (!line.ReqDone? && !line.ReqDenied?) { UndisturbedHarmless(Take(r, line), mix[1..]); }
    }
  }

  /** Whatever the interleaving, the client reads what it would have read from the reply alone. */
  lemma {:induction false} BroadcastsIgnored(r: Reader, mix: seq<Sent>)
    requires Undisturbed(r, mix)
    ensures Read(r, LinesIn(mix)) == Read(r, Own(mix))
    decreases |mix|
  {
    if mix != [] {
      var line := mix[0].line;
      assert LinesIn(mix)[1..] == LinesIn(mix[1..]);
      if mix[0].broadcast {
        assert Take(r, line) == r;
        assert Own(mix) == Own(mix[1..]);
        BroadcastsIgnored(r, mix[1..]);
      } else {
        assert Own(mix)[1..] == Own(mix[1..]);
        if !line.ReqDone? && !line.ReqDenied? { BroadcastsIgnored(Take(r, line), mix[1..]); }
      }
    }
  }

  // Reading a stretch without reqdone or reqdenied.
  function TakeAll(r: Reader, lines: seq<Line>): Reader {
    if lines == [] then r else Take(TakeAll(r, lines[..|lines| - 1]), lines[|lines| - 1])
  }

  ghost predicate Plain(lines: seq<Line>) {
    forall l :: l in lines ==> !l.ReqDone? && !l.ReqDenied?
  }

  lemma {:induction false} ReadOn(r: Reader, a: seq<Line>, b: seq<Line>)
    requires Plain(a)
    ensures Read(r, a + b) == Read(TakeAll(r, a), b)
    decreases |a|
  {
    if a == [] {
      assert a + b == b;
    } else {
      var init, last := a[..|a| - 1], a[|a| - 1];
      assert last in a && forall l :: l in init ==> l in a;
      ReadOn(r, init, [last] + b);
      assert init + ([last] + b) == a + b;
      assert ([last] + b)[1..] == b;
    }
  }

  lemma {:induction false} TakeConcat(r: Reader, a: seq<Line>, b: seq<Line>)
    ensures TakeAll(r, a + b) == TakeAll(TakeAll(r, a), b)
    decreases |b|
  {
    if b == [] {
      assert a + b == a;
    } else {
      assert (a + b)[..|a + b| - 1] == a + b[..|b| - 1];
      TakeConcat(r, a, b[..|b| - 1]);
    }
  }

  // The lines of the games deliver exactly the games.
  lemma {:induction false} GamesRead(rows: seq<Row>, loss: LossInfo)
    ensures Plain(GameLines(rows))
    ensures TakeAll(Reader(None, [], loss), GameLines(rows)) == Reader(None, rows, loss)
    decreases |rows|
  {
    if rows != [] {
      var init, last := rows[..|rows| - 1], rows[|rows| - 1];
      GamesRead(init, loss);
      assert init + [last] == rows;
      TakeConcat(Reader(None, [], loss), GameLines(init), LinesFor(last));
      OneGame(Reader(None, init, loss), last);
    }
  }

  lemma {:induction false} OneGame(r: Reader, row: Row)
    ensures TakeAll(r, LinesFor(row)) == Reader(None, r.games + [row], r.loss)
  {
    var l := LinesFor(row);
    assert l[..2] == [l[0], l[1]] && l[..2][..1] == [l[0]] && [l[0]][..0] == [];
    assert TakeAll(r, [l[0]]) == Take(r, l[0]);
    assert TakeAll(r, l[..2]) == Take(Take(r, l[0]), l[1]);
  }

  // What the client should learn about losses.
  function Told(req: Request, rows: seq<Row>): LossInfo {
    if !req.until then NoInfo
    else if rows != [] && !rows[|rows| - 1].game.won then Loss(|rows| - 1, rows[|rows| - 1].game)
    else AllWon(|rows|)
  }

  lemma {:induction false} ReplyRead(req: Request, dice: Dice, count: nat)
    requires req.until ==> req.seed.Some?
    ensures var rows := Played(req, dice, 0, count);
      Read(FRESH, Reply(req, dice, count)) == Finished(rows, Told(req, rows), |rows|)
  {
    hide Played, GameLines, Plain, Verdict, Waiting, TakeAll, Told;
    var rows := Played(req, dice, 0, count);
    var wait, lines := Waiting(req, count), GameLines(rows);
    var verdict, end := Verdict(req, rows), [ReqDone(req.diff, |rows|)];
    GamesRead(rows, NoInfo);
    assert Reply(req, dice, count) == wait + (lines + (verdict + end));
    WaitTaken(req, count);
    ReadOn(FRESH, wait, lines + (verdict + end));
    ReadOn(FRESH, lines, verdict + end);
    VerdictTaken(req, rows);
    ReadOn(Reader(None, rows, NoInfo), verdict, end);
  }

  lemma {:induction false} WaitTaken(req: Request, count: nat)
    ensures TakeAll(FRESH, Waiting(req, count)) == FRESH && Plain(Waiting(req, count))
  {
    var w := Waiting(req, count);
    if w != [] { assert w[..0] == []; }
  }

  lemma {:induction false} VerdictTaken(req: Request, rows: seq<Row>)
    requires req.until ==> req.seed.Some?
    ensures TakeAll(Reader(None, rows, NoInfo), Verdict(req, rows)) == Reader(None, rows, Told(req, rows))
    ensures Plain(Verdict(req, rows))
  {
    var v := Verdict(req, rows);
    if v != [] { assert v[..0] == []; }
  }

  // Runs go on only after wins.
  lemma {:induction false} PlayedWins(req: Request, dice: Dice, run: nat, count: nat)
    requires run <= count && req.until
    ensures FirstLossEnds(Played(req, dice, run, count))
    ensures |Played(req, dice, run, count)| <= count - run
    ensures (forall r :: r in Played(req, dice, run, count) ==> r.game.won) ==>
        |Played(req, dice, run, count)| == count - run
    decreases count - run
  {
    if run < count {
      PlayedWins(req, dice, run + 1, count);
      var row := RowOf(req, dice, run);
      var rest := Played(req, dice, run + 1, count);
      if row.game.won {
        assert Played(req, dice, run, count) == [row] + rest;
        assert forall r :: r in rest ==> r in [row] + rest;
      } else {
        assert Played(req, dice, run, count) == [row];
      }
    }
  }

  lemma {:induction false} PlayedAll(req: Request, dice: Dice, run: nat, count: nat)
    requires run <= count && !req.until
    ensures |Played(req, dice, run, count)| == count - run
    decreases count - run
  {
    if run < count { PlayedAll(req, dice, run + 1, count); }
  }

  // Told correctly about losses, as far as the games of this request go.
  ghost predicate ToldRight(req: Request, loss: LossInfo, rows: seq<Row>, count: nat) {
    && (!req.until ==> loss == NoInfo && |rows| == count)
    && (req.until ==> !loss.NoInfo?)
    && (loss.Loss? ==>
          && loss.run < |rows| && rows[loss.run].game == loss.game
          && !loss.game.won && forall i :: 0 <= i < loss.run ==> rows[i].game.won)
    && (loss.AllWon? ==> |rows| == count && forall r :: r in rows ==> r.game.won)
  }

  lemma {:induction false} ToldIsRight(req: Request, dice: Dice, count: nat)
    ensures var rows := Played(req, dice, 0, count); ToldRight(req, Told(req, rows), rows, count)
  {
    var rows := Played(req, dice, 0, count);
    if req.until {
      PlayedWins(req, dice, 0, count);
      if Told(req, rows).AllWon? {
        forall r | r in rows ensures r.game.won {
          var i :| 0 <= i < |rows| && rows[i] == r;
        }
      }
    } else {
      PlayedAll(req, dice, 0, count);
    }
  }

  // ---- the reply, line by line ----

  // Run i plays a board of this seed: the requested one, or the one drawn for the run.
  ghost predicate RunSeed(req: Request, dice: Dice, i: nat, seed: int) {
    match req.seed
    case Some(s) => seed == s
    case None => seed == dice.draw(i)
  }

  // The game of run i, whatever was announced.
  ghost predicate RunRow(req: Request, dice: Dice, i: nat, row: Row) {
    row.diff == req.diff && RunSeed(req, dice, i, row.seed) && row.game == dice.play(row.seed, i)
  }

  lemma {:induction false} PlayedRows(req: Request, dice: Dice, run: nat, count: nat)
    requires run <= count
    ensures var rows := Played(req, dice, run, count);
      && |rows| <= count - run && (!req.until ==> |rows| == count - run)
      && (forall i: nat :: i < |rows| ==> RunRow(req, dice, run + i, rows[i]))
      && (forall i: nat :: req.until && i < |rows| - 1 ==> rows[i].game.won)
      && (|rows| < count - run ==> rows != [] && !rows[|rows| - 1].game.won)
    decreases count - run
  {
    hide RunRow;
    if run < count {
      RowRuns(req, dice, run);
      PlayedRows(req, dice, run + 1, count);
      var rest := Played(req, dice, run + 1, count);
      forall i: nat | 0 < i < |Played(req, dice, run, count)|
        ensures RunRow(req, dice, run + i, Played(req, dice, run, count)[i])
      {
        assert RunRow(req, dice, run + 1 + (i - 1), rest[i - 1]);
      }
    }
  }

  lemma {:induction false} RowRuns(req: Request, dice: Dice, run: nat)
    ensures RunRow(req, dice, run, RowOf(req, dice, run))
  {}

  // Three lines for each game, in order.
  lemma {:induction false} GameLineAt(rows: seq<Row>, i: nat)
    requires i < |rows|
    ensures |GameLines(rows)| == 3 * |rows|
    ensures GameLines(rows)[3 * i] == ReqGame(rows[i].diff, rows[i].seed)
    ensures GameLines(rows)[3 * i + 1] == Seed(rows[i].diff, rows[i].seed)
    ensures GameLines(rows)[3 * i + 2] == Outcome(rows[i])
    decreases |rows|
  {
    var init := rows[..|rows| - 1];
    if i < |init| {
      GameLineAt(init, i);
    } else if init != [] {
      GameLineAt(init, 0);
    }
  }

  // The lines from position `at` on announce and report run i.
  ghost predicate RunSent(req: Request, dice: Dice, lines: seq<Line>, at: nat, i: nat, row: Row) {
    && at + 2 < |lines| && RunRow(req, dice, i, row)
    && lines[at] == ReqGame(row.diff, row.seed) && lines[at + 1] == Seed(row.diff, row.seed)
    && lines[at + 2] == Outcome(row)
  }

  // What an `until` request is told: its first loss, or that there was none.
  ghost predicate VerdictLine(req: Request, rows: seq<Row>, line: Line)
    requires req.seed.Some?
  {
    if rows != [] && !rows[|rows| - 1].game.won then
      line == LossFound(req.diff, req.seed.value, |rows| - 1, rows[|rows| - 1].game)
    else line == NoLoss(req.diff, req.seed.value, |rows|)
  }

  lemma {:induction false} RunsSent(req: Request, dice: Dice, wait: seq<Line>, rows: seq<Row>, tail: seq<Line>, i: nat)
    requires i < |rows| && RunRow(req, dice, i, rows[i])
    ensures RunSent(req, dice, wait + GameLines(rows) + tail, |wait| + 3 * i, i, rows[i])
  {
    hide RunRow, GameLines;
    GameLineAt(rows, i);
  }

  lemma {:induction false} ReplyParts(req: Request, dice: Dice, count: nat)
    requires req.until ==> req.seed.Some?
    ensures var rows := Played(req, dice, 0, count);
      var lines, from, last := Reply(req, dice, count), |Waiting(req, count)|, |Reply(req, dice, count)| - 1;
      && lines == Waiting(req, count) + GameLines(rows) + (Verdict(req, rows) + [ReqDone(req.diff, |rows|)])
      && |lines| == from + 3 * |rows| + (if req.until then 2 else 1)
      && from == (if req.heavy then 1 else 0)
      && (req.heavy ==> lines[0] == ReqWait(req.diff, if req.seed.Some? then req.seed.value else count))
      && (req.until ==> VerdictLine(req, rows, lines[last - 1]))
      && lines[last] == ReqDone(req.diff, |rows|)
  {
    hide Played, GameLines;
    NoGames();
    var rows := Played(req, dice, 0, count);
    if rows != [] { GameLineAt(rows, 0); }
  }

  /** What is sent for a request: a notice if it has to wait; then three lines for each game, all naming the requested
      difficulty and the requested seed, or else the seed drawn for that run, with the game that this seed plays in this
      run; for an `until` request the first loss, or that there was none; and how many games there were. There are
      `count` games, or fewer if an `until` request meets a loss, which then is the last and the only one. */
  lemma {:induction false} ReplySays(req: Request, dice: Dice, count: nat) returns (rows: seq<Row>)
    requires req.until ==> req.seed.Some?
    ensures var lines := Reply(req, dice, count);
      var from, last := if req.heavy then 1 else 0, |lines| - 1;
      && |lines| == from + 3 * |rows| + (if req.until then 2 else 1)
      && (req.heavy ==> lines[0] == ReqWait(req.diff, if req.seed.Some? then req.seed.value else count))
      && (forall i: nat :: i < |rows| ==> RunSent(req, dice, lines, from + 3 * i, i, rows[i]))
      && |rows| <= count && (forall i: nat :: req.until && i < |rows| - 1 ==> rows[i].game.won)
      && (|rows| < count ==> req.until && rows != [] && !rows[|rows| - 1].game.won)
      && (req.until ==> VerdictLine(req, rows, lines[last - 1]))
      && lines[last] == ReqDone(req.diff, |rows|)
  {
    hide RunRow, Played, GameLines, RunSent, Reply, Waiting, Verdict, VerdictLine;
    rows := Played(req, dice, 0, count);
    PlayedRows(req, dice, 0, count);
    ReplyParts(req, dice, count);
    forall i: nat | i < |rows|
      ensures RunSent(req, dice, Reply(req, dice, count), |Waiting(req, count)| + 3 * i, i, rows[i])
    {
      assert RunRow(req, dice, 0 + i, rows[i]);
      RunsSent(req, dice, Waiting(req, count), rows, Verdict(req, rows) + [ReqDone(req.diff, |rows|)], i);
    }
  }

  /** Requested games under interleaving. For every mix of the server's reply with broadcasts, the client returns as
      many games as `reqdone` says, of the boards that were played, in order, with the right loss report; and they are
      exactly the games that were played if and only if the broadcasts are harmless. */
  lemma {:induction false} RequestSurvives(req: Request, dice: Dice, count: nat, mix: seq<Sent>)
    requires req.until ==> req.seed.Some?
    requires Own(mix) == Reply(req, dice, count) && Public(mix)
    ensures var answer, rows := Read(FRESH, LinesIn(mix)), Played(req, dice, 0, count);
      && answer.Finished? && answer.played == |answer.games|
      && SameBoards(answer.games, rows) && ToldRight(req, answer.loss, rows, count)
      && (answer.games == rows <==> Harmless(FRESH, mix))
  {
    hide Harmless, Tidy, Reply, Played;
    ReplyTidy(req, dice, count);
    ReplyRead(req, dice, count);
    ToldIsRight(req, dice, count);
    var got := MixRead(FRESH, FRESH, mix);
    assert [] + got == got;
  }

  /** So the i-th game returned is of the requested difficulty and seed, or of the seed drawn for run i, and when the
      broadcasts are harmless it is the one this seed plays in run i. */
  lemma {:induction false} AnswerAsRequested(req: Request, dice: Dice, count: nat, mix: seq<Sent>, i: nat)
    requires req.until ==> req.seed.Some?
    requires Own(mix) == Reply(req, dice, count) && Public(mix)
    ensures var answer := Read(FRESH, LinesIn(mix));
      && answer.Finished?
      && (i < |answer.games| ==>
            && answer.games[i].diff == req.diff && RunSeed(req, dice, i, answer.games[i].seed)
            && (Harmless(FRESH, mix) ==> RunRow(req, dice, i, answer.games[i])))
  {
    hide Harmless, Reply, Played, Read, RunSeed, Public;
    RequestSurvives(req, dice, count, mix);
    PlayedRows(req, dice, 0, count);
    if i < |Played(req, dice, 0, count)| { assert RunRow(req, dice, 0 + i, Played(req, dice, 0, count)[i]); }
  }

  /** When the broadcasts are not harmless, the client returns some broadcast game, of the same board, in place of
      the one that was played for it. */
  lemma {:induction false} BroadcastSteals(req: Request, dice: Dice, count: nat, mix: seq<Sent>)
    requires req.until ==> req.seed.Some?
    requires Own(mix) == Reply(req, dice, count) && Public(mix) && !Harmless(FRESH, mix)
    ensures var answer, rows := Read(FRESH, LinesIn(mix)), Played(req, dice, 0, count);
      && answer.Finished? && |answer.games| == |rows|
      && exists i :: 0 <= i < |rows| && answer.games[i] != rows[i] && Sent(Outcome(answer.games[i]), true) in mix
  {
    hide Harmless, Tidy, Reply, Played;
    ReplyTidy(req, dice, count);
    var got := MixRead(FRESH, FRESH, mix);
    assert [] + got == got;
    var i := FirstDifference(got, Played(req, dice, 0, count));
  }

  lemma {:induction false} FirstDifference(a: seq<Row>, b: seq<Row>) returns (i: nat)
    requires |a| == |b| && a != b
    ensures i < |a| && a[i] != b[i]
  {
    i :| i < |a| && a[i] != b[i];
  }

  // The shortest such mix: one game, and a broadcast of its board before its own outcome.
  function StolenMix(diff: string, seed: int, mine: Game, theirs: Game): seq<Sent> {
    [Sent(ReqGame(diff, seed), false), Sent(Outcome(Row(diff, seed, theirs)), true),
     Sent(Seed(diff, seed), false), Sent(Outcome(Row(diff, seed, mine)), false), Sent(ReqDone(diff, 1), false)]
  }

  lemma {:induction false} FiveLines(mix: seq<Sent>)
    requires |mix| == 5
    requires mix[1].broadcast && !mix[0].broadcast && !mix[2].broadcast && !mix[3].broadcast && !mix[4].broadcast
    ensures Own(mix) == [mix[0].line, mix[2].line, mix[3].line, mix[4].line]
  {
    var m1 := mix[1..];
    var m2 := m1[1..];
    var m3 := m2[1..];
    var m4 := m3[1..];
    assert m4[1..] == [];
    assert Own(m4) == [mix[4].line];
    assert Own(m3) == [mix[3].line, mix[4].line];
    assert Own(m1) == Own(m2) == [mix[2].line, mix[3].line, mix[4].line];
  }

  lemma {:induction false} OneGameReply(diff: string, seed: int, mine: Game)
    ensures Reply(Request(diff, Some(seed), 1, false, false), Dice(run => seed, (s, run) => mine), 1)
         == [ReqGame(diff, seed), Seed(diff, seed), Outcome(Row(diff, seed, mine)), ReqDone(diff, 1)]
  {
    var req := Request(diff, Some(seed), 1, false, false);
    var dice := Dice(run => seed, (s, run) => mine);
    var row := Row(diff, seed, mine);
    assert Played(req, dice, 0, 1) == [row];
    assert GameLines([row]) == LinesFor(row) by { assert [row][..0] == []; }
  }

  /** Such mixes exist, and a broadcast that equals the client's own game does no harm. */
  lemma {:induction false} StolenMixHarm(diff: string, seed: int, mine: Game, theirs: Game)
    ensures var mix := StolenMix(diff, seed, mine, theirs);
      && Own(mix) == Reply(Request(diff, Some(seed), 1, false, false), Dice(run => seed, (s, run) => mine), 1)
      && Public(mix) && !Undisturbed(FRESH, mix)
      && (Harmless(FRESH, mix) <==> mine == theirs)
  {
    hide Own, Reply;
    var mix := StolenMix(diff, seed, mine, theirs);
    FiveLines(mix);
    OneGameReply(diff, seed, mine);
    var rest, waiting := mix[1..], Take(FRESH, mix[0].line);
    assert rest[1..] == mix[2..] && rest[0] == mix[1];
    OwnTail(mix);
    var row := Row(diff, seed, mine);
    OneGameTidy(row, [ReqDone(diff, 1)]);
    assert LinesFor(row) + [ReqDone(diff, 1)] == Own(mix);
    assert RowsIn(Own(mix)) == RowsIn(Own(rest));
    QuietHarmless(Take(waiting, mix[1].line), mix[2..]);
  }

  lemma {:induction false} OwnTail(mix: seq<Sent>)
    requires mix != [] && !mix[0].broadcast
    ensures Own(mix)[1..] == Own(mix[1..])
  {}

  lemma {:induction false} QuietHarmless(r: Reader, mix: seq<Sent>)
    requires forall m :: m in mix ==> !m.broadcast
    ensures Harmless(r, mix)
    decreases |mix|
  {
    if mix != [] {
      assert mix[0] in mix;
      QuietHarmless(Take(r, mix[0].line), mix[1..]);
    }
  }

  // Without a last line the client goes on waiting.
  lemma {:induction false} NoEnd(r: Reader, mix: seq<Sent>)
    requires Public(mix) && Plain(Own(mix))
    ensures Read(r, LinesIn(mix)).TimedOut?
    decreases |mix|
  {
    if mix != [] {
      assert mix[0] in mix;
      if !mix[0].broadcast { assert mix[0].line in Own(mix); }
      assert forall l :: l in Own(mix[1..]) ==> l in Own(mix);
      assert LinesIn(mix)[1..] == LinesIn(mix[1..]);
      NoEnd(Take(r, mix[0].line), mix[1..]);
    }
  }

  /** A client whose connection dies before the last line of its reply returns nothing rather than a part. */
  lemma {:induction false} CutReplyTimesOut(req: Request, dice: Dice, count: nat, room: nat, mix: seq<Sent>)
    requires Own(mix) == Cut(Reply(req, dice, count), room) && room < |Reply(req, dice, count)| && Public(mix)
    ensures Read(FRESH, LinesIn(mix)).TimedOut?
  {
    hide GameLines, Played, Read, LinesIn, Own;
    var rows := Played(req, dice, 0, count);
    var all := Waiting(req, count) + GameLines(rows) + Verdict(req, rows);
    GamesRead(rows, NoInfo);
    assert Reply(req, dice, count) == all + [ReqDone(req.diff, |rows|)];
    assert Cut(Reply(req, dice, count), room) == all[..room];
    assert forall l :: l in all[..room] ==> l in all;
    NoEnd(FRESH, mix);
  }
}
