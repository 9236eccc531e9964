/** The telemetry line queue and the outbound byte buffer of a raw-TCP session. */
module Telemetry {
  import opened Naturals

  const Q_CAP := 256
  const SEND_MAX := 16384
  const LINE_MAX := 512

  // A metric line as the producer formats it: no line break and no terminator.
  predicate Clean(line: string) {
    '\n' !in line && '\0' !in line
  }

  // Lines as they are copied out of the queue, each followed by a line break.
  function Text(lines: seq<string>): string {
    if lines == [] then "" else lines[0] + "\n" + Text(lines[1..])
  }

  // How many lines a drain takes into a buffer of cap bytes of which `used` are filled.
  function Taken(lines: seq<string>, used: nat, cap: nat): (k: nat)
    ensures k <= |lines|
  {
    if lines == [] || used + |lines[0]| + 2 > cap then 0
    else 1 + Taken(lines[1..], used + |lines[0]| + 1, cap)
  }

  function Breaks(text: string): nat {
    if text == "" then 0 else (if text[0] == '\n' then 1 else 0) + Breaks(text[1..])
  }

  lemma {:induction false} BreaksConcat(a: string, b: string)
    ensures Breaks(a + b) == Breaks(a) + Breaks(b)
  {
    if a == "" {
      assert a + b == b;
    } else {
      assert (a + b)[1..] == a[1..] + b;
      BreaksConcat(a[1..], b);
    }
  }

  lemma {:induction false} NoBreaks(line: string)
    requires '\n' !in line
    ensures Breaks(line) == 0
  {
    if line != "" { NoBreaks(line[1..]); }
  }

  /** Counting line breaks counts the lines of a batch. */
  lemma {:induction false} BatchLines(lines: seq<string>)
    requires forall l :: l in lines ==> Clean(l)
    ensures Breaks(Text(lines)) == |lines|
  {
    if lines != [] {
      assert Clean(lines[0]);
      NoBreaks(lines[0]);
      BreaksConcat(lines[0], "\n" + Text(lines[1..]));
      BreaksConcat("\n", Text(lines[1..]));
      assert lines[0] + ("\n" + Text(lines[1..])) == Text(lines);
      assert Breaks("\n") == 1;
      BatchLines(lines[1..]);
    }
  }

  lemma {:induction false} TextSnoc(lines: seq<string>, line: string)
    ensures Text(lines + [line]) == Text(lines) + line + "\n"
  {
    if lines == [] {
      assert Text([line]) == line + "\n" + "";
    } else {
      assert (lines + [line])[1..] == lines[1..] + [line];
      TextSnoc(lines[1..], line);
    }
  }

  // ---- what is on its way ----

  // Numbers stand for metric lines, in the order they were queued.
  datatype Block = Extra(text: string) | Batch(lines: seq<nat>)

  ghost function LinesOf(numbers: seq<nat>, history: seq<string>): (lines: seq<string>)
    requires forall n :: n in numbers ==> n < |history|
    ensures |lines| == |numbers|
  {
    seq(|numbers|, i requires 0 <= i < |numbers| => assert numbers[i] in numbers; history[numbers[i]])
  }

  ghost function Metrics(blocks: seq<Block>): seq<nat> {
    if blocks == [] then []
    else Metrics(blocks[..|blocks| - 1]) + (match blocks[|blocks| - 1] case Extra(_) => [] case Batch(lines) => lines)
  }

  ghost predicate Known(blocks: seq<Block>, n: nat) {
    forall b :: b in blocks && b.Batch? ==> forall x :: x in b.lines ==> x < n
  }

  ghost function Bytes(block: Block, history: seq<string>): string
    requires block.Batch? ==> forall x :: x in block.lines ==> x < |history|
  {
    match block
    case Extra(text) => text + "\n"
    case Batch(lines) => Text(LinesOf(lines, history)) + "\n"
  }

  ghost function Render(blocks: seq<Block>, history: seq<string>): string
    requires Known(blocks, |history|)
  {
    if blocks == [] then ""
    else
      assert blocks[|blocks| - 1] in blocks;
      Render(blocks[..|blocks| - 1], history) + Bytes(blocks[|blocks| - 1], history)
  }

  lemma {:induction false} KnownSnoc(blocks: seq<Block>, b: Block, n: nat)
    requires Known(blocks, n) && (b.Batch? ==> forall x :: x in b.lines ==> x < n)
    ensures Known(blocks + [b], n)
  {}

  lemma {:induction false} RenderSnoc(blocks: seq<Block>, b: Block, history: seq<string>)
    requires Known(blocks, |history|) && (b.Batch? ==> forall x :: x in b.lines ==> x < |history|)
    ensures Known(blocks + [b], |history|)
    ensures Render(blocks + [b], history) == Render(blocks, history) + Bytes(b, history)
    ensures Metrics(blocks + [b]) == Metrics(blocks) + (match b case Extra(_) => [] case Batch(lines) => lines)
  {
    KnownSnoc(blocks, b, |history|);
    assert (blocks + [b])[..|blocks|] == blocks;
  }

  lemma {:induction false} MetricsSnoc(a: seq<Block>, last: Block)
    ensures Metrics(a + [last]) == Metrics(a) + Metrics([last])
  {
    assert (a + [last])[..|a|] == a && [last][..0] == [];
    assert Metrics([last]) == Metrics([]) + (match last case Extra(_) => [] case Batch(lines) => lines);
  }

  lemma {:induction false} MetricsConcat(a: seq<Block>, b: seq<Block>)
    ensures Metrics(a + b) == Metrics(a) + Metrics(b)
    decreases |b|
  {
    hide Metrics;
    if b == [] {
      NoMetrics();
      assert a + b == a;
    } else {
      var init, last := b[..|b| - 1], b[|b| - 1];
      MetricsConcat(a, init);
      MetricsSnoc(init, last);
      MetricsSnoc(a + init, last);
      assert b == init + [last] && a + b == (a + init) + [last];
    }
  }

  lemma {:induction false} RenderConcat(a: seq<Block>, b: seq<Block>, history: seq<string>)
    requires Known(a, |history|) && Known(b, |history|)
    ensures Known(a + b, |history|) && Render(a + b, history) == Render(a, history) + Render(b, history)
    decreases |b|
  {
    hide Bytes;
    if b == [] {
      assert a + b == a;
    } else {
      var init, last := b[..|b| - 1], b[|b| - 1];
      assert last in b;
      RenderConcat(a, init, history);
      assert (a + b)[..|a + b| - 1] == a + init && (a + b)[|a + b| - 1] == last;
      assert Render(b, history) == Render(init, history) + Bytes(last, history);
    }
  }

  lemma {:induction false} LinesLater(numbers: seq<nat>, history: seq<string>, line: string)
    requires forall n :: n in numbers ==> n < |history|
    ensures LinesOf(numbers, history + [line]) == LinesOf(numbers, history)
  {
    var a, b := LinesOf(numbers, history), LinesOf(numbers, history + [line]);
    forall i | 0 <= i < |numbers| ensures a[i] == b[i] { assert numbers[i] in numbers; }
  }

  // Queueing another line changes nothing that is already on its way.
  lemma {:induction false} RenderLater(blocks: seq<Block>, history: seq<string>, line: string)
    requires Known(blocks, |history|)
    ensures Known(blocks, |history + [line]|) && Render(blocks, history + [line]) == Render(blocks, history)
  {
    if blocks != [] {
      var last := blocks[|blocks| - 1];
      assert last in blocks;
      RenderLater(blocks[..|blocks| - 1], history, line);
      if last.Batch? { LinesLater(last.lines, history, line); }
    }
  }

  ghost predicate Increasing(xs: seq<nat>) {
    forall i, j :: 0 <= i < j < |xs| ==> xs[i] < xs[j]
  }

  // ---- the books ----

  /** Everything that happened to the metric lines of a session. `flushed` and `pending` are the blocks of this
      connection that have left the send buffer and that are still in it. */
  datatype Books = Books(history: seq<string>, gone: seq<nat>, flushed: seq<Block>, pending: seq<Block>,
                         waiting: seq<nat>, sent: nat, sentBefore: nat, dropped: nat) {
    ghost predicate Valid() {
      && (forall l :: l in history ==> Clean(l))
      && Known(flushed, |history|) && Known(pending, |history|)
      && Increasing(gone + Metrics(flushed) + Metrics(pending) + waiting)
      && (forall x :: x in waiting ==> x < |history|)
      && (forall x :: x in gone + Metrics(flushed) + Metrics(pending) ==> x < |history|)
      && sent == sentBefore + |Metrics(flushed)|
      && |history| == sent + dropped + |waiting| + |Metrics(pending)|
    }

    // A line joins the queue, which may cost the oldest one.
    ghost function Push(line: string): Books {
      var more := this.(history := history + [line], waiting := waiting + [|history|]);
      if |waiting| >= Q_CAP then more.(waiting := more.waiting[1..], dropped := dropped + 1) else more
    }

    ghost function AppendExtra(text: string): Books {
      this.(pending := pending + [Extra(text)])
    }

    // The first k queued lines move to the send buffer, or are lost if they do not fit.
    ghost function Move(k: nat, fits: bool): Books
      requires k <= |waiting|
    {
      if fits then this.(pending := pending + [Batch(waiting[..k])], waiting := waiting[k..])
      else this.(waiting := waiting[k..], dropped := dropped + k)
    }

    ghost function FlushAll(): Books {
      this.(flushed := flushed + pending, pending := [], sent := sent + |Metrics(pending)|)
    }

    // The connection ends; what the buffer still holds is lost.
    ghost function Teardown(): Books {
      this.(gone := gone + Metrics(flushed) + Metrics(pending), flushed := [], pending := [],
            dropped := dropped + |Metrics(pending)|, sentBefore := sent)
    }

    lemma {:induction false} PushValid(line: string)
      requires Valid() && Clean(line)
      ensures Push(line).Valid()
    {
      hide Clean, Metrics, Increasing;
      var before := gone + Metrics(flushed) + Metrics(pending);
      var more := waiting + [|history|];
      NextNumber(before, waiting, |history|);
      if |waiting| >= Q_CAP {
        assert more == more[..1] + more[1..];
        forall x | x in more[1..] ensures x in more {}
        DropMiddle(before, more[..1], more[1..], more);
      }
    }

    lemma {:induction false} AppendExtraValid(text: string)
      requires Valid()
      ensures AppendExtra(text).Valid() && Metrics(AppendExtra(text).pending) == Metrics(pending)
    {
      RenderSnoc(pending, Extra(text), history);
    }

    lemma {:induction false} MoveValid(k: nat, fits: bool)
      requires Valid() && k <= |waiting|
      ensures Move(k, fits).Valid()
    {
      hide Clean, Increasing, Metrics;
      var before := gone + Metrics(flushed) + Metrics(pending);
      var front, back := waiting[..k], waiting[k..];
      assert front + back == waiting;
      forall x | x in back ensures x in waiting {}
      if fits {
        forall x | x in front ensures x in waiting {}
        RenderSnoc(pending, Batch(front), history);
        assert before + waiting == gone + Metrics(flushed) + (Metrics(pending) + front) + back;
        forall x | x in gone + Metrics(flushed) + (Metrics(pending) + front) ensures x < |history| {
          assert x in before || x in front;
        }
      } else {
        DropMiddle(before, front, back, waiting);
      }
    }

    lemma {:induction false} FlushAllValid()
      requires Valid()
      ensures FlushAll().Valid()
    {
      hide Clean, Metrics, Increasing;
      MetricsConcat(flushed, pending);
      NoMetrics();
      var a, b := Metrics(flushed), Metrics(pending);
      assert gone + a + b + waiting == gone + (a + b) + [] + waiting;
      assert gone + a + b == gone + (a + b) + [];
    }

    lemma {:induction false} TeardownValid()
      requires Valid()
      ensures Teardown().Valid()
    {
      assert gone + Metrics(flushed) + Metrics(pending) + [] + [] == gone + Metrics(flushed) + Metrics(pending);
    }
  }

  lemma {:induction false} NoMetrics()
    ensures Metrics([]) == []
  {}

  lemma {:induction false} NextNumber(a: seq<nat>, b: seq<nat>, n: nat)
    requires Increasing(a + b) && (forall x :: x in a ==> x < n) && forall x :: x in b ==> x < n
    ensures Increasing(a + (b + [n]))
  {
    var all := a + (b + [n]);
    assert all == (a + b) + [n];
    forall i | 0 <= i < |a + b| ensures (a + b)[i] < n { assert (a + b)[i] in a || (a + b)[i] in b; }
  }

  lemma {:induction false} DropMiddle(a: seq<nat>, b: seq<nat>, c: seq<nat>, bc: seq<nat>)
    requires bc == b + c && Increasing(a + bc)
    ensures Increasing(a + c)
  {
    var all, less := a + bc, a + c;
    forall i, j | 0 <= i < j < |less| ensures less[i] < less[j] {
      var i', j' := if i < |a| then i else i + |b|, if j < |a| then j else j + |b|;
      assert less[i] == all[i'] && less[j] == all[j'];
    }
  }

  // ---- draining ----

  lemma {:induction false} TakenText(lines: seq<string>, k: nat, used: nat, cap: nat)
    requires k < Taken(lines, used, cap)
    ensures k < |lines| && used + |Text(lines[..k])| + |lines[k]| + 2 <= cap
    decreases k
  {
    if k > 0 {
      TakenText(lines[1..], k - 1, used + |lines[0]| + 1, cap);
      assert lines[..k][0] == lines[0] && lines[..k][1..] == lines[1..][..k - 1];
    }
  }

  lemma {:induction false} TakenStops(lines: seq<string>, k: nat, used: nat, cap: nat)
    requires k == Taken(lines, used, cap) && k < |lines|
    ensures used + |Text(lines[..k])| + |lines[k]| + 2 > cap
    decreases k
  {
    if k > 0 {
      TakenStops(lines[1..], k - 1, used + |lines[0]| + 1, cap);
      assert lines[..k][0] == lines[0] && lines[..k][1..] == lines[1..][..k - 1];
    }
  }

  // The loop that drains has taken k lines; it goes on exactly while k is below Taken.
  lemma {:induction false} DrainGoesOn(lines: seq<string>, k: nat, cap: nat)
    requires k <= Taken(lines, 0, cap)
    ensures k < |lines| && |Text(lines[..k])| + |lines[k]| + 2 <= cap <==> k < Taken(lines, 0, cap)
    ensures k < |lines| ==> Text(lines[..k + 1]) == Text(lines[..k]) + lines[k] + "\n"
  {
    if k < Taken(lines, 0, cap) {
      TakenText(lines, k, 0, cap);
    } else if k < |lines| {
      TakenStops(lines, k, 0, cap);
    }
    if k < |lines| {
      TextSnoc(lines[..k], lines[k]);
      assert lines[..k] + [lines[k]] == lines[..k + 1];
    }
  }

  // A drained batch always leaves room for one more byte.
  lemma {:induction false} DrainedSize(lines: seq<string>, cap: nat)
    requires Taken(lines, 0, cap) > 0
    ensures |Text(lines[..Taken(lines, 0, cap)])| < cap
  {
    var k := Taken(lines, 0, cap) - 1;
    TakenText(lines, k, 0, cap);
    DrainGoesOn(lines, k, cap);
  }

  /** A drained batch fits an idle send buffer unless it has exactly SEND_MAX - 1 bytes: then all of its
      lines are lost although nothing else was waiting to be sent. */
  lemma {:induction false} IdleLoss(lines: seq<string>)
    requires Taken(lines, 0, SEND_MAX) > 0
    ensures var batch := Text(lines[..Taken(lines, 0, SEND_MAX)]);
      0 + |batch| + 2 > SEND_MAX <==> |batch| == SEND_MAX - 1
  {
    DrainedSize(lines, SEND_MAX);
  }

  /** A flush of a non-empty queue through an idle buffer and a socket that takes everything: unless the batch has
      exactly SEND_MAX - 1 bytes its lines count as sent and follow, in order, what the peer already has; otherwise they
      count as dropped. */
  lemma {:induction false} FlushSends(b: Books, was: seq<string>)
    requires b.Valid() && b.pending == [] && was == LinesOf(b.waiting, b.history)
    requires was != [] && |was[0]| < LINE_MAX
    ensures var k := Taken(was, 0, SEND_MAX); var batch := Text(was[..k]);
      var d := b.Move(k, 0 + |batch| + 2 <= SEND_MAX).FlushAll();
      && k > 0 && d.Valid() && d.history == b.history && d.pending == [] && d.waiting == b.waiting[k..]
      && (if |batch| == SEND_MAX - 1 then d.sent == b.sent && d.dropped == b.dropped + k
          else d.sent == b.sent + k && d.dropped == b.dropped &&
               Render(d.flushed, d.history) == Render(b.flushed, b.history) + batch + "\n")
  {
    hide Metrics, Increasing, Render, Books.Valid, Text, LinesOf;
    var k := Taken(was, 0, SEND_MAX);
    IdleLoss(was);
    BooksMoved(b, was, k);
    NoMetrics();
    NoRender(b.history);
    BooksFlushed(b.Move(k, true));
    BooksFlushed(b.Move(k, false));
  }

  lemma {:induction false} NoRender(history: seq<string>)
    ensures Known([], |history|) && Render([], history) == ""
  {}

  function Repeat(line: string, n: nat): seq<string> {
    if n == 0 then [] else [line] + Repeat(line, n - 1)
  }

  // Total size of n lines of w bytes, line breaks included.
  ghost function Total(w: nat, n: nat): nat {
    if n == 0 then 0 else w + Total(w, n - 1)
  }

  lemma {:induction false} TotalIs(w: nat, n: nat)
    ensures Total(w, n) == n * w
  {
    if n > 0 {
      TotalIs(w, n - 1);
      assert n * w == (n - 1) * w + w;
    }
  }

  lemma {:induction false} RepeatText(line: string, n: nat)
    ensures |Text(Repeat(line, n))| == Total(|line| + 1, n) && |Repeat(line, n)| == n
    ensures forall l :: l in Repeat(line, n) ==> l == line
  {
    if n > 0 { RepeatText(line, n - 1); }
  }

  lemma {:induction false} RepeatTaken(line: string, n: nat, used: nat)
    requires used + Total(|line| + 1, n) + 1 <= SEND_MAX
    ensures Taken(Repeat(line, n), used, SEND_MAX) == n
    decreases n
  {
    if n > 0 { RepeatTaken(line, n - 1, used + |line| + 1); }
  }

  /** Such a batch exists: lines the producer can format, taken together in one drain. */
  lemma {:induction false} IdleLossHappens() returns (lines: seq<string>)
    ensures (forall l :: l in lines ==> Clean(l) && |l| < LINE_MAX) && |lines| <= Q_CAP
    ensures Taken(lines, 0, SEND_MAX) == |lines| && |Text(lines)| == SEND_MAX - 1
  {
    // 129 lines of 126 characters and their line breaks make SEND_MAX - 1 bytes.
    var line: string := seq(126, _ => 'm');
    lines := [line] + Repeat(line, 128);
    RepeatText(line, 128);
    TotalIs(127, 128);
    RepeatTaken(line, 128, 127);
    assert lines[1..] == Repeat(line, 128);
  }

  // ---- the session ----

  // What one call to the socket answers: the bytes it takes (none means that the peer has closed), that it is not
  // ready, or that it failed.
  datatype Answer = Took(n: nat) | NotReady | Failed

  // How the calls of one flush are answered, one after the other.
  type Socket = nat -> Answer

  // The bytes that a flush of `left` bytes hands over, from the i-th call on.
  function Accepted(socket: Socket, i: nat, left: nat): (n: nat)
    ensures n <= left
    decreases left
  {
    if left == 0 || !socket(i).Took? || socket(i).n == 0 then 0
    else
      var n := Least(socket(i).n, left);
      n + Accepted(socket, i + 1, left - n)
  }

  // Whether the flush meets a failure or the end of the connection.
  predicate Severed(socket: Socket, i: nat, left: nat)
    decreases left
  {
    left > 0 && match socket(i)
    case Took(n) => n == 0 || Severed(socket, i + 1, left - Least(n, left))
    case NotReady => false
    case Failed => true
  }

  // One call to the socket.
  lemma {:induction false} OneCall(socket: Socket, i: nat, left: nat)
    requires left > 0
    ensures match socket(i)
      case NotReady => Accepted(socket, i, left) == 0 && !Severed(socket, i, left)
      case Failed => Accepted(socket, i, left) == 0 && Severed(socket, i, left)
      case Took(k) =>
        if k == 0 then Accepted(socket, i, left) == 0 && Severed(socket, i, left)
        else
          var n := Least(k, left);
          && Accepted(socket, i, left) == n + Accepted(socket, i + 1, left - n)
          && (Severed(socket, i, left) <==> Severed(socket, i + 1, left - n))
  {}

  lemma {:induction false} NoCall(socket: Socket, i: nat)
    ensures Accepted(socket, i, 0) == 0 && !Severed(socket, i, 0)
  {}

  datatype NetEvent =
    | Queue(line: string)
    | Control(text: string)
    | FlushBuffer(socket: Socket)
    | FlushQueue(socket: Socket)
    | Disconnect

  function QueuedBy(events: seq<NetEvent>): seq<string> {
    if events == [] then []
    else
      QueuedBy(events[..|events| - 1])
      + (match events[|events| - 1] case Queue(line) => [line] case _ => [])
  }

  // The contents of a ring of Q_CAP slots.
  ghost function RingLines(ring: seq<string>, head: nat, count: nat): (s: seq<string>)
    requires |ring| == Q_CAP
    ensures |s| == count
  {
    seq(count, i requires 0 <= i => ring[(head + i) % Q_CAP])
  }

  class Session {
    const queue: array<string>
    const send: array<char>
    var head: nat
    var count: nat
    var sendLen: nat
    var sendOff: nat
    var metricLines: nat
    var sent: nat
    var dropped: nat
    ghost var books: Books
    // Bytes handed to the peer on this connection.
    ghost var wire: string

    ghost predicate Shape()
      reads this
    {
      && queue.Length == Q_CAP && send.Length == SEND_MAX
      && head < Q_CAP && count <= Q_CAP && sendOff <= sendLen <= SEND_MAX
    }

    ghost function Lines(): (s: seq<string>)
      requires Shape()
      reads this, queue
      ensures |s| == count
    {
      RingLines(queue[..], head, count)
    }

    ghost predicate Valid()
      reads this, queue, send
    {
      && Shape() && books.Valid()
      && Lines() == LinesOf(books.waiting, books.history)
      && send[..sendLen] == Render(books.pending, books.history)
      && wire == Render(books.flushed, books.history) + send[..sendOff]
      && metricLines == |Metrics(books.pending)| && sent == books.sent && dropped == books.dropped
    }

    /** Every line that was queued is sent, dropped, queued or in the send buffer; what the peer has received is
        a prefix of whole lines in the order they were queued, none of them twice. */
    lemma {:induction false} Accounts()
      requires Valid()
      ensures |books.history| == sent + dropped + count + metricLines
      ensures Known(books.flushed + books.pending, |books.history|)
      ensures wire <= Render(books.flushed + books.pending, books.history)
      ensures Increasing(Metrics(books.flushed + books.pending))
    {
      hide RingLines;
      BooksAccount(books, wire, send[..sendLen], sendOff);
      assert send[..sendOff] == send[..sendLen][..sendOff];
    }

    constructor ()
      ensures Valid() && books.history == [] && wire == "" && fresh(queue) && fresh(send)
    {
      queue := new string[Q_CAP](_ => "");
      send := new char[SEND_MAX](_ => ' ');
      head, count, sendLen, sendOff, metricLines, sent, dropped := 0, 0, 0, 0, 0, 0, 0;
      books := Books([], [], [], [], [], 0, 0, 0);
      wire := "";
    }

    method QueuePush(line: string)
      requires Valid() && Clean(line)
      modifies this`head, this`count, this`dropped, this`books, queue
      ensures Valid() && books == old(books).Push(line) && wire == old(wire)
    {
      hide RingLines, Render, Metrics, LinesOf, Clean, Increasing;
      ghost var b, ring := books, queue[..];
      BooksPushed(b, line);
      if count >= Q_CAP {
        RingDrop(queue[..], head, count);
        head := (head + 1) % Q_CAP;
        count := count - 1;
        dropped := dropped + 1;
      }
      RingPush(queue[..], head, count, line);
      var idx := (head + count) % Q_CAP;
      queue[idx] := line;
      count := count + 1;
      books := books.Push(line);
      assert queue[..] == ring[idx := line];
    }

    // Take every queued line that fits into cap bytes.
    method QueueDrain(cap: nat) returns (batch: string)
      requires Shape()
      modifies this`head, this`count
      ensures Shape()
      ensures var was := old(Lines()); var k := Taken(was, 0, cap); batch == Text(was[..k]) && Lines() == was[k..]
    {
      hide RingLines, Taken, Text;
      ghost var was, k := Lines(), 0;
      NoText(was);
      batch := "";
      while count > 0
        invariant Shape() && k <= Taken(was, 0, cap) && count == |was| - k
        invariant batch == Text(was[..k]) && Lines() == was[k..]
        decreases count
      {
        var line := queue[head];
        RingDrop(queue[..], head, count);
        DrainGoesOn(was, k, cap);
        if |batch| + |line| + 2 > cap { break; }
        batch := batch + line + "\n";
        head := (head + 1) % Q_CAP;
        count := count - 1;
        k := k + 1;
      }
      DrainGoesOn(was, k, cap);
    }

    method SendbufAppend(text: string, lines: nat) returns (ok: bool)
      requires Shape()
      modifies this`sendLen, this`metricLines, this`dropped, send
      ensures Shape() && (ok <==> old(sendLen) + |text| + 2 <= SEND_MAX)
      ensures ok ==> send[..sendLen] == old(send[..sendLen]) + text + "\n" && sendLen == old(sendLen) + |text| + 1
      ensures ok ==> metricLines == old(metricLines) + lines && dropped == old(dropped)
      ensures !ok ==> send[..] == old(send[..]) && sendLen == old(sendLen)
      ensures !ok ==> metricLines == old(metricLines) && dropped == old(dropped) + lines
    {
      if sendLen + |text| + 2 > SEND_MAX {
        if lines > 0 { dropped := dropped + lines; }
        return false;
      }
      ghost var was := send[..sendLen];
      for i := 0 to |text|
        invariant Shape() && sendLen == old(sendLen) && metricLines == old(metricLines) && dropped == old(dropped)
        invariant send[..sendLen] == was && send[sendLen..sendLen + i] == text[..i]
      {
        send[sendLen + i] := text[i];
        assert text[..i + 1] == text[..i] + [text[i]];
      }
      assert text[..|text|] == text;
      send[sendLen + |text|] := '\n';
      assert send[..sendLen + |text| + 1] == was + text + "\n";
      sendLen := sendLen + |text| + 1;
      metricLines := metricLines + lines;
      ok := true;
    }

    lemma {:induction false} ValidShape()
      requires Valid()
      ensures Shape() && Lines() == LinesOf(books.waiting, books.history) && |Lines()| == |books.waiting|
    {}

    /** Send as much as the socket takes. Nothing is skipped or repeated; lines count as sent when the buffer has been
        emptied. */
    method FlushSendbuf(socket: Socket) returns (ok: bool)
      requires Valid()
      modifies this`sendLen, this`sendOff, this`metricLines, this`sent, this`books, this`wire
      ensures Valid() && (ok <==> !Severed(socket, 0, old(sendLen) - old(sendOff)))
      ensures var left := old(sendLen) - old(sendOff); var n := Accepted(socket, 0, left);
        && wire == old(wire) + old(send[sendOff..sendOff + n])
        && books == if n == left then old(books).FlushAll() else old(books)
    {
      hide RingLines, Render, Metrics, LinesOf, Increasing, Books.Valid, Session.Valid, Accepted, Severed;
      ValidShape();
      ghost var left := sendLen - sendOff;
      var i: nat := 0;
      assert send[sendOff..sendOff] == "";
      while sendOff < sendLen
        invariant Valid() && Shape() && books == old(books) && sendLen == old(sendLen) && old(sendOff) <= sendOff
        invariant Accepted(socket, 0, left) == sendOff - old(sendOff) + Accepted(socket, i, sendLen - sendOff)
        invariant Severed(socket, 0, left) <==> Severed(socket, i, sendLen - sendOff)
        invariant wire == old(wire) + send[old(sendOff)..sendOff]
        decreases sendLen - sendOff
      {
        OneCall(socket, i, sendLen - sendOff);
        var answer := socket(i);
        if answer.NotReady? { return true; }
        if answer.Failed? || answer.n == 0 { return false; }
        var n := Least(answer.n, sendLen - sendOff);
        assert send[old(sendOff)..sendOff] + send[sendOff..sendOff + n] == send[old(sendOff)..sendOff + n];
        SendSome(n);
        i := i + 1;
      }
      NoCall(socket, i);
      Emptied();
      ok := true;
    }

    // The socket takes n bytes.
    method SendSome(n: nat)
      requires Valid() && Shape() && sendOff + n <= sendLen
      modifies this`sendOff, this`wire
      ensures Valid() && Shape() && sendOff == old(sendOff) + n && wire == old(wire) + send[old(sendOff)..sendOff]
    {
      hide RingLines, Render, Metrics, LinesOf, Increasing, Books.Valid;
      ghost var before, whole := sendOff, send[..sendLen];
      wire := wire + send[sendOff..sendOff + n];
      sendOff := sendOff + n;
      TakeMore(whole, before, n);
      assert send[..sendLen] == whole && Lines() == old(Lines());
    }

    // The whole buffer has been sent: its lines count.
    method Emptied()
      requires Valid() && sendOff == sendLen
      modifies this`sendLen, this`sendOff, this`metricLines, this`sent, this`books
      ensures Valid() && books == old(books).FlushAll() && sendOff == sendLen == 0
    {
      hide RingLines, Render, Metrics, LinesOf, Increasing, Books.Valid;
      BooksFlushed(books);
      assert send[..sendOff] == send[..sendLen];
      sendOff, sendLen := 0, 0;
      if metricLines > 0 {
        sent := sent + metricLines;
        metricLines := 0;
      }
      books := books.FlushAll();
    }

    // Move what the queue holds to the send buffer, or lose it if it does not fit there.
    method MoveQueued()
      requires Valid()
      modifies this`head, this`count, this`sendLen, this`metricLines, this`dropped, this`books, send
      ensures Valid() && sendOff == old(sendOff)
      ensures var was := old(Lines()); var k := Taken(was, 0, SEND_MAX);
        var size := |Text(was[..k])|;
        var fits := old(sendLen) + size + 2 <= SEND_MAX;
        && books == (if k == 0 then old(books) else old(books).Move(k, fits))
        && sendLen == old(sendLen) + (if k > 0 && fits then size + 1 else 0)
    {
      hide RingLines, Render, Metrics, LinesOf, Increasing, Taken, Text, Clean;
      ghost var b, was := books, Lines();
      ghost var k := Taken(was, 0, SEND_MAX);
      var batch := QueueDrain(SEND_MAX);
      BooksMoved(b, was, k);
      if batch != "" {
        var m := CountBreaks(batch);
        var fits := SendbufAppend(batch, m);
        books := books.Move(k, fits);
      }
      assert send[..sendOff] == old(send[..sendOff]);
    }

    /** Move what the queue holds to the send buffer and flush. The batch is lost as a whole exactly when it does not
        fit behind what the buffer already holds; lines count as sent exactly when the socket takes all that is left. */
    method FlushPending(socket: Socket) returns (ok: bool)
      requires Valid()
      modifies this`head, this`count, this`sendLen, this`sendOff, this`metricLines, this`sent, this`dropped, this`books,
        this`wire, send
      ensures Valid()
      ensures var was := old(Lines()); var k := Taken(was, 0, SEND_MAX);
        var size := |Text(was[..k])|;
        var fits := old(sendLen) + size + 2 <= SEND_MAX;
        var moved := if k == 0 then old(books) else old(books).Move(k, fits);
        var left := old(sendLen) - old(sendOff) + (if k > 0 && fits then size + 1 else 0);
        && books == (if Accepted(socket, 0, left) == left then moved.FlushAll() else moved)
        && (ok <==> !Severed(socket, 0, left))
    {
      hide RingLines, Render, Metrics, LinesOf, Increasing, Taken, Text, Clean, Books.Valid, Session.Valid;
      ValidShape();
      MoveQueued();
      ok := FlushSendbuf(socket);
    }

    // Heartbeats and authentication lines are not metric lines.
    method SendControl(text: string)
      requires Valid()
      modifies this`sendLen, this`metricLines, this`dropped, this`books, send
      ensures Valid()
      ensures books == if old(sendLen) + |text| + 2 <= SEND_MAX then old(books).AppendExtra(text) else old(books)
    {
      hide RingLines, Render, Metrics, LinesOf, Increasing;
      BooksExtra(books, text);
      var ok := SendbufAppend(text, 0);
      if ok { books := books.AppendExtra(text); }
      assert !ok ==> send[..sendLen] == old(send[..sendLen]);
      assert send[..sendOff] == old(send[..sendOff]);
    }

    // The connection is gone: what the buffer holds counts as dropped.
    method Teardown()
      requires Valid()
      modifies this`sendLen, this`sendOff, this`metricLines, this`dropped, this`books, this`wire
      ensures Valid() && books == old(books).Teardown() && wire == ""
    {
      hide RingLines, Metrics, LinesOf, Increasing;
      books.TeardownValid();
      sendOff, sendLen := 0, 0;
      if metricLines > 0 {
        dropped := dropped + metricLines;
        metricLines := 0;
      }
      books, wire := books.Teardown(), "";
    }

    /** Any sequence of pushes, control lines, flushes and disconnects keeps the accounts, whatever the socket
        takes. */
    method Run(events: seq<NetEvent>)
      requires Valid() && forall e :: e in events && e.Queue? ==> Clean(e.line)
      modifies this, queue, send
      ensures Valid() && books.history == old(books.history) + QueuedBy(events)
    {
      hide Session.Valid, Clean;
      for i := 0 to |events|
        invariant Valid() && books.history == old(books.history) + QueuedBy(events[..i])
      {
        assert events[..i + 1][..i] == events[..i];
        assert events[i] in events;
        match events[i] {
          case Queue(line) => QueuePush(line);
          case Control(text) => SendControl(text);
          case FlushBuffer(socket) => var ok := FlushSendbuf(socket);
          case FlushQueue(socket) => var ok := FlushPending(socket);
          case Disconnect => Teardown();
        }
      }
      assert events[..|events|] == events;
    }
  }

  lemma {:induction false} TakeMore(whole: string, k: nat, n: nat)
    requires k + n <= |whole|
    ensures whole[..k + n] == whole[..k] + whole[k..k + n]
  {}

  method CountBreaks(batch: string) returns (m: nat)
    ensures m == Breaks(batch)
  {
    m := 0;
    for i := 0 to |batch|
      invariant m == Breaks(batch[..i])
    {
      assert batch[..i + 1] == batch[..i] + [batch[i]];
      BreaksConcat(batch[..i], [batch[i]]);
      if batch[i] == '\n' { m := m + 1; }
    }
    assert batch[..|batch|] == batch;
  }

  // ---- one step of the ring, one step of the books ----

  lemma {:induction false} RingDrop(ring: seq<string>, head: nat, count: nat)
    requires |ring| == Q_CAP && head < Q_CAP && 0 < count
    ensures RingLines(ring, head, count)[0] == ring[head]
    ensures RingLines(ring, (head + 1) % Q_CAP, count - 1) == RingLines(ring, head, count)[1..]
  {
    forall i: nat | i < count - 1
      ensures RingLines(ring, (head + 1) % Q_CAP, count - 1)[i] == RingLines(ring, head, count)[1..][i]
    {
      RoundStep(head, i);
    }
  }

  lemma {:induction false} RoundStep(head: nat, i: nat)
    requires head < Q_CAP
    ensures ((head + 1) % Q_CAP + i) % Q_CAP == (head + (i + 1)) % Q_CAP
  {
    if head + 1 == Q_CAP { assert head + (i + 1) == i + Q_CAP; }
  }

  lemma {:induction false} RingPush(ring: seq<string>, head: nat, count: nat, line: string)
    requires |ring| == Q_CAP && head < Q_CAP && count < Q_CAP
    ensures RingLines(ring[(head + count) % Q_CAP := line], head, count + 1) == RingLines(ring, head, count) + [line]
  {}

  lemma {:induction false} NoText(lines: seq<string>)
    ensures Text(lines[..0]) == ""
  {}

  lemma {:induction false} BooksPushed(b: Books, line: string)
    requires b.Valid() && Clean(line)
    ensures b.Push(line).Valid()
    ensures Render(b.pending, b.Push(line).history) == Render(b.pending, b.history)
    ensures Render(b.flushed, b.Push(line).history) == Render(b.flushed, b.history)
    ensures LinesOf(b.Push(line).waiting, b.Push(line).history)
         == if |b.waiting| >= Q_CAP then LinesOf(b.waiting, b.history)[1..] + [line]
            else LinesOf(b.waiting, b.history) + [line]
  {
    hide Render, Metrics, Increasing, Clean;
    b.PushValid(line);
    RenderLater(b.pending, b.history, line);
    RenderLater(b.flushed, b.history, line);
    LinesLater(b.waiting, b.history, line);
    LinesSnoc(b.waiting, b.history, line);
  }

  lemma {:induction false} LinesSnoc(numbers: seq<nat>, history: seq<string>, line: string)
    requires forall n :: n in numbers ==> n < |history|
    ensures LinesOf(numbers + [|history|], history + [line]) == LinesOf(numbers, history) + [line]
    ensures forall n :: n in (numbers + [|history|])[1..] ==> n < |history + [line]|
    ensures numbers != [] ==>
        LinesOf((numbers + [|history|])[1..], history + [line]) == LinesOf(numbers, history)[1..] + [line]
  {
    forall n | n in (numbers + [|history|])[1..] ensures n < |history + [line]| {
      assert n in numbers || n == |history|;
    }
    forall i | 0 <= i < |numbers| ensures numbers[i] < |history| { assert numbers[i] in numbers; }
  }

  lemma {:induction false} BooksFlushed(b: Books)
    requires b.Valid()
    ensures b.FlushAll().Valid() && Metrics([]) == []
    ensures Render(b.FlushAll().flushed, b.history) == Render(b.flushed, b.history) + Render(b.pending, b.history)
    ensures Render([], b.history) == ""
  {
    hide Metrics, Increasing, Clean;
    b.FlushAllValid();
    NoMetrics();
    RenderConcat(b.flushed, b.pending, b.history);
  }

  lemma {:induction false} BooksExtra(b: Books, text: string)
    requires b.Valid()
    ensures b.AppendExtra(text).Valid() && Metrics(b.AppendExtra(text).pending) == Metrics(b.pending)
    ensures Render(b.AppendExtra(text).pending, b.history) == Render(b.pending, b.history) + text + "\n"
  {
    hide Metrics, Increasing, Clean, Render;
    b.AppendExtraValid(text);
    RenderSnoc(b.pending, Extra(text), b.history);
  }

  lemma {:induction false} BooksMoved(b: Books, was: seq<string>, k: nat)
    requires b.Valid() && was == LinesOf(b.waiting, b.history) && k <= |was|
    ensures b.Move(k, true).Valid() && b.Move(k, false).Valid()
    ensures Breaks(Text(was[..k])) == k && (Text(was[..k]) == "" <==> k == 0)
    ensures LinesOf(b.waiting[k..], b.history) == was[k..]
    ensures Render(b.Move(k, true).pending, b.history) == Render(b.pending, b.history) + Text(was[..k]) + "\n"
    ensures |Metrics(b.Move(k, true).pending)| == |Metrics(b.pending)| + k
    ensures b.Move(0, true).waiting == b.waiting
  {
    hide Metrics, Increasing, Render;
    b.MoveValid(k, true);
    b.MoveValid(k, false);
    var front := b.waiting[..k];
    forall x | x in front ensures x in b.waiting {}
    forall x | x in b.waiting[k..] ensures x in b.waiting {}
    RenderSnoc(b.pending, Batch(front), b.history);
    assert LinesOf(front, b.history) == was[..k];
    forall l | l in was[..k] ensures Clean(l) { HistoryClean(b, l); }
    BatchLines(was[..k]);
  }

  lemma {:induction false} HistoryClean(b: Books, l: string)
    requires b.Valid() && l in LinesOf(b.waiting, b.history)
    ensures Clean(l)
  {
    hide Clean, Metrics, Increasing;
    var i :| 0 <= i < |b.waiting| && LinesOf(b.waiting, b.history)[i] == l;
    assert b.waiting[i] in b.waiting;
    assert b.history[b.waiting[i]] in b.history;
  }

  lemma {:induction false} BooksAccount(books: Books, wire: string, buffer: string, off: nat)
    requires books.Valid() && off <= |buffer| && buffer == Render(books.pending, books.history)
    requires wire == Render(books.flushed, books.history) + buffer[..off]
    ensures |books.history| == books.sent + books.dropped + |books.waiting| + |Metrics(books.pending)|
    ensures Known(books.flushed + books.pending, |books.history|)
    ensures wire <= Render(books.flushed + books.pending, books.history)
    ensures Increasing(Metrics(books.flushed + books.pending))
  {
    hide Increasing, Clean, Render, Metrics, Known;
    RenderConcat(books.flushed, books.pending, books.history);
    MetricsConcat(books.flushed, books.pending);
    InnerIncreasing(books.gone, Metrics(books.flushed), Metrics(books.pending), books.waiting);
  }

  lemma {:induction false} InnerIncreasing(a: seq<nat>, b: seq<nat>, c: seq<nat>, d: seq<nat>)
    requires Increasing(a + b + c + d)
    ensures Increasing(b + c)
  {
    var all, part := a + b + c + d, b + c;
    forall i, j | 0 <= i < j < |part| ensures part[i] < part[j] {
      assert part[i] == all[|a| + i] && part[j] == all[|a| + j];
    }
  }
}
