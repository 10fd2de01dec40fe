/**
  The pipeline together with its feed. A step leaves a line owed; later, and apart
  from the gate's lock, the line takes a number, and later still it is pushed to
  the capped log. Other lines come and go beside them. In every interleaving each
  line is owed, in flight, in the log or forgotten, exactly once.
 */
module FeedRuns {
  import opened Wrappers
  import opened Protocol
  import opened ProtocolLaws
  import opened ServerLaws
  import opened FeedAudit
  import Mesh

  /** The pipeline, the lines owed, the line of each number taken, and the feed of numbers. */
  datatype Board = Board(core: State, owed: seq<Line>, numbered: seq<Line>, feed: Mesh.Shared)

  const CLEAR: Board := Board(INITIAL, [], [], Mesh.QUIET)

  datatype Move =
    | Did(e: Event)          // a step of the pipeline
    | Remark(line: Line)     // any other post: an announcement, a refusal without a receipt, a notice
    | Number(j: nat)         // the counter step of the j-th owed line
    | Push(k: nat)           // the log step of the k-th oldest line in flight

  /** The lines that only steps of the pipeline cause. */
  predicate Accounted(line: Line) {
    line == PAID || line == MINTED || line == STAGED || line == UNMINTED
  }

  predicate CanMove(h: Handlers, b: Board, m: Move) {
    match m
    case Did(e) => Enabled(h, b.core, e)
    case Remark(line) => !Accounted(line)
    case Number(j) => j < |b.owed|
    case Push(k) => k < |b.feed.inFlight|
  }

  function Caused(h: Handlers, s: State, e: Event): seq<Line>
    requires Enabled(h, s, e)
  {
    match LineOf(h, s, e) case None => [] case Some(line) => [line]
  }

  function Moved(h: Handlers, b: Board, m: Move): Board
    requires CanMove(h, b, m)
  {
    match m
    case Did(e) => b.(core := Apply(h, b.core, e), owed := b.owed + Caused(h, b.core, e))
    case Remark(line) => b.(owed := b.owed + [line])
    case Number(j) =>
      b.(owed := Mesh.Without(b.owed, j), numbered := b.numbered + [b.owed[j]],
         feed := Mesh.Apply(b.feed, Mesh.Take))
    case Push(k) => b.(feed := Mesh.Apply(b.feed, Mesh.Push(k)))
  }

  predicate CanRun(h: Handlers, moves: seq<Move>)
    decreases |moves|, 0
  {
    moves == [] || (var n := |moves| - 1; CanRun(h, moves[..n]) && CanMove(h, Reached(h, moves[..n]), moves[n]))
  }

  function Reached(h: Handlers, moves: seq<Move>): Board
    requires CanRun(h, moves)
    decreases |moves|, 1
  {
    if moves == [] then CLEAR else Moved(h, Reached(h, moves[..|moves| - 1]), moves[|moves| - 1])
  }

  // ----- The pipeline's run and the feed's run

  function Events(moves: seq<Move>): seq<Event> {
    if moves == [] then []
    else
      var n := |moves| - 1;
      match moves[n] case Did(e) => Events(moves[..n]) + [e] case _ => Events(moves[..n])
  }

  function FeedSteps(moves: seq<Move>): seq<Mesh.Step> {
    if moves == [] then []
    else
      var n := |moves| - 1;
      match moves[n]
      case Number(_) => FeedSteps(moves[..n]) + [Mesh.Take]
      case Push(k) => FeedSteps(moves[..n]) + [Mesh.Push(k)]
      case _ => FeedSteps(moves[..n])
  }

  /** The lines no step caused. */
  function Remarks(moves: seq<Move>): seq<Line> {
    if moves == [] then []
    else
      var n := |moves| - 1;
      match moves[n] case Remark(line) => Remarks(moves[..n]) + [line] case _ => Remarks(moves[..n])
  }

  /** Seen apart, the pipeline makes a run of `Protocol` and the feed a run of `Mesh`. */
  lemma {:induction false} BothAreRuns(h: Handlers, moves: seq<Move>)
    requires CanRun(h, moves)
    ensures Possible(h, Events(moves)) && Reached(h, moves).core == After(h, Events(moves))
    ensures Mesh.Possible(FeedSteps(moves)) && Reached(h, moves).feed == Mesh.After(FeedSteps(moves))
    ensures |Reached(h, moves).numbered| == Reached(h, moves).feed.issued
    decreases |moves|
  {
    if moves != [] {
      var n := |moves| - 1;
      BothAreRuns(h, moves[..n]);
      match moves[n]
      case Did(e) => OneMore(h, Events(moves[..n]), e);
      case Remark(_) =>
      case Number(_) => Mesh.OneMore(FeedSteps(moves[..n]), Mesh.Take);
      case Push(k) => Mesh.OneMore(FeedSteps(moves[..n]), Mesh.Push(k));
    }
  }

  // ----- Where the lines are

  /** Every number in the feed was taken by a line. */
  predicate Sound(b: Board) {
    |b.numbered| == b.feed.issued && Mesh.Issued(b.feed)
  }

  function LinesAt(tickets: seq<nat>, numbered: seq<Line>): (lines: seq<Line>)
    requires forall i | 0 <= i < |tickets| :: tickets[i] < |numbered|
    ensures |lines| == |tickets| && forall i | 0 <= i < |lines| :: lines[i] == numbered[tickets[i]]
  {
    seq(|tickets|, i requires 0 <= i < |tickets| => numbered[tickets[i]])
  }

  function Posted(b: Board): seq<Line>
    requires Sound(b)
  {
    LinesAt(b.feed.Pushed(), b.numbered)
  }

  function InFlightLines(b: Board): seq<Line>
    requires Sound(b)
  {
    LinesAt(b.feed.inFlight, b.numbered)
  }

  /** How many lines like this are caused and not yet in the log. */
  function Pending(b: Board, line: Line): nat
    requires Sound(b)
  {
    Occurrences(b.owed, line) + Occurrences(InFlightLines(b), line)
  }

  /** How many lines like this there are in all. */
  function Total(b: Board, line: Line): nat
    requires Sound(b)
  {
    Pending(b, line) + Occurrences(Posted(b), line)
  }

  // ----- Counting lines

  lemma CountLast(lines: seq<Line>, x: Line, line: Line)
    ensures Occurrences(lines + [x], line) == Occurrences(lines, line) + One(x == line)
  {
    assert (lines + [x])[..|lines|] == lines;
  }

  lemma {:induction false} CountBoth(a: seq<Line>, b: seq<Line>, line: Line)
    ensures Occurrences(a + b, line) == Occurrences(a, line) + Occurrences(b, line)
    decreases |b|
  {
    if b == [] {
      assert a + b == a;
    } else {
      var n := |b| - 1;
      CountBoth(a, b[..n], line);
      CountLast(a + b[..n], b[n], line);
      assert a + b == (a + b[..n]) + [b[n]];
    }
  }

  lemma CountWithout(lines: seq<Line>, k: nat, line: Line)
    requires k < |lines|
    ensures Occurrences(Mesh.Without(lines, k), line) + One(lines[k] == line) == Occurrences(lines, line)
  {
    var front, back := lines[..k], lines[k + 1..];
    CountBoth(front, back, line);
    CountLast(front, lines[k], line);
    CountBoth(front + [lines[k]], back, line);
    assert lines == (front + [lines[k]]) + back;
  }

  // ----- Each move

  lemma OwedMore(b: Board, c: Board, lines: seq<Line>, line: Line)
    requires Sound(b) && c.owed == b.owed + lines && c.numbered == b.numbered && c.feed == b.feed
    ensures Sound(c) && Total(c, line) == Total(b, line) + Occurrences(lines, line)
  {
    CountBoth(b.owed, lines, line);
  }

  lemma NumberMoves(h: Handlers, b: Board, j: nat, line: Line)
    requires Sound(b) && j < |b.owed|
    ensures Sound(Moved(h, b, Number(j))) && Total(Moved(h, b, Number(j)), line) == Total(b, line)
  {
    var c := Moved(h, b, Number(j));
    Mesh.StepIssued(b.feed, Mesh.Take);
    CountWithout(b.owed, j, line);
    CountLast(InFlightLines(b), b.owed[j], line);
    assert InFlightLines(c) == InFlightLines(b) + [b.owed[j]];
    assert c.feed.Pushed() == b.feed.Pushed();
    assert Posted(c) == Posted(b);
  }

  lemma LinesWithout(tickets: seq<nat>, k: nat, rest: seq<nat>, numbered: seq<Line>)
    requires k < |tickets| && rest == Mesh.Without(tickets, k)
    requires forall i | 0 <= i < |tickets| :: tickets[i] < |numbered|
    requires forall i | 0 <= i < |rest| :: rest[i] < |numbered|
    ensures LinesAt(rest, numbered) == Mesh.Without(LinesAt(tickets, numbered), k)
  {
  }

  lemma LinesAppend(tickets: seq<nat>, t: nat, more: seq<nat>, numbered: seq<Line>)
    requires more == tickets + [t]
    requires forall i | 0 <= i < |tickets| :: tickets[i] < |numbered|
    requires forall i | 0 <= i < |more| :: more[i] < |numbered|
    ensures t < |numbered| && LinesAt(more, numbered) == LinesAt(tickets, numbered) + [numbered[t]]
  {
    assert more[|tickets|] == t;
  }

  lemma PushMoves(h: Handlers, b: Board, k: nat, line: Line)
    requires Sound(b) && k < |b.feed.inFlight|
    ensures Sound(Moved(h, b, Push(k))) && Total(Moved(h, b, Push(k)), line) == Total(b, line)
  {
    var c := Moved(h, b, Push(k));
    Mesh.StepIssued(b.feed, Mesh.Push(k));
    Mesh.PushAppends(b.feed, k);
    LinesWithout(b.feed.inFlight, k, c.feed.inFlight, b.numbered);
    LinesAppend(b.feed.Pushed(), b.feed.inFlight[k], c.feed.Pushed(), b.numbered);
    CountWithout(InFlightLines(b), k, line);
    CountLast(Posted(b), InFlightLines(b)[k], line);
  }

  lemma CausedOccurrence(h: Handlers, s: State, e: Event, line: Line)
    requires Enabled(h, s, e)
    ensures Occurrences(Caused(h, s, e), line) == One(LineOf(h, s, e) == Some(line))
  {
    if Caused(h, s, e) != [] {
      OneOccurrence(Caused(h, s, e)[0], line);
    }
  }

  /** In every run each line a step caused, and each remark, is owed, in flight or posted, exactly once. */
  lemma {:induction false} EveryLineOnce(h: Handlers, moves: seq<Move>, line: Line)
    requires CanRun(h, moves)
    ensures Possible(h, Events(moves)) && Sound(Reached(h, moves))
    ensures Total(Reached(h, moves), line) == Count(h, Events(moves), line) + Occurrences(Remarks(moves), line)
    decreases |moves|
  {
    BothAreRuns(h, moves);
    if moves != [] {
      var n := |moves| - 1;
      var b := Reached(h, moves[..n]);
      EveryLineOnce(h, moves[..n], line);
      BothAreRuns(h, moves[..n]);
      match moves[n]
      case Did(e) => DidMoves(h, b, moves[..n], e, line);
      case Remark(x) =>
        OwedMore(b, Reached(h, moves), [x], line);
        OneOccurrence(x, line);
        CountLast(Remarks(moves[..n]), x, line);
      case Number(j) => NumberMoves(h, b, j, line);
      case Push(k) => PushMoves(h, b, k, line);
    }
  }

  lemma DidMoves(h: Handlers, b: Board, moves: seq<Move>, e: Event, line: Line)
    requires Sound(b) && Possible(h, Events(moves)) && b.core == After(h, Events(moves)) && Enabled(h, b.core, e)
    ensures Sound(Moved(h, b, Did(e)))
    ensures Total(Moved(h, b, Did(e)), line) == Total(b, line) + One(LineOf(h, b.core, e) == Some(line))
    ensures Possible(h, Events(moves) + [e])
    ensures Count(h, Events(moves) + [e], line)
         == Count(h, Events(moves), line) + One(LineOf(h, b.core, e) == Some(line))
  {
    OwedMore(b, Moved(h, b, Did(e)), Caused(h, b.core, e), line);
    CountOneMore(h, Events(moves), e, line);
    CausedOccurrence(h, b.core, e, line);
  }

  lemma {:induction false} NoRemarkIsAccounted(h: Handlers, moves: seq<Move>, line: Line)
    requires CanRun(h, moves) && Accounted(line)
    ensures Occurrences(Remarks(moves), line) == 0
    decreases |moves|
  {
    if moves != [] {
      var n := |moves| - 1;
      NoRemarkIsAccounted(h, moves[..n], line);
      if moves[n].Remark? {
        CountLast(Remarks(moves[..n]), moves[n].line, line);
      }
    }
  }

  // ----- What the lines count

  /**
    In every interleaved run, posted and pending lines together count: payment
    lines the recorded receipts, settlement lines the envelopes, credential lines
    the minted credentials, and refused mints with silent ends the spent receipts.
   */
  lemma LinesCount(h: Handlers, moves: seq<Move>)
    requires CanRun(h, moves)
    ensures Sound(Reached(h, moves))
    ensures var b := Reached(h, moves); var s := b.core;
      && Total(b, PAID) == |s.issued| - |s.recording|
      && Total(b, STAGED) == |s.envelopes|
      && Total(b, MINTED) == |Holding(s)| + |s.envelopes|
      && Total(b, UNMINTED) + SilentEnds(Events(moves)) == |s.spent|
  {
    BothAreRuns(h, moves);
    CausedLinesCount(h, Events(moves));
    EveryLineOnce(h, moves, PAID);
    EveryLineOnce(h, moves, STAGED);
    EveryLineOnce(h, moves, MINTED);
    EveryLineOnce(h, moves, UNMINTED);
    NoRemarkIsAccounted(h, moves, PAID);
    NoRemarkIsAccounted(h, moves, STAGED);
    NoRemarkIsAccounted(h, moves, MINTED);
    NoRemarkIsAccounted(h, moves, UNMINTED);
  }

  /** Nothing is owed and nothing is in flight. */
  predicate Quiet(b: Board) {
    b.owed == [] && b.feed.inFlight == []
  }

  /**
    With nothing pending, every payment line ever posted is a receipt held, burned,
    swept, in flight, settled in a posted settlement line, refused in a posted info
    line, or lost to a silent end.
   */
  lemma PaymentsBalance(h: Handlers, moves: seq<Move>)
    requires CanRun(h, moves) && Quiet(Reached(h, moves))
    ensures Sound(Reached(h, moves))
    ensures var b := Reached(h, moves); var s, lines := b.core, Posted(b);
      Occurrences(lines, PAID)
      == |s.held| + |s.burned| + |s.evicted| + |s.flights|
         + Occurrences(lines, STAGED) + Occurrences(lines, UNMINTED) + SilentEnds(Events(moves))
  {
    BothAreRuns(h, moves);
    LinesCount(h, moves);
    ReceiptsAddUp(h, Events(moves));
  }

  lemma NextMove(h: Handlers, moves: seq<Move>, m: Move)
    requires CanRun(h, moves) && CanMove(h, Reached(h, moves), m)
    ensures CanRun(h, moves + [m]) && Reached(h, moves + [m]) == Moved(h, Reached(h, moves), m)
    ensures !m.Did? ==> Events(moves + [m]) == Events(moves)
  {
    assert (moves + [m])[..|moves|] == moves;
  }

  /** Whatever is pending can be posted: from every run, posting alone leads to quiet. */
  lemma {:induction false} QuietIsReachable(h: Handlers, moves: seq<Move>) returns (more: seq<Move>)
    requires CanRun(h, moves)
    ensures CanRun(h, more) && Quiet(Reached(h, more))
    ensures Reached(h, more).core == Reached(h, moves).core && Events(more) == Events(moves)
    decreases 2 * |Reached(h, moves).owed| + |Reached(h, moves).feed.inFlight|
  {
    var b := Reached(h, moves);
    if b.owed != [] {
      NextMove(h, moves, Number(0));
      more := QuietIsReachable(h, moves + [Number(0)]);
    } else if b.feed.inFlight != [] {
      NextMove(h, moves, Push(0));
      more := QuietIsReachable(h, moves + [Push(0)]);
    } else {
      more := moves;
    }
  }

  // ----- What the feed still shows

  function Shown(b: Board): seq<Line>
    requires Sound(b)
  {
    ShownTickets(b.feed);
    LinesAt(b.feed.log, b.numbered)
  }

  function Forgotten(b: Board): seq<Line>
    requires Sound(b)
  {
    ShownTickets(b.feed);
    LinesAt(b.feed.evicted, b.numbered)
  }

  lemma ShownTickets(f: Mesh.Shared)
    requires Mesh.Issued(f)
    ensures forall i | 0 <= i < |f.log| :: f.log[i] < f.issued
    ensures forall i | 0 <= i < |f.evicted| :: f.evicted[i] < f.issued
  {
    assert forall i | 0 <= i < |f.evicted| :: f.evicted[i] == f.Pushed()[i];
    assert forall i | 0 <= i < |f.log| :: f.log[i] == f.Pushed()[|f.evicted| + i];
  }

  lemma PostedSplit(b: Board, line: Line)
    requires Sound(b)
    ensures |Posted(b)| == |Forgotten(b)| + |Shown(b)|
    ensures Occurrences(Posted(b), line) == Occurrences(Forgotten(b), line) + Occurrences(Shown(b), line)
  {
    CountBoth(Forgotten(b), Shown(b), line);
    assert Posted(b) == Forgotten(b) + Shown(b);
  }

  lemma SomeOccurrence(lines: seq<Line>)
    requires lines != []
    ensures Occurrences(lines, lines[|lines| - 1]) > 0
  {
  }

  ghost predicate ShowsEverything(b: Board)
    requires Sound(b)
  {
    forall line :: Occurrences(Shown(b), line) == Total(b, line)
  }

  lemma HiddenLine(b: Board)
    requires Sound(b) && ShowsEverything(b)
    ensures b.owed == [] && b.feed.inFlight == [] && b.feed.evicted == []
  {
    if b.owed != [] {
      SomeOccurrence(b.owed);
      PostedSplit(b, b.owed[|b.owed| - 1]);
    }
    if InFlightLines(b) != [] {
      SomeOccurrence(InFlightLines(b));
      PostedSplit(b, InFlightLines(b)[|InFlightLines(b)| - 1]);
    }
    if Forgotten(b) != [] {
      SomeOccurrence(Forgotten(b));
      PostedSplit(b, Forgotten(b)[|Forgotten(b)| - 1]);
    }
  }

  lemma AllShown(b: Board)
    requires Sound(b) && Quiet(b) && b.feed.evicted == []
    ensures ShowsEverything(b)
  {
    forall line ensures Occurrences(Shown(b), line) == Total(b, line) {
      PostedSplit(b, line);
    }
  }

  /** Nothing has been evicted exactly while no more than 2000 lines were posted. */
  lemma NothingEvictedExactly(f: Mesh.Shared)
    requires Mesh.Capped(f)
    ensures (f.evicted == []) == (|f.Pushed()| <= Mesh.MAX_LOG_LEN)
  {
  }

  lemma BoardShowsAllExactly(b: Board)
    requires Sound(b) && Mesh.Capped(b.feed) && Mesh.Counted(b.feed)
    ensures ShowsEverything(b) == (Quiet(b) && b.feed.issued <= Mesh.MAX_LOG_LEN)
  {
    Mesh.TicketCount(b.feed);
    NothingEvictedExactly(b.feed);
    if ShowsEverything(b) {
      HiddenLine(b);
    } else if Quiet(b) && b.feed.evicted == [] {
      AllShown(b);
    }
  }

  /**
    The retained feed shows every line there is exactly when nothing is pending and
    no more than 2000 numbers were ever taken; what it has forgotten began with the
    2001st post.
   */
  lemma FeedShowsAllExactly(h: Handlers, moves: seq<Move>)
    requires CanRun(h, moves)
    ensures Sound(Reached(h, moves))
    ensures var b := Reached(h, moves);
      && ShowsEverything(b) == (Quiet(b) && b.feed.issued <= Mesh.MAX_LOG_LEN)
      && (Forgotten(b) == []) == (|Posted(b)| <= Mesh.MAX_LOG_LEN)
  {
    BothAreRuns(h, moves);
    Mesh.EveryRunAccounted(FeedSteps(moves));
    var b := Reached(h, moves);
    BoardShowsAllExactly(b);
    NothingEvictedExactly(b.feed);
  }

  /** The reader's test for missing lines is right at every moment exactly when the first push overtook none. */
  lemma ReaderSeesGapsExactly(h: Handlers, moves: seq<Move>)
    requires CanRun(h, moves)
    ensures Mesh.Possible(FeedSteps(moves))
    ensures (forall n: nat | n <= |FeedSteps(moves)| :: Mesh.GapTestAt(FeedSteps(moves), n))
       <==> Mesh.FirstPush(FeedSteps(moves)) <= 0
  {
    BothAreRuns(h, moves);
    Mesh.GapTestExactly(FeedSteps(moves));
  }
}
