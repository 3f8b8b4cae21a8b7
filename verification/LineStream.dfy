/** Producer, channel and consumer interleaved in any order. */
module LineStreams {
  import opened LineReaders

  datatype Producer =
    | Reading(line: seq<Byte>)
    | Sending(item: Item)
    | Stopped

  /**
    `delivered` is everything poll_read has returned so far, `lost` the unfinished line a
    failure discarded, `failed` whether the producer met a failure.
   */
  datatype System = System(
    reader: Reader, producer: Producer, served: Served, delivered: seq<Byte>, lost: seq<Byte>, failed: bool)

  datatype Step = Produce | Send | Read(room: nat)

  ghost function Init(fills: seq<Fill>): System {
    System(Reader([], fills), Reading([]), Served([], 0, [], false), [], [], false)
  }

  /** One atomic step; a step that cannot happen leaves the system as it is. */
  ghost function Next(s: System, step: Step, capacity: nat): System {
    match step
    case Produce =>
      if !s.producer.Reading? then s
      else (
        var x := ReadRound(s.reader, s.producer.line);
        match x
        case More(r, line) => s.(reader := r, producer := Reading(line))
        case Line(r, line) =>
          if line == [] then s.(reader := r, producer := Stopped, served := s.served.(closed := true))
          else s.(reader := r, producer := Sending(Complete(line)))
        case TooLong(r, line) => s.(reader := r, producer := Sending(Failed), lost := line, failed := true)
        case Broken(r, line) => s.(reader := r, producer := Sending(Failed), lost := line, failed := true)
      )
    case Send =>
      if !s.producer.Sending? || |s.served.queue| >= capacity then s
      else (
        var queue := s.served.queue + [s.producer.item];
        match s.producer.item
        case Complete(_) => s.(producer := Reading([]), served := s.served.(queue := queue))
        case Failed => s.(producer := Stopped, served := s.served.(queue := queue, closed := true))
      )
    case Read(room) =>
      var (served, r) := PollStep(s.served, room);
      s.(served := served, delivered := s.delivered + Got(r))
  }

  ghost function Lines(queue: seq<Item>): seq<Byte> {
    if queue == [] then [] else (if queue[0].Complete? then queue[0].line else []) + Lines(queue[1..])
  }

  /** Everything that has left the producer: delivered, being served, or queued. */
  ghost function Sent(s: System): seq<Byte>
    requires s.served.pos <= |s.served.buf|
  {
    s.delivered + Waiting(s.served)
  }

  /** Bytes being served or queued. */
  ghost function Waiting(s: Served): seq<Byte>
    requires s.pos <= |s.buf|
  {
    s.buf[s.pos..] + Lines(s.queue)
  }

  ghost function Got(r: Poll): seq<Byte> {
    if r.Ready? then r.bytes else []
  }

  ghost function Held(p: Producer): seq<Byte> {
    match p
    case Reading(line) => line
    case Sending(Complete(line)) => line
    case Sending(Failed) => []
    case Stopped => []
  }

  /** Sent bytes stop at a line end, unless the source has ended and they are all of it. */
  ghost predicate AtBoundary(s: System, sent: seq<Byte>) {
    || sent == []
    || sent[|sent| - 1] == NEWLINE
    || (s.reader.AtEof() && !s.failed && (s.producer == Reading([]) || s.producer == Stopped))
  }

  ghost predicate ProducerOk(s: System) {
    match s.producer
    case Reading(line) => !s.failed && |line| <= MAX_LINE_SIZE && NEWLINE !in line
    case Sending(Complete(line)) =>
      !s.failed && line != [] && |line| <= MAX_LINE_SIZE && (EndsLine(line) || LastLine(s.reader, line))
    case Sending(Failed) => s.failed
    case Stopped => s.failed || s.reader.AtEof()
  }

  ghost predicate ServedOk(s: System) {
    && s.served.pos <= |s.served.buf|
    && (s.served.buf != [] ==> s.served.pos < |s.served.buf|)
    && (s.served.closed <==> s.producer == Stopped)
    && (forall i :: 0 <= i < |s.served.queue| && s.served.queue[i].Complete? ==> s.served.queue[i].line != [])
  }

  /** The line in hand and what the source still holds. */
  ghost function Unsent(s: System): seq<Byte> {
    Held(s.producer) + s.reader.Content()
  }

  ghost predicate Inv(s: System, original: seq<Byte>) {
    && s.reader.Valid()
    && ServedOk(s)
    && ProducerOk(s)
    && (s.lost != [] ==> s.failed)
    && AtBoundary(s, Sent(s))
    && (!s.failed ==> Sent(s) + Unsent(s) == original)
    && Sent(s) + s.lost <= original
  }

  lemma {:induction false} LinesSnoc(queue: seq<Item>, item: Item)
    ensures Lines(queue + [item]) == Lines(queue) + if item.Complete? then item.line else []
  {
    if queue != [] {
      assert (queue + [item])[1..] == queue[1..] + [item];
      LinesSnoc(queue[1..], item);
    } else {
      assert (queue + [item])[1..] == [];
    }
  }

  lemma Regroup(a: seq<Byte>, b: seq<Byte>, c: seq<Byte>)
    ensures a + (b + c) == (a + b) + c
  {
  }

  lemma InitInv(fills: seq<Fill>)
    requires Reader([], fills).Valid()
    ensures Inv(Init(fills), Reader([], fills).Content())
  {
  }

  lemma MoreInv(s: System, original: seq<Byte>, line: seq<Byte>, x: Reading)
    requires Inv(s, original) && s.producer == Reading(line) && RoundOk(s.reader, line, x) && x.More?
    ensures Inv(s.(reader := x.reader, producer := Reading(x.line)), original)
  {
  }

  lemma LineInv(s: System, original: seq<Byte>, line: seq<Byte>, x: Reading)
    requires Inv(s, original) && s.producer == Reading(line) && RoundOk(s.reader, line, x) && x.Line? && x.line != []
    ensures Inv(s.(reader := x.reader, producer := Sending(Complete(x.line))), original)
  {
  }

  lemma EndInv(s: System, original: seq<Byte>, line: seq<Byte>, x: Reading)
    requires Inv(s, original) && s.producer == Reading(line) && RoundOk(s.reader, line, x) && x.Line? && x.line == []
    ensures Inv(s.(reader := x.reader, producer := Stopped, served := s.served.(closed := true)), original)
  {
    assert [] + x.reader.Content() == [];
  }

  lemma FailInv(s: System, original: seq<Byte>, line: seq<Byte>, x: Reading)
    requires Inv(s, original) && s.producer == Reading(line) && RoundOk(s.reader, line, x) && (x.TooLong? || x.Broken?)
    ensures Inv(s.(reader := x.reader, producer := Sending(Failed), lost := x.line, failed := true), original)
  {
    if x.Broken? {
      assert line + s.reader.Content() == line && original == Sent(s) + line;
    } else {
      Regroup(Sent(s), x.line, x.reader.Content());
    }
  }

  lemma ProduceInv(s: System, original: seq<Byte>, capacity: nat)
    requires Inv(s, original)
    ensures Inv(Next(s, Produce, capacity), original)
  {
    if s.producer.Reading? {
      var line := s.producer.line;
      var x := ReadRound(s.reader, line);
      ReadRoundConserves(s.reader, line);
      if x.More? {
        MoreInv(s, original, line, x);
      } else if !x.Line? {
        FailInv(s, original, line, x);
      } else if x.line == [] {
        EndInv(s, original, line, x);
      } else {
        LineInv(s, original, line, x);
      }
    }
  }

  lemma SentAppends(s: System, s': System, line: seq<Byte>)
    requires s.served.pos <= |s.served.buf| && s'.delivered == s.delivered
    requires s'.served.buf == s.served.buf && s'.served.pos == s.served.pos
    requires Lines(s'.served.queue) == Lines(s.served.queue) + line
    ensures Sent(s') == Sent(s) + line
    ensures line != [] ==> Sent(s')[|Sent(s')| - 1] == line[|line| - 1]
  {
  }

  lemma SendInv(s: System, original: seq<Byte>, capacity: nat)
    requires Inv(s, original)
    ensures Inv(Next(s, Send, capacity), original)
  {
    if s.producer.Sending? && |s.served.queue| < capacity {
      LinesSnoc(s.served.queue, s.producer.item);
      var s' := Next(s, Send, capacity);
      match s.producer.item
      case Complete(line) =>
        SentAppends(s, s', line);
        Regroup(Sent(s), line, s.reader.Content());
        assert Unsent(s') == s.reader.Content();
      case Failed =>
        assert Sent(s') == Sent(s);
    }
  }

  /** A poll moves bytes from the served side to the reader of the stream. */
  lemma PollConserves(s: Served, n: nat)
    requires s.pos <= |s.buf|
    ensures var (s', r) := PollStep(s, n); s'.pos <= |s'.buf| && Got(r) + Waiting(s') == Waiting(s)
  {
    var (s', r) := PollStep(s, n);
    if s.pos < |s.buf| {
      var m := |r.bytes|;
      assert s.buf[s.pos..] == s.buf[s.pos..s.pos + m] + s.buf[s.pos + m..];
      assert s'.buf[s'.pos..] == s.buf[s.pos + m..];
      Regroup(r.bytes, s'.buf[s'.pos..], Lines(s.queue));
    } else if s.queue != [] && s.queue[0].Complete? {
      var line := s.queue[0].line;
      var m := |r.bytes|;
      assert line == line[..m] + line[m..];
      assert s'.buf[s'.pos..] == line[m..];
      Regroup(r.bytes, s'.buf[s'.pos..], Lines(s.queue[1..]));
    }
  }

  lemma PollServedOk(s: System, room: nat, capacity: nat)
    requires ServedOk(s)
    ensures ServedOk(Next(s, Read(room), capacity))
  {
    var s' := Next(s, Read(room), capacity);
    forall i | 0 <= i < |s'.served.queue| && s'.served.queue[i].Complete? ensures s'.served.queue[i].line != [] {
      assert s'.served.queue[i] == s.served.queue[i] || s'.served.queue[i] == s.served.queue[i + 1];
    }
  }

  lemma ReadSent(s: System, room: nat, capacity: nat)
    requires ServedOk(s)
    ensures ServedOk(Next(s, Read(room), capacity)) && Sent(Next(s, Read(room), capacity)) == Sent(s)
  {
    PollServedOk(s, room, capacity);
    PollConserves(s.served, room);
    var (served, r) := PollStep(s.served, room);
    Regroup(s.delivered, Got(r), Waiting(served));
  }

  lemma ReadInv(s: System, original: seq<Byte>, room: nat, capacity: nat)
    requires Inv(s, original)
    ensures Inv(Next(s, Read(room), capacity), original)
  {
    ReadSent(s, room, capacity);
  }

  /** Every interleaving: the states passed through when the given steps are taken in order. */
  ghost function Execute(s: System, steps: seq<Step>, capacity: nat): System {
    if steps == [] then s else Next(Execute(s, steps[..|steps| - 1], capacity), steps[|steps| - 1], capacity)
  }

  /** What the polls among the steps answered, in order. */
  ghost function Answers(s: System, steps: seq<Step>, capacity: nat): seq<Poll> {
    if steps == [] then []
    else
      var (init, last) := (steps[..|steps| - 1], steps[|steps| - 1]);
      var before := Answers(s, init, capacity);
      if last.Read? then before + [PollStep(Execute(s, init, capacity).served, last.room).1] else before
  }

  /** The bytes that answers hand to the reader of the stream. */
  ghost function BytesOf(answers: seq<Poll>): seq<Byte> {
    if answers == [] then []
    else
      var last := answers[|answers| - 1];
      BytesOf(answers[..|answers| - 1]) + if last.Ready? then last.bytes else []
  }

  lemma BytesSnoc(answers: seq<Poll>, r: Poll)
    ensures BytesOf(answers + [r]) == BytesOf(answers) + Got(r)
  {
    assert (answers + [r])[..|answers|] == answers;
  }

  lemma {:induction false} ExecuteInv(fills: seq<Fill>, steps: seq<Step>, capacity: nat)
    requires Reader([], fills).Valid()
    ensures Inv(Execute(Init(fills), steps, capacity), Reader([], fills).Content())
  {
    var original := Reader([], fills).Content();
    if steps == [] {
      InitInv(fills);
    } else {
      var s := Execute(Init(fills), steps[..|steps| - 1], capacity);
      ExecuteInv(fills, steps[..|steps| - 1], capacity);
      match steps[|steps| - 1]
      case Produce => ProduceInv(s, original, capacity);
      case Send => SendInv(s, original, capacity);
      case Read(room) => ReadInv(s, original, room, capacity);
    }
  }

  // ---------------------------------------------------------------------
  // Failures reach the reader
  // ---------------------------------------------------------------------

  /** The source ends without an I/O error. */
  ghost predicate Sound(fills: seq<Fill>) {
    forall i :: 0 <= i < |fills| ==> fills[i].Data?
  }

  /** A line that outgrew the cap before, or together with, its newline. */
  ghost predicate TooLongLine(line: seq<Byte>) {
    |line| > MAX_LINE_SIZE && (NEWLINE !in line || EndsLine(line))
  }

  /**
    What a failure cuts off: the complete lines before it were sent, and what follows them is a line
    that is too long, or the unfinished line at which the source broke.
   */
  ghost predicate FailsAfter(fills: seq<Fill>, sent: seq<Byte>, lost: seq<Byte>) {
    && (sent == [] || sent[|sent| - 1] == NEWLINE)
    && sent + lost <= Reader([], fills).Content()
    && (|| TooLongLine(lost)
        || (!Sound(fills) && NEWLINE !in lost && sent + lost == Reader([], fills).Content()))
  }

  /** Where the error is: nowhere, with the producer, last in the queue, or answered. */
  ghost predicate ErrorPlace(s: System, answered: bool) {
    if !s.failed || s.producer.Sending? then
      !answered && Failed !in s.served.queue
    else if answered then
      s.served.queue == [] && s.served.pos >= |s.served.buf|
    else
      && s.served.queue != []
      && s.served.queue[|s.served.queue| - 1] == Failed
      && Failed !in s.served.queue[..|s.served.queue| - 1]
  }

  /** While nothing has failed the source is as sound as it was; a failure is one of the two kinds. */
  ghost predicate FailureOk(s: System, fills: seq<Fill>)
    requires s.served.pos <= |s.served.buf|
  {
    && (!s.failed ==> (Sound(s.reader.fills) <==> Sound(fills)))
    && (s.failed ==> FailsAfter(fills, Sent(s), s.lost))
  }

  lemma RoundFills(r: Reader, line: seq<Byte>)
    ensures var x := ReadRound(r, line);
            && (x.Broken? ==> !Sound(r.fills))
            && (!x.Broken? ==> (Sound(x.reader.fills) <==> Sound(r.fills)))
  {
    var (r', a) := FillBuf(r);
    if r.current == [] && r.fills != [] {
      assert Sound(r.fills) ==> r.fills[0].Data?;
      if r.fills[0].Data? {
        SoundTail(r.fills);
      }
    }
  }

  lemma SoundTail(fills: seq<Fill>)
    requires fills != [] && fills[0].Data?
    ensures Sound(fills) <==> Sound(fills[1..])
  {
    if Sound(fills[1..]) {
      forall i | 0 <= i < |fills| ensures fills[i].Data? {
        assert i > 0 ==> fills[i] == fills[1..][i - 1];
      }
    }
  }

  lemma ReadingInLine(s: System, original: seq<Byte>)
    requires Inv(s, original)
    ensures s.reader.Valid() && s.served.pos <= |s.served.buf|
    ensures s.producer.Reading? ==> !s.failed && NEWLINE !in s.producer.line
    ensures s.producer.Sending? && s.producer.item.Complete? ==> !s.failed
    ensures s.producer == Sending(Failed) ==> s.failed
  {
  }

  lemma FailedAtBoundary(s: System, original: seq<Byte>)
    requires Inv(s, original) && s.failed
    ensures Sent(s) + s.lost <= original
    ensures Sent(s) == [] || Sent(s)[|Sent(s)| - 1] == NEWLINE
  {
  }

  /** The round that fails leaves the line it was reading, or one that is too long. */
  lemma FailureFound(s: System, fills: seq<Fill>, capacity: nat)
    requires Inv(s, Reader([], fills).Content()) && s.producer.Reading? && FailureOk(s, fills)
    ensures var s' := Next(s, Produce, capacity); Sent(s') == Sent(s) && FailureOk(s', fills)
  {
    var original := Reader([], fills).Content();
    var x := ReadRound(s.reader, s.producer.line);
    ReadingInLine(s, original);
    ReadRoundConserves(s.reader, s.producer.line);
    RoundFills(s.reader, s.producer.line);
    ProduceInv(s, original, capacity);
    if x.TooLong? || x.Broken? {
      FailedAtBoundary(Next(s, Produce, capacity), original);
      assert x.Broken? ==> s.producer.line + s.reader.Content() == s.producer.line;
    }
  }

  lemma ProducePlace(s: System, original: seq<Byte>, answered: bool, capacity: nat)
    requires Inv(s, original) && ErrorPlace(s, answered)
    ensures ErrorPlace(Next(s, Produce, capacity), answered)
  {
    ReadingInLine(s, original);
  }

  lemma SendPlace(s: System, original: seq<Byte>, answered: bool, capacity: nat)
    requires Inv(s, original) && ErrorPlace(s, answered)
    ensures ErrorPlace(Next(s, Send, capacity), answered)
  {
    ReadingInLine(s, original);
    if s.producer.Sending? && |s.served.queue| < capacity {
      var queue := s.served.queue + [s.producer.item];
      assert queue[..|queue| - 1] == s.served.queue;
    }
  }

  lemma SendKeepsSent(s: System, original: seq<Byte>, capacity: nat)
    requires Inv(s, original) && s.failed
    ensures Next(s, Send, capacity).served.pos <= |Next(s, Send, capacity).served.buf|
    ensures Sent(Next(s, Send, capacity)) == Sent(s)
  {
    ReadingInLine(s, original);
    if s.producer.Sending? && |s.served.queue| < capacity {
      LinesSnoc(s.served.queue, s.producer.item);
    }
  }

  lemma HeadFailed(s: System, original: seq<Byte>, answered: bool)
    requires Inv(s, original) && ErrorPlace(s, answered)
    requires s.served.queue != [] && s.served.queue[0] == Failed
    ensures |s.served.queue| == 1 && !answered && s.failed && !s.producer.Sending?
    ensures Lines(s.served.queue) == []
  {
    HeadEarly(s.served.queue);
  }

  lemma HeadEarly(queue: seq<Item>)
    ensures |queue| > 1 ==> queue[0] in queue[..|queue| - 1]
  {
    if |queue| > 1 {
      assert queue[..|queue| - 1][0] == queue[0];
    }
  }

  lemma ErrorAnswer(s: System, original: seq<Byte>, answered: bool, room: nat)
    requires Inv(s, original) && ErrorPlace(s, answered)
    ensures var r := PollStep(s.served, room).1;
            && (r == ReadyError ==> !answered && s.failed && |s.served.queue| == 1 && Waiting(s.served) == [])
            && (answered ==> r == Ready([]))
  {
    ReadingInLine(s, original);
    if s.served.queue != [] && s.served.queue[0] == Failed {
      HeadFailed(s, original, answered);
    }
  }

  lemma ReadPlace(s: System, original: seq<Byte>, answered: bool, room: nat, capacity: nat)
    requires Inv(s, original) && ErrorPlace(s, answered)
    ensures ErrorPlace(Next(s, Read(room), capacity), answered || PollStep(s.served, room).1 == ReadyError)
  {
    ReadingInLine(s, original);
    var queue := s.served.queue;
    if s.served.pos >= |s.served.buf| && queue != [] {
      if queue[0] == Failed {
        HeadFailed(s, original, answered);
      } else {
        TailPlace(queue);
      }
    }
  }

  lemma TailPlace(queue: seq<Item>)
    requires queue != []
    ensures Failed !in queue ==> Failed !in queue[1..]
    ensures |queue| > 1 ==> queue[1..][|queue| - 2] == queue[|queue| - 1]
    ensures |queue| > 1 && Failed !in queue[..|queue| - 1] ==> Failed !in queue[1..][..|queue| - 2]
  {
  }

  /** Where the error is agrees with what the polls have answered. */
  ghost predicate Reported(s: System, fills: seq<Fill>, answers: seq<Poll>) {
    && s.served.pos <= |s.served.buf|
    && s.delivered == BytesOf(answers)
    && ErrorPlace(s, ReadyError in answers)
    && FailureOk(s, fills)
  }

  lemma ProduceReported(s: System, fills: seq<Fill>, answers: seq<Poll>, capacity: nat)
    requires Inv(s, Reader([], fills).Content()) && Reported(s, fills, answers)
    ensures Reported(Next(s, Produce, capacity), fills, answers)
  {
    ProducePlace(s, Reader([], fills).Content(), ReadyError in answers, capacity);
    if s.producer.Reading? {
      FailureFound(s, fills, capacity);
    }
  }

  lemma SendReported(s: System, fills: seq<Fill>, answers: seq<Poll>, capacity: nat)
    requires Inv(s, Reader([], fills).Content()) && Reported(s, fills, answers)
    ensures Reported(Next(s, Send, capacity), fills, answers)
  {
    SendPlace(s, Reader([], fills).Content(), ReadyError in answers, capacity);
    if s.failed {
      SendKeepsSent(s, Reader([], fills).Content(), capacity);
    }
  }

  lemma ReadReported(s: System, fills: seq<Fill>, answers: seq<Poll>, room: nat, capacity: nat)
    requires Inv(s, Reader([], fills).Content()) && Reported(s, fills, answers)
    ensures Reported(Next(s, Read(room), capacity), fills, answers + [PollStep(s.served, room).1])
  {
    ReadSent(s, room, capacity);
    ReadPlace(s, Reader([], fills).Content(), ReadyError in answers, room, capacity);
    BytesSnoc(answers, PollStep(s.served, room).1);
  }

  lemma {:induction false} ExecuteReported(fills: seq<Fill>, steps: seq<Step>, capacity: nat)
    requires Reader([], fills).Valid()
    ensures Reported(Execute(Init(fills), steps, capacity), fills, Answers(Init(fills), steps, capacity))
  {
    if steps != [] {
      var init := steps[..|steps| - 1];
      var s, answers := Execute(Init(fills), init, capacity), Answers(Init(fills), init, capacity);
      ExecuteReported(fills, init, capacity);
      ExecuteInv(fills, init, capacity);
      match steps[|steps| - 1]
      case Produce => ProduceReported(s, fills, answers, capacity);
      case Send => SendReported(s, fills, answers, capacity);
      case Read(room) => ReadReported(s, fills, answers, room, capacity);
    }
  }

  // ---------------------------------------------------------------------
  // What a poll may answer
  // ---------------------------------------------------------------------

  /** The bytes a poll may take from: the rest of the line being served, else the next line. */
  ghost function LineInHand(s: Served): seq<Byte> {
    if s.pos < |s.buf| then s.buf[s.pos..]
    else if s.queue != [] && s.queue[0].Complete? then s.queue[0].line
    else []
  }

  /** A poll answers with as much of the line in hand as there is room for; the rest stays in hand. */
  lemma PollServes(s: System, room: nat)
    requires ServedOk(s) && LineInHand(s.served) != []
    ensures var (s', r) := PollStep(s.served, room);
            var line := LineInHand(s.served);
            && r.Ready?
            && |r.bytes| == (if room < |line| then room else |line|)
            && r.bytes == line[..|r.bytes|]
            && (|r.bytes| < |line| ==> LineInHand(s') == line[|r.bytes|..])
  {
  }

  /** With no line in hand a poll reports the error, the end, or that it has to wait. */
  lemma PollWaits(s: System, room: nat)
    requires ServedOk(s) && LineInHand(s.served) == []
    ensures var r := PollStep(s.served, room).1;
            && (r == ReadyError <==> s.served.queue != [] && s.served.queue[0] == Failed)
            && (r == Ready([]) <==> s.served.queue == [] && s.served.closed)
            && (r == Pending <==> s.served.queue == [] && !s.served.closed)
            && (s.served.queue == [] ==> Waiting(s.served) == [])
  {
    if s.served.queue != [] {
      assert s.served.queue[0] == Failed;
    }
    assert s.served.buf[s.served.pos..] == [];
  }

  /** An end, and a wait, mean that nothing is queued. */
  lemma EndOrWait(s: System, room: nat)
    requires ServedOk(s)
    ensures var r := PollStep(s.served, room).1;
            && (r == Ready([]) && room > 0 ==> s.served.queue == [] && Waiting(s.served) == [] && s.served.closed)
            && (r == Pending ==> s.served.queue == [] && Waiting(s.served) == [] && !s.served.closed)
  {
    if LineInHand(s.served) == [] {
      PollWaits(s, room);
    } else {
      PollServes(s, room);
    }
  }

  lemma DeliveredAll(s: System, original: seq<Byte>)
    requires Inv(s, original) && Waiting(s.served) == [] && s.served.closed && !s.failed
    ensures s.delivered == original && s.reader.fills == []
  {
    assert Sent(s) == s.delivered;
    assert s.reader.Content() == [] && Held(s.producer) == [];
  }

  lemma BoundaryOrAll(s: System, original: seq<Byte>)
    requires Inv(s, original) && Waiting(s.served) == []
    ensures s.delivered == [] || s.delivered[|s.delivered| - 1] == NEWLINE || s.delivered == original
  {
    assert Sent(s) == s.delivered;
    if s.reader.AtEof() && !s.failed {
      assert s.reader.Content() == [];
    }
  }

  lemma DeliveredPrefix(s: System, original: seq<Byte>)
    requires Inv(s, original)
    ensures s.delivered <= original
  {
    assert s.delivered <= Sent(s) <= Sent(s) + s.lost;
  }

  /**
    The guarantees of the stream after any schedule, for every way the source is cut into
    pieces, every channel capacity and every sequence of read sizes: for the answer `r` of the next poll
    and the answers before it.
   */
  ghost predicate Guaranteed(fills: seq<Fill>, answers: seq<Poll>, room: nat, r: Poll, lost: seq<Byte>) {
    var (original, delivered) := (Reader([], fills).Content(), BytesOf(answers));
    && delivered <= original
    // an end that no error came before: all of a sound source was delivered
    && (r == Ready([]) && room > 0 && ReadyError !in answers ==> Sound(fills) && delivered == original)
    // the error comes once, after every line before the failure; then only the end is answered
    && (r == ReadyError ==> ReadyError !in answers && FailsAfter(fills, delivered, lost))
    && (ReadyError in answers ==> r == Ready([]) && FailsAfter(fills, delivered, lost))
    // a wait only at a line end, or once an unterminated last line is through
    && (r == Pending ==>
          delivered == [] || delivered[|delivered| - 1] == NEWLINE || delivered == original)
  }

  lemma StreamGuarantees(fills: seq<Fill>, steps: seq<Step>, capacity: nat, room: nat)
    requires Reader([], fills).Valid()
    ensures var s := Execute(Init(fills), steps, capacity);
            var r := PollStep(s.served, room).1;
            && Answers(Init(fills), steps + [Read(room)], capacity) == Answers(Init(fills), steps, capacity) + [r]
            && Guaranteed(fills, Answers(Init(fills), steps, capacity), room, r, s.lost)
  {
    var s, original := Execute(Init(fills), steps, capacity), Reader([], fills).Content();
    assert (steps + [Read(room)])[..|steps|] == steps;
    ExecuteInv(fills, steps, capacity);
    ExecuteReported(fills, steps, capacity);
    PollGuarantees(s, fills, Answers(Init(fills), steps, capacity), room);
  }

  lemma PollGuarantees(s: System, fills: seq<Fill>, answers: seq<Poll>, room: nat)
    requires Inv(s, Reader([], fills).Content()) && s.delivered == BytesOf(answers)
    requires ErrorPlace(s, ReadyError in answers) && FailureOk(s, fills)
    ensures Guaranteed(fills, answers, room, PollStep(s.served, room).1, s.lost)
  {
    var original := Reader([], fills).Content();
    EndOrWait(s, room);
    ErrorAnswer(s, original, ReadyError in answers, room);
    DeliveredPrefix(s, original);
    if Waiting(s.served) == [] {
      BoundaryOrAll(s, original);
      assert Sent(s) == s.delivered;
      if s.served.closed && !s.failed {
        DeliveredAll(s, original);
      }
    }
  }

  /**
    With a source that never fails, the stream fails only over a line of the source that is too long:
    the lost bytes follow what was sent, which ends at a line boundary.
   */
  lemma FailureOnlyFromSource(fills: seq<Fill>, steps: seq<Step>, capacity: nat)
    requires Reader([], fills).Valid() && Sound(fills)
    ensures var s := Execute(Init(fills), steps, capacity);
            && s.served.pos <= |s.served.buf|
            && (s.failed ==>
                  && TooLongLine(s.lost)
                  && Sent(s) + s.lost <= Reader([], fills).Content()
                  && (Sent(s) == [] || Sent(s)[|Sent(s)| - 1] == NEWLINE))
  {
    ExecuteReported(fills, steps, capacity);
  }

  // ---------------------------------------------------------------------
  // The stream comes to its end
  // ---------------------------------------------------------------------

  ghost function Load(fills: seq<Fill>): nat {
    if fills == [] then 0 else 1 + (if fills[0].Data? then |fills[0].bytes| else 0) + Load(fills[1..])
  }

  /** Every byte and every item weighs less the further it has come. */
  ghost function Ahead(s: System): nat
    requires s.served.pos <= |s.served.buf|
  {
    5 * (|s.reader.current| + Load(s.reader.fills)) + 4 * |Held(s.producer)|
    + (match s.producer case Reading(_) => 3 case Sending(_) => 2 case Stopped => 0)
    + |Waiting(s.served)| + |s.served.queue|
  }

  /** A round of the read loop uses up part of the source, unless it is at its end. */
  lemma RoundUses(r: Reader, line: seq<Byte>)
    requires r.Valid()
    ensures var x := ReadRound(r, line);
            var (before, after) := (|r.current| + Load(r.fills), |x.reader.current| + Load(x.reader.fills));
            && |x.line| >= |line| && before >= after + |x.line| - |line|
            && (r.AtEof() ==> x == Line(r, line))
            && (!r.AtEof() ==> before > after)
  {
    if r.current == [] && r.fills != [] {
      assert r.fills[0].Data? ==> r.fills[0].bytes != [];
    }
    RoundShape(FillBuf(r).0, FillBuf(r).1, line);
  }

  lemma RoundShape(r: Reader, a: Available, line: seq<Byte>)
    requires a.Bytes? ==> r.current == a.bytes != []
    ensures a.Bytes? && Position(a.bytes, NEWLINE).Some? ==> Position(a.bytes, NEWLINE).value < |a.bytes|
  {
  }

  lemma ProduceLowers(s: System, original: seq<Byte>, capacity: nat)
    requires Inv(s, original) && s.producer.Reading?
    ensures Next(s, Produce, capacity).served.pos <= |Next(s, Produce, capacity).served.buf|
    ensures Ahead(Next(s, Produce, capacity)) < Ahead(s)
  {
    RoundUses(s.reader, s.producer.line);
  }

  lemma SendLowers(s: System, original: seq<Byte>, capacity: nat)
    requires Inv(s, original) && s.producer.Sending? && |s.served.queue| < capacity
    ensures Next(s, Send, capacity).served.pos <= |Next(s, Send, capacity).served.buf|
    ensures Ahead(Next(s, Send, capacity)) < Ahead(s)
  {
    LinesSnoc(s.served.queue, s.producer.item);
  }

  lemma ReadLowers(s: System, original: seq<Byte>, room: nat, capacity: nat)
    requires Inv(s, original) && Next(s, Read(room), capacity) != s
    ensures Next(s, Read(room), capacity).served.pos <= |Next(s, Read(room), capacity).served.buf|
    ensures Ahead(Next(s, Read(room), capacity)) < Ahead(s)
  {
    PollConserves(s.served, room);
    PollUses(s.served, room);
    var (served, r) := PollStep(s.served, room);
    if served == s.served && Got(r) == [] {
      NothingGot(s, room, capacity);
    }
  }

  lemma PollUses(s: Served, room: nat)
    ensures var (s', r) := PollStep(s, room);
            && |s'.queue| <= |s.queue|
            && (Got(r) == [] && |s'.queue| == |s.queue| ==> s' == s)
  {
  }

  lemma NothingGot(s: System, room: nat, capacity: nat)
    requires var (served, r) := PollStep(s.served, room); served == s.served && Got(r) == []
    ensures Next(s, Read(room), capacity) == s
  {
    assert s.delivered + [] == s.delivered;
  }

  /** No step undoes another: whatever changes something brings the stream closer to its end. */
  lemma StepLowers(s: System, original: seq<Byte>, step: Step, capacity: nat)
    requires Inv(s, original) && Next(s, step, capacity) != s
    ensures Next(s, step, capacity).served.pos <= |Next(s, step, capacity).served.buf|
    ensures Ahead(Next(s, step, capacity)) < Ahead(s)
  {
    match step
    case Produce => ProduceLowers(s, original, capacity);
    case Send => SendLowers(s, original, capacity);
    case Read(room) => ReadLowers(s, original, room, capacity);
  }

  /** How many of the steps change something. */
  ghost function Effective(fills: seq<Fill>, steps: seq<Step>, capacity: nat): nat {
    if steps == [] then 0
    else
      var (init, last) := (steps[..|steps| - 1], steps[|steps| - 1]);
      var s := Execute(Init(fills), init, capacity);
      Effective(fills, init, capacity) + if Next(s, last, capacity) != s then 1 else 0
  }

  /** In no schedule can more steps have an effect than the source has bytes and pieces, times five, and three. */
  lemma {:induction false} StepsBounded(fills: seq<Fill>, steps: seq<Step>, capacity: nat)
    requires Reader([], fills).Valid()
    ensures var s := Execute(Init(fills), steps, capacity);
            && s.served.pos <= |s.served.buf|
            && Effective(fills, steps, capacity) + Ahead(s) <= 5 * Load(fills) + 3
  {
    if steps != [] {
      var init, last := steps[..|steps| - 1], steps[|steps| - 1];
      var s := Execute(Init(fills), init, capacity);
      StepsBounded(fills, init, capacity);
      ExecuteInv(fills, init, capacity);
      if Next(s, last, capacity) != s {
        StepLowers(s, Reader([], fills).Content(), last, capacity);
      }
    }
  }

  /** Nothing can happen any more: producer and reader have both nothing left to do. */
  ghost predicate Still(s: System, capacity: nat) {
    Next(s, Produce, capacity) == s && Next(s, Send, capacity) == s && Next(s, Read(1), capacity) == s
  }

  lemma StillIsOver(s: System, original: seq<Byte>, capacity: nat)
    requires Inv(s, original) && Still(s, capacity) && capacity > 0
    ensures s.producer.Stopped? && s.served.queue == [] && LineInHand(s.served) == []
  {
    if s.producer.Reading? {
      ProduceLowers(s, original, capacity);
    }
    if s.served.queue == [] && s.producer.Sending? {
      SendLowers(s, original, capacity);
    }
    if LineInHand(s.served) != [] {
      PollServes(s, 1);
    }
  }

  /**
    So every schedule that goes on while something can happen ends, and where nothing can happen any more the next
    poll answers the end: after the error, or with all of a sound source delivered.
   */
  lemma StreamEnds(fills: seq<Fill>, steps: seq<Step>, capacity: nat, room: nat)
    requires Reader([], fills).Valid() && capacity > 0 && Still(Execute(Init(fills), steps, capacity), capacity)
    ensures PollStep(Execute(Init(fills), steps, capacity).served, room).1 == Ready([])
    ensures var answers := Answers(Init(fills), steps, capacity);
            ReadyError in answers || (Sound(fills) && BytesOf(answers) == Reader([], fills).Content())
  {
    var s, original := Execute(Init(fills), steps, capacity), Reader([], fills).Content();
    ExecuteInv(fills, steps, capacity);
    StillIsOver(s, original, capacity);
    PollWaits(s, room);
    PollWaits(s, 1);
    StreamGuarantees(fills, steps, capacity, 1);
  }

  /** The bytes from `i` to `j` start a line and reach at most to its newline. */
  ghost predicate LineRun(original: seq<Byte>, i: nat, j: nat) {
    && i < j <= |original|
    && (i == 0 || original[i - 1] == NEWLINE)
    && NEWLINE !in original[i..j - 1]
  }

  lemma LostIsRun(original: seq<Byte>, sent: seq<Byte>, lost: seq<Byte>)
    requires TooLongLine(lost) && sent + lost <= original
    requires sent == [] || sent[|sent| - 1] == NEWLINE
    ensures LineRun(original, |sent|, |sent| + |lost|)
  {
    assert original[|sent|..|sent| + |lost| - 1] == lost[..|lost| - 1];
    if NEWLINE !in lost {
      assert forall k :: 0 <= k < |lost| - 1 ==> lost[..|lost| - 1][k] == lost[k];
    }
  }

  /** A source that never fails and has no line over the cap is never reported as failed, however long it is in all. */
  lemma ShortLinesNeverFail(fills: seq<Fill>, steps: seq<Step>, capacity: nat)
    requires Reader([], fills).Valid() && Sound(fills)
    requires forall i: nat, j: nat {:trigger LineRun(Reader([], fills).Content(), i, j)} ::
               LineRun(Reader([], fills).Content(), i, j) ==> j - i <= MAX_LINE_SIZE
    ensures !Execute(Init(fills), steps, capacity).failed
    ensures ReadyError !in Answers(Init(fills), steps, capacity)
  {
    var s, original := Execute(Init(fills), steps, capacity), Reader([], fills).Content();
    FailureOnlyFromSource(fills, steps, capacity);
    ExecuteReported(fills, steps, capacity);
    if s.failed {
      LostIsRun(original, Sent(s), s.lost);
      assert false;
    }
  }
}
