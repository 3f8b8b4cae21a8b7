/** Cancel-safe line buffering: a producer task reads lines, a bounded channel carries them, poll_read serves them. */
module LineReaders {
  import opened Prelude

  type Byte = b: nat | b < 256

  const NEWLINE: Byte := 10
  /** 64 MiB. */
  const MAX_LINE_SIZE: nat := 67_108_864

  // ---------------------------------------------------------------------
  // The buffered source
  // ---------------------------------------------------------------------

  /** One refill of the internal buffer: some bytes, or an I/O error. */
  datatype Fill = Data(bytes: seq<Byte>) | Failure

  /** `current` is the unconsumed part of the buffer, `fills` the refills still to come; then the source ends. */
  datatype Reader = Reader(current: seq<Byte>, fills: seq<Fill>)
  {
    ghost predicate Valid() {
      forall i :: 0 <= i < |fills| && fills[i].Data? ==> fills[i].bytes != []
    }

    predicate AtEof() {
      current == [] && fills == []
    }

    /** What the source still yields before it ends or fails. */
    ghost function Content(): seq<Byte> {
      current + Remaining(fills)
    }

    ghost predicate PiecesWithin(n: nat) {
      |current| <= n && forall i :: 0 <= i < |fills| && fills[i].Data? ==> |fills[i].bytes| <= n
    }
  }

  ghost function Remaining(fills: seq<Fill>): seq<Byte> {
    if fills == [] || fills[0].Failure? then [] else fills[0].bytes + Remaining(fills[1..])
  }

  datatype Available = Bytes(bytes: seq<Byte>) | Eof | IoError

  function FillBuf(r: Reader): (Reader, Available) {
    if r.current != [] then (r, Bytes(r.current))
    else if r.fills == [] then (r, Eof)
    else match r.fills[0]
      case Data(b) => (Reader(b, r.fills[1..]), Bytes(b))
      case Failure => (Reader([], r.fills[1..]), IoError)
  }

  function Position(s: seq<Byte>, b: Byte): (r: Option<nat>)
    ensures r.Some? ==> r.value < |s| && s[r.value] == b
  {
    if s == [] then None
    else if s[0] == b then Some(0)
    else match Position(s[1..], b) case Some(i) => Some(i + 1) case None => None
  }

  lemma {:induction false} PositionCorrect(s: seq<Byte>, b: Byte)
    ensures Position(s, b).None? ==> b !in s
    ensures Position(s, b).Some? ==>
              Position(s, b).value < |s| && s[Position(s, b).value] == b && b !in s[..Position(s, b).value]
  {
    if s != [] && s[0] != b {
      PositionCorrect(s[1..], b);
      if Position(s, b).Some? {
        var i := Position(s[1..], b).value;
        assert s[..i + 1] == [s[0]] + s[1..][..i];
      }
    }
  }

  // ---------------------------------------------------------------------
  // Reading one line
  // ---------------------------------------------------------------------

  datatype Reading =
    | More(reader: Reader, line: seq<Byte>)
    | Line(reader: Reader, line: seq<Byte>)
    | TooLong(reader: Reader, line: seq<Byte>)
    | Broken(reader: Reader, line: seq<Byte>)

  /** One round of the read loop: refill, take bytes up to and including a newline, check the cap. */
  function ReadRound(r: Reader, line: seq<Byte>): Reading {
    var (r', available) := FillBuf(r);
    match available
    case IoError => Broken(r', line)
    case Eof => Line(r', line)
    case Bytes(a) =>
      match Position(a, NEWLINE)
      case Some(i) =>
        var (line', r'') := (line + a[..i + 1], r'.(current := a[i + 1..]));
        if |line'| > MAX_LINE_SIZE then TooLong(r'', line') else Line(r'', line')
      case None =>
        var (line', r'') := (line + a, r'.(current := []));
        if |line'| > MAX_LINE_SIZE then TooLong(r'', line') else More(r'', line')
  }

  /** What one round leaves: conservation, a shape for the line, and progress. */
  ghost predicate RoundOk(r: Reader, line: seq<Byte>, x: Reading) {
    && x.reader.Valid()
    && (!x.Broken? ==> x.line + x.reader.Content() == line + r.Content())
    && (x.Broken? ==> x.line == line && r.Content() == [])
    && (NEWLINE !in line && x.More? ==> NEWLINE !in x.line)
    && (NEWLINE !in line && x.Line? ==> LastLine(x.reader, x.line) || EndsLine(x.line))
    && (x.TooLong? ==> |x.line| > MAX_LINE_SIZE && (NEWLINE !in line ==> NEWLINE !in x.line || EndsLine(x.line)))
    && (x.Line? && x.line == [] ==> x.reader.AtEof() && line == [] && r.Content() == [])
    && (r.AtEof() ==> x.Line?)
    && (x.Line? && |line| <= MAX_LINE_SIZE ==> |x.line| <= MAX_LINE_SIZE)
    && (x.More? ==> |x.line| <= MAX_LINE_SIZE && Work(x.reader) < Work(r))
  }

  lemma TakeBytes(r: Reader, line: seq<Byte>, a: seq<Byte>, k: nat)
    requires r.current == a && k <= |a|
    ensures line + a[..k] + r.(current := a[k..]).Content() == line + r.Content()
  {
    assert a == a[..k] + a[k..];
    assert line + a[..k] + (a[k..] + Remaining(r.fills)) == line + (a[..k] + a[k..] + Remaining(r.fills));
  }

  lemma RefillKeeps(r: Reader)
    requires r.Valid()
    ensures var (r', a) := FillBuf(r);
            && r'.Valid()
            && (a.Bytes? ==> r'.current == a.bytes != [] && r'.Content() == r.Content() && |r'.fills| <= |r.fills|
                             && (r.current == [] ==> |r'.fills| < |r.fills|))
            && (!a.Bytes? ==> r.Content() == [])
            && (a.Eof? ==> r' == r && r.AtEof())
  {
    if r.current == [] && r.fills != [] {
      assert r.fills[0].Data? ==> r.fills[0].bytes != [];
    }
  }

  lemma NewlineRound(r: Reader, line: seq<Byte>, a: seq<Byte>, i: nat)
    requires r.Valid() && FillBuf(r).1 == Bytes(a) && Position(a, NEWLINE) == Some(i)
    ensures RoundOk(r, line, ReadRound(r, line))
  {
    RefillKeeps(r);
    PositionCorrect(a, NEWLINE);
    TakeBytes(FillBuf(r).0, line, a, i + 1);
    var line' := line + a[..i + 1];
    assert line'[|line'| - 1] == NEWLINE;
    assert line'[..|line'| - 1] == line + a[..i];
  }

  lemma NoNewlineRound(r: Reader, line: seq<Byte>, a: seq<Byte>)
    requires r.Valid() && FillBuf(r).1 == Bytes(a) && Position(a, NEWLINE).None?
    ensures RoundOk(r, line, ReadRound(r, line))
  {
    RefillKeeps(r);
    PositionCorrect(a, NEWLINE);
    TakeBytes(FillBuf(r).0, line, a, |a|);
    assert a[..|a|] == a && a[|a|..] == [];
  }

  /** A round moves bytes from the source to the line and loses none. */
  lemma ReadRoundConserves(r: Reader, line: seq<Byte>)
    requires r.Valid()
    ensures RoundOk(r, line, ReadRound(r, line))
  {
    var available := FillBuf(r).1;
    RefillKeeps(r);
    if available.Bytes? {
      match Position(available.bytes, NEWLINE) {
        case Some(i) => NewlineRound(r, line, available.bytes, i);
        case None => NoNewlineRound(r, line, available.bytes);
      }
    }
  }

  /** The line buffer outgrows the cap by at most one piece of the source. */
  lemma ReadRoundBound(r: Reader, line: seq<Byte>, n: nat)
    requires r.Valid() && r.PiecesWithin(n) && |line| <= MAX_LINE_SIZE
    ensures |ReadRound(r, line).line| <= MAX_LINE_SIZE + n
    ensures ReadRound(r, line).reader.PiecesWithin(n)
  {
    assert r.fills != [] ==> r.fills[0] in r.fills;
    if r.current != [] {
      PositionCorrect(r.current, NEWLINE);
    } else if r.fills != [] && r.fills[0].Data? {
      PositionCorrect(r.fills[0].bytes, NEWLINE);
    }
  }

  /** Refills and buffered pieces left: what the read loop uses up. */
  ghost function Work(r: Reader): nat {
    2 * |r.fills| + if r.current == [] then 0 else 1
  }

  ghost predicate EndsLine(line: seq<Byte>) {
    line != [] && line[|line| - 1] == NEWLINE && NEWLINE !in line[..|line| - 1]
  }

  /** An unterminated line is only ever the last of the source. */
  ghost predicate LastLine(r: Reader, line: seq<Byte>) {
    r.AtEof() && NEWLINE !in line
  }

  datatype LineError = LineTooLong | SourceFailed

  class BufSource {
    var state: Reader

    constructor (fills: seq<Fill>)
      ensures state == Reader([], fills)
    {
      state := Reader([], fills);
    }

    method Fill() returns (a: Available)
      modifies this
      ensures (state, a) == FillBuf(old(state))
    {
      if state.current != [] {
        a := Bytes(state.current);
      } else if state.fills == [] {
        a := Eof;
      } else {
        match state.fills[0] {
          case Data(b) =>
            state := Reader(b, state.fills[1..]);
            a := Bytes(b);
          case Failure =>
            state := Reader([], state.fills[1..]);
            a := IoError;
        }
      }
    }

    method Consume(n: nat)
      requires n <= |state.current|
      modifies this
      ensures state == old(state).(current := old(state).current[n..])
    {
      state := state.(current := state.current[n..]);
    }
  }

  /**
    Reads one line. On success the line is empty only at the end of the source, ends with
    its only newline, or is the unterminated rest of the source; nothing is lost or reordered.
   */
  method ReadLineCapped(reader: BufSource, ghost piece: nat) returns (r: Result<nat, LineError>, buf: seq<Byte>)
    requires reader.state.Valid() && reader.state.PiecesWithin(piece)
    modifies reader
    ensures reader.state.Valid()
    ensures r != Err(SourceFailed) ==> buf + reader.state.Content() == old(reader.state).Content()
    ensures r == Err(SourceFailed) ==> buf == old(reader.state).Content()
    ensures r.Ok? ==> r.value == |buf| <= MAX_LINE_SIZE && (EndsLine(buf) || LastLine(reader.state, buf))
    ensures r == Err(LineTooLong) ==> MAX_LINE_SIZE < |buf| <= MAX_LINE_SIZE + piece
    ensures NEWLINE in buf ==> EndsLine(buf)
  {
    buf := [];
    while true
      invariant reader.state.Valid() && reader.state.PiecesWithin(piece)
      invariant buf + reader.state.Content() == old(reader.state).Content()
      invariant NEWLINE !in buf && |buf| <= MAX_LINE_SIZE
      decreases Work(reader.state)
    {
      ReadRoundConserves(reader.state, buf);
      ReadRoundBound(reader.state, buf, piece);
      var round := TakeRound(reader, buf);
      buf := round.line;
      match round {
        case More(_, _) =>
        case Line(_, _) => return Ok(|buf|), buf;
        case TooLong(_, _) => return Err(LineTooLong), buf;
        case Broken(_, _) => return Err(SourceFailed), buf;
      }
    }
  }

  /** The body of the read loop. */
  method TakeRound(reader: BufSource, line: seq<Byte>) returns (round: Reading)
    modifies reader
    ensures round == ReadRound(old(reader.state), line) && reader.state == round.reader
  {
    var available := reader.Fill();
    if available.IoError? {
      return Broken(reader.state, line);
    }
    if available.Eof? {
      return Line(reader.state, line);
    }
    var a, buf := available.bytes, line;
    var consumed, done;
    match Position(a, NEWLINE) {
      case Some(i) =>
        buf := buf + a[..i + 1];
        consumed, done := i + 1, true;
      case None =>
        buf := buf + a;
        consumed, done := |a|, false;
    }
    reader.Consume(consumed);
    if |buf| > MAX_LINE_SIZE {
      return TooLong(reader.state, buf);
    }
    round := if done then Line(reader.state, buf) else More(reader.state, buf);
  }

  // ---------------------------------------------------------------------
  // The channel and the served side
  // ---------------------------------------------------------------------

  datatype Item = Complete(line: seq<Byte>) | Failed

  datatype Poll = Ready(bytes: seq<Byte>) | ReadyError | Pending

  /** The served side: the line being served, how far it has been served, and the queued items. */
  datatype Served = Served(buf: seq<Byte>, pos: nat, queue: seq<Item>, closed: bool)

  /** One poll with room for `n` bytes. */
  function PollStep(s: Served, n: nat): (Served, Poll) {
    if s.pos < |s.buf| then
      var m := if |s.buf| - s.pos < n then |s.buf| - s.pos else n;
      var s' := if s.pos + m >= |s.buf| then s.(buf := [], pos := 0) else s.(pos := s.pos + m);
      (s', Ready(s.buf[s.pos..s.pos + m]))
    else if s.queue != [] then
      var rest := s.(queue := s.queue[1..]);
      match s.queue[0]
      case Complete(line) =>
        var m := if |line| < n then |line| else n;
        ((if m < |line| then rest.(buf := line, pos := m) else rest), Ready(line[..m]))
      case Failed => (rest, ReadyError)
    else if s.closed then (s, Ready([]))
    else (s, Pending)
  }

  class Receiver {
    var queue: seq<Item>
    var closed: bool

    constructor ()
      ensures queue == [] && !closed
    {
      queue, closed := [], false;
    }
  }

  class LineBufferedRead {
    var buf: seq<Byte>
    var pos: nat
    const rx: Receiver

    constructor (receiver: Receiver)
      ensures rx == receiver && buf == [] && pos == 0
    {
      buf, pos, rx := [], 0, receiver;
    }

    function View(): Served
      reads this, rx
    {
      Served(buf, pos, rx.queue, rx.closed)
    }

    /** Serves the current line, else takes the next item; `out` beyond the bytes served is untouched. */
    method PollRead(out: array<Byte>) returns (r: Poll)
      modifies this`buf, this`pos, rx`queue, out
      ensures (View(), r) == PollStep(old(View()), out.Length)
      ensures r.Ready? ==> |r.bytes| <= out.Length && out[..|r.bytes|] == r.bytes
      ensures forall i :: (if r.Ready? then |r.bytes| else 0) <= i < out.Length ==> out[i] == old(out[i])
    {
      if pos < |buf| {
        var avail := |buf| - pos;
        var n := if avail < out.Length then avail else out.Length;
        CopyInto(out, buf[pos..pos + n]);
        r := Ready(buf[pos..pos + n]);
        pos := pos + n;
        if pos >= |buf| {
          buf := [];
          pos := 0;
        }
        return;
      }
      if rx.queue != [] {
        var item := rx.queue[0];
        rx.queue := rx.queue[1..];
        match item {
          case Complete(line) =>
            var n := if |line| < out.Length then |line| else out.Length;
            CopyInto(out, line[..n]);
            if n < |line| {
              buf := line;
              pos := n;
            }
            r := Ready(line[..n]);
          case Failed =>
            r := ReadyError;
        }
      } else if rx.closed {
        r := Ready([]);
      } else {
        r := Pending;
      }
    }
  }

  method CopyInto(out: array<Byte>, bytes: seq<Byte>)
    requires |bytes| <= out.Length
    modifies out
    ensures out[..|bytes|] == bytes
    ensures forall i :: |bytes| <= i < out.Length ==> out[i] == old(out[i])
  {
    for i := 0 to |bytes|
      invariant out[..i] == bytes[..i]
      invariant forall k :: |bytes| <= k < out.Length ==> out[k] == old(out[k])
    {
      out[i] := bytes[i];
    }
  }
}
