/**
 One connection of the query server: requests arrive and replies leave in pieces of any size.
 Whatever the pieces, the requests dispatched are the frames of the byte stream received, and
 the bytes sent are whole frames in order.
 */
module Framing {
  import opened Common
  import opened Wire

  const REQUEST_LIMIT: nat := 4096

  /** A request as it is dispatched. */
  datatype Frame = Frame(header: Header, body: seq<byte>)

  // ------------------------------------------------------------ the reference: parsing the whole stream

  /** Whole frames, then either the start of another, or a header that ends the connection. */
  datatype Parsed = Open(frames: seq<Frame>, rest: seq<byte>) | Broken(frames: seq<Frame>)

  /** A header a receiver accepts: the server from a client up to REQUEST_LIMIT, a client up to LIMIT. */
  predicate Acceptable(s: seq<byte>, limit: nat)
    requires |s| == HEADER_SIZE
  {
    GetHeader(s).Some? && GetHeader(s).value.size <= limit
  }

  function Total(s: seq<byte>): nat
    requires |s| >= HEADER_SIZE && GetHeader(s[..HEADER_SIZE]).Some?
  {
    HEADER_SIZE + GetHeader(s[..HEADER_SIZE]).value.size
  }

  function FirstFrame(s: seq<byte>): Frame
    requires |s| >= HEADER_SIZE && GetHeader(s[..HEADER_SIZE]).Some? && |s| >= Total(s)
  {
    Frame(GetHeader(s[..HEADER_SIZE]).value, s[HEADER_SIZE..Total(s)])
  }

  function Before(f: seq<Frame>, p: Parsed): Parsed {
    match p
    case Open(frames, rest) => Open(f + frames, rest)
    case Broken(frames) => Broken(f + frames)
  }

  function Parse(s: seq<byte>, limit: nat): Parsed
    decreases |s|
  {
    if |s| < HEADER_SIZE then Open([], s)
    else if !Acceptable(s[..HEADER_SIZE], limit) then Broken([])
    else if |s| < Total(s) then Open([], s)
    else Before([FirstFrame(s)], Parse(s[Total(s)..], limit))
  }

  /** What is complete stays complete: more bytes only extend the rest. */
  lemma {:induction false} ParseMore(s: seq<byte>, t: seq<byte>, limit: nat)
    requires Parse(s, limit).Open?
    ensures Parse(s + t, limit) == Before(Parse(s, limit).frames, Parse(Parse(s, limit).rest + t, limit))
    decreases |s|
  {
    hide GetHeader;
    if |s| < HEADER_SIZE || |s| < Total(s) {
      var p := Parse(s + t, limit);
      assert [] + p.frames == p.frames;
    } else {
      var n := Total(s);
      assert (s + t)[..HEADER_SIZE] == s[..HEADER_SIZE];
      assert (s + t)[HEADER_SIZE..n] == s[HEADER_SIZE..n] && (s + t)[n..] == s[n..] + t;
      ParseMore(s[n..], t, limit);
      var rest := Parse(s[n..], limit);
      BeforeTwice([FirstFrame(s)], rest.frames, Parse(rest.rest + t, limit));
    }
  }

  lemma BeforeTwice(f: seq<Frame>, g: seq<Frame>, p: Parsed)
    ensures Before(f, Before(g, p)) == Before(f + g, p)
  {
    assert f + (g + p.frames) == (f + g) + p.frames;
  }

  /** A frame's bytes. */
  function Bytes(f: Frame): seq<byte>
    requires Sendable(f.header)
  {
    PutHeader(f.header) + f.body
  }

  ghost predicate Proper(f: Frame, limit: nat) {
    Sendable(f.header) && |f.body| == f.header.size <= limit
  }

  ghost predicate AllProper(frames: seq<Frame>, limit: nat) {
    forall i :: 0 <= i < |frames| ==> Proper(frames[i], limit)
  }

  ghost function Stream(frames: seq<Frame>, limit: nat): seq<byte>
    requires AllProper(frames, limit)
  {
    if frames == [] then [] else Stream(frames[..|frames| - 1], limit) + Bytes(frames[|frames| - 1])
  }

  lemma ParseOne(f: Frame, limit: nat)
    requires Proper(f, limit)
    ensures Parse(Bytes(f), limit) == Open([f], [])
  {
    var s := Bytes(f);
    HeaderRoundTrip(f.header);
    hide GetHeader, PutHeader;
    assert s[..HEADER_SIZE] == PutHeader(f.header);
    assert s[HEADER_SIZE..Total(s)] == f.body && s[Total(s)..] == [];
    assert Parse([], limit) == Open([], []);
  }

  /** The start of a frame is parsed as an incomplete one. */
  lemma ParsePart(f: Frame, n: nat, limit: nat)
    requires Proper(f, limit) && n < |Bytes(f)|
    ensures Parse(Bytes(f)[..n], limit) == Open([], Bytes(f)[..n])
  {
    var s, t := Bytes(f), Bytes(f)[..n];
    HeaderRoundTrip(f.header);
    hide GetHeader, PutHeader;
    assert n >= HEADER_SIZE ==> t[..HEADER_SIZE] == PutHeader(f.header);
  }

  /** Reading back: the bytes of frames, then the start of another, are parsed as just that. */
  lemma {:induction false} ParseStream(frames: seq<Frame>, limit: nat)
    requires AllProper(frames, limit)
    ensures Parse(Stream(frames, limit), limit) == Open(frames, [])
  {
    hide Parse, Bytes;
    if frames == [] {
      ParseNothing(limit);
    } else {
      var n := |frames| - 1;
      var s, f := Stream(frames[..n], limit), frames[n];
      ParseStream(frames[..n], limit);
      ParseMore(s, Bytes(f), limit);
      assert [] + Bytes(f) == Bytes(f);
      ParseOne(f, limit);
      assert frames[..n] + [f] == frames;
    }
  }

  lemma ParseNothing(limit: nat)
    ensures Parse([], limit) == Open([], [])
  {
  }

  // ------------------------------------------------------------ the connection

  /** What the connection is doing: reading a request, waiting for the inspector, or writing. */
  datatype Phase = Reading | Waiting | Writing(frame: Frame, sent: nat)

  /** A frame the server began to write: in answer to a request, or pushed to a subscriber. */
  datatype Started = Answered(frame: Frame, response: Response) | Pushed(frame: Frame)

  /** What handling a request comes to. */
  datatype Response = Success(body: seq<byte>) | Failure(body: seq<byte>)

  datatype Conn = Conn(
    buffer: seq<byte>,          // the used part of the request buffer
    expected: nat,
    phase: Phase,
    closed: bool,
    received: seq<byte>,        // all bytes taken from the socket
    dispatched: seq<Frame>,     // all requests handled
    output: seq<byte>,          // all bytes given to the socket
    replies: seq<Frame>,        // all frames written, whole
    started: seq<Started>)      // all frames begun

  datatype Step =
    | Receive(chunk: seq<byte>, answer: Option<Response>)   // answer: at once, or none for the inspector
    | JobDone(result: Response)
    | Push(frame: Frame)
    | Send(n: nat)
    | Close

  const START := Conn([], HEADER_SIZE, Reading, false, [], [], [], [], [])

  const REPLY: nat := 0x8000
  const ERROR: nat := 0xffff

  /** The type of a successful reply: the request's, with the top bit set. */
  function ReplyKind(kind: nat): nat {
    if kind >= REPLY then kind else kind + REPLY
  }

  /** A frame as the server builds it: the header says the type, the id and the body's length. */
  function Built(kind: nat, id: nat, body: seq<byte>): Frame {
    Frame(Header(kind, id, |body|), body)
  }

  function ReplyTo(h: Header, r: Response): Frame {
    Built(if r.Success? then ReplyKind(h.kind) else ERROR, h.id, r.body)
  }

  function Start(c: Conn, f: Started): Conn {
    c.(buffer := [], expected := HEADER_SIZE, phase := Writing(f.frame, 0), started := c.started + [f])
  }

  /** Taking bytes from the socket: a full header says how much more to expect, a full request
      is dispatched, and a bad header closes the connection. */
  function Take(c: Conn, chunk: seq<byte>, answer: Option<Response>): Conn
    requires c.expected >= HEADER_SIZE
  {
    var b := c.buffer + chunk;
    var c1 := c.(buffer := b, received := c.received + chunk);
    var headerDone := |b| == HEADER_SIZE && c.expected == HEADER_SIZE;
    if headerDone && !Acceptable(b, REQUEST_LIMIT) then c1.(closed := true)
    else
      var expected := if headerDone then HEADER_SIZE + GetHeader(b).value.size else c.expected;
      if |b| != expected || GetHeader(b[..HEADER_SIZE]).None? then c1.(expected := expected)
      else
        var h := GetHeader(b[..HEADER_SIZE]).value;
        var c2 := c1.(expected := expected, dispatched := c.dispatched + [Frame(h, b[HEADER_SIZE..])]);
        match answer
        case Some(r) => Start(c2, Answered(ReplyTo(h, r), r))
        case None => c2.(phase := Waiting)
  }

  ghost predicate Legal(f: Frame) {
    Proper(f, LIMIT)
  }

  /** How much one send may take: the rest of the header, then the rest of the body. */
  function Room(frame: Frame, sent: nat): nat
    requires sent <= HEADER_SIZE + |frame.body|
  {
    if sent < HEADER_SIZE then HEADER_SIZE - sent else HEADER_SIZE + |frame.body| - sent
  }

  ghost predicate Enabled(c: Conn, step: Step) {
    !c.closed &&
    match step
    case Receive(chunk, answer) =>
      c.phase.Reading? && HEADER_SIZE <= c.expected && 0 < |chunk| && |c.buffer| + |chunk| <= c.expected
      && (answer.Some? ==> |answer.value.body| <= LIMIT)
    case JobDone(result) => c.phase.Waiting? && c.dispatched != [] && |result.body| <= LIMIT
    case Push(frame) => c.phase.Reading? && c.buffer == [] && Legal(frame)
    case Send(n) =>
      && c.phase.Writing? && Legal(c.phase.frame) && c.phase.sent <= |Bytes(c.phase.frame)|
      && 0 < n <= Room(c.phase.frame, c.phase.sent)
    case Close => true
  }

  ghost function Do(c: Conn, step: Step): Conn {
    if !Enabled(c, step) then c
    else
      match step
      case Receive(chunk, answer) => Take(c, chunk, answer)
      case JobDone(result) => Start(c, Answered(ReplyTo(c.dispatched[|c.dispatched| - 1].header, result), result))
      case Push(frame) => Start(c, Pushed(frame))
      case Send(n) =>
        var frame, sent := c.phase.frame, c.phase.sent + n;
        var c1 := c.(output := c.output + Bytes(frame)[c.phase.sent..sent]);
        if sent == |Bytes(frame)| then c1.(phase := Reading, replies := c.replies + [frame])
        else c1.(phase := Writing(frame, sent))
      case Close => c.(closed := true)
  }

  ghost function Run(c: Conn, steps: seq<Step>): Conn {
    if steps == [] then c else Do(Run(c, steps[..|steps| - 1]), steps[|steps| - 1])
  }

  // ------------------------------------------------------------ what every run keeps

  /** The frame being written has gone out up to here. */
  ghost function Partial(p: Phase): seq<byte> {
    if p.Writing? && Legal(p.frame) && p.sent <= |Bytes(p.frame)| then Bytes(p.frame)[..p.sent] else []
  }

  ghost predicate InputOk(c: Conn) {
    && Parse(c.received, REQUEST_LIMIT).frames == c.dispatched
    && HEADER_SIZE <= c.expected <= HEADER_SIZE + REQUEST_LIMIT && |c.buffer| <= c.expected
    && (!c.closed ==>
          match c.phase
          case Reading =>
            && Parse(c.received, REQUEST_LIMIT) == Parsed.Open(c.dispatched, c.buffer)
            && |c.buffer| < c.expected
            && (if |c.buffer| < HEADER_SIZE then c.expected == HEADER_SIZE
                else Acceptable(c.buffer[..HEADER_SIZE], REQUEST_LIMIT) && c.expected == Total(c.buffer))
          case Waiting => Parse(c.received, REQUEST_LIMIT) == Parsed.Open(c.dispatched, [])
          case Writing(_, _) =>
            Parse(c.received, REQUEST_LIMIT) == Parsed.Open(c.dispatched, []) && c.buffer == [] && c.expected == HEADER_SIZE)
  }

  /** The bytes sent are whole replies and the start of the current one. */
  ghost predicate OutputOk(c: Conn) {
    && (c.phase.Writing? ==> Legal(c.phase.frame) && c.phase.sent < |Bytes(c.phase.frame)|)
    && AllProper(c.replies, LIMIT)
    && c.output == Stream(c.replies, LIMIT) + Partial(c.phase)
    && (forall i :: 0 <= i < |c.dispatched| ==> Sendable(c.dispatched[i].header))
    && (c.phase.Waiting? ==> c.dispatched != [])
  }

  /** The frames begun, and those of them that answer requests. */
  function Frames(started: seq<Started>): seq<Frame> {
    if started == [] then [] else Frames(started[..|started| - 1]) + [started[|started| - 1].frame]
  }

  function Answers(started: seq<Started>): (r: seq<Started>)
    ensures forall i :: 0 <= i < |r| ==> r[i].Answered?
  {
    if started == [] then []
    else
      var n := |started| - 1;
      if started[n].Answered? then Answers(started[..n]) + [started[n]] else Answers(started[..n])
  }

  /** A reply to a request: under its id, with the body given and its length, of the request's type
      with the top bit set, or of the error type if handling it failed. */
  predicate IsReply(f: Frame, h: Header, r: Response) {
    && f.header.id == h.id && f.body == r.body && f.header.size == |r.body|
    && (r.Failure? ==> f.header.kind == 0xffff)
    && (r.Success? ==> f.header.kind == if h.kind >= 0x8000 then h.kind else h.kind + 0x8000)
  }

  function Writes(p: Phase): seq<Frame> {
    if p.Writing? then [p.frame] else []
  }

  /** The frames written are those begun, and the answers among them answer the requests one after another. */
  ghost predicate AnswersOk(c: Conn) {
    && Frames(c.started) == c.replies + Writes(c.phase)
    && |Answers(c.started)| == |c.dispatched| - (if c.phase.Waiting? then 1 else 0)
    && forall i :: 0 <= i < |Answers(c.started)| ==> IsReply(Answers(c.started)[i].frame, c.dispatched[i].header, Answers(c.started)[i].response)
  }

  lemma StartedSnoc(started: seq<Started>, f: Started)
    ensures Frames(started + [f]) == Frames(started) + [f.frame]
    ensures Answers(started + [f]) == if f.Answered? then Answers(started) + [f] else Answers(started)
  {
    assert (started + [f])[..|started|] == started;
  }

  lemma StepAnswers(c: Conn, step: Step)
    requires AnswersOk(c)
    ensures AnswersOk(Do(c, step))
  {
    hide Frames, Answers, GetHeader, Acceptable;
    var c' := Do(c, step);
    if c'.started != c.started {
      var f := c'.started[|c.started|];
      assert c'.started == c.started + [f];
      StartedSnoc(c.started, f);
    } else if Enabled(c, step) && step.Send? {
      assert c.replies + [c.phase.frame] == (c.replies + [c.phase.frame]) + [];
    }
  }

  /** One more piece of input, against the parse of the whole stream. */
  lemma TakeParses(c: Conn, chunk: seq<byte>, answer: Option<Response>)
    requires InputOk(c) && Enabled(c, Receive(chunk, answer))
    ensures InputOk(Take(c, chunk, answer))
  {
    hide GetHeader, Parse;
    var b, h := c.buffer + chunk, HEADER_SIZE;
    ParseMore(c.received, chunk, REQUEST_LIMIT);
    if |b| >= h {
      assert |c.buffer| >= h ==> b[..h] == c.buffer[..h];
      assert |b| == h ==> b[..h] == b;
    }
    assert c.dispatched + [] == c.dispatched;
    ParseBuffer(b);
  }

  /** The parse of a buffer that holds at most one request. */
  lemma ParseBuffer(b: seq<byte>)
    ensures |b| < HEADER_SIZE ==> Parse(b, REQUEST_LIMIT) == Parsed.Open([], b)
    ensures |b| >= HEADER_SIZE && !Acceptable(b[..HEADER_SIZE], REQUEST_LIMIT) ==> Parse(b, REQUEST_LIMIT) == Broken([])
    ensures |b| >= HEADER_SIZE && Acceptable(b[..HEADER_SIZE], REQUEST_LIMIT) && |b| < Total(b) ==> Parse(b, REQUEST_LIMIT) == Parsed.Open([], b)
    ensures |b| >= HEADER_SIZE && Acceptable(b[..HEADER_SIZE], REQUEST_LIMIT) && |b| == Total(b) ==>
              Parse(b, REQUEST_LIMIT) == Parsed.Open([Frame(GetHeader(b[..HEADER_SIZE]).value, b[HEADER_SIZE..])], [])
  {
    hide GetHeader;
    if |b| >= HEADER_SIZE && Acceptable(b[..HEADER_SIZE], REQUEST_LIMIT) && |b| == Total(b) {
      assert b[Total(b)..] == [] && b[HEADER_SIZE..Total(b)] == b[HEADER_SIZE..];
      assert Parse([], REQUEST_LIMIT) == Parsed.Open([], []);
    }
  }

  lemma StepInput(c: Conn, step: Step)
    requires InputOk(c)
    ensures InputOk(Do(c, step))
  {
    hide Take, Parse;
    if Enabled(c, step) && step.Receive? {
      TakeParses(c, step.chunk, step.answer);
    }
  }

  lemma StepOutput(c: Conn, step: Step)
    requires OutputOk(c)
    ensures OutputOk(Do(c, step))
  {
    hide GetHeader, Acceptable, Stream, Bytes, Proper;
    if Enabled(c, step) {
      if step.Send? {
        SendOutput(c, step.n);
      } else {
        var c' := Do(c, step);
        if c'.phase.Writing? && !step.Close? {
          BegunLegal(c, step);
          Nonempty(c'.phase.frame);
        }
      }
    }
  }

  lemma ReplyLegal(h: Header, r: Response)
    requires Sendable(h) && |r.body| <= LIMIT
    ensures Legal(ReplyTo(h, r))
  {
  }

  /** Every frame begun is legal. */
  lemma BegunLegal(c: Conn, step: Step)
    requires OutputOk(c) && Enabled(c, step) && !step.Send? && !step.Close? && Do(c, step).phase.Writing?
    ensures Legal(Do(c, step).phase.frame) && Do(c, step).phase.sent == 0
  {
    hide Acceptable, Stream, Bytes, Legal, ReplyTo;
    var c' := Do(c, step);
    if step.JobDone? {
      ReplyLegal(c.dispatched[|c.dispatched| - 1].header, step.result);
    } else if step.Receive? {
      ReplyLegal(c'.dispatched[|c'.dispatched| - 1].header, step.answer.value);
    }
  }

  lemma Nonempty(f: Frame)
    requires Legal(f)
    ensures |Bytes(f)| >= HEADER_SIZE && Bytes(f)[..0] == []
  {
  }

  lemma SendOutput(c: Conn, n: nat)
    requires OutputOk(c) && Enabled(c, Send(n))
    ensures OutputOk(Do(c, Send(n)))
  {
    hide Stream;
    var frame, sent := c.phase.frame, c.phase.sent;
    var bytes, before := Bytes(frame), Stream(c.replies, LIMIT);
    assert bytes[..sent] + bytes[sent..sent + n] == bytes[..sent + n];
    assert (before + bytes[..sent]) + bytes[sent..sent + n] == before + bytes[..sent + n];
    if sent + n == |bytes| {
      assert bytes[..|bytes|] == bytes;
      StreamSnoc(c.replies, frame);
      assert (before + bytes) + [] == before + bytes;
    }
  }

  lemma StreamSnoc(frames: seq<Frame>, f: Frame)
    requires AllProper(frames, LIMIT) && Proper(f, LIMIT)
    ensures AllProper(frames + [f], LIMIT) && Stream(frames + [f], LIMIT) == Stream(frames, LIMIT) + Bytes(f)
  {
    assert (frames + [f])[..|frames|] == frames;
  }

  /** A client that parses the bytes sent finds exactly the replies, and the start of the current one. */
  lemma OutputParses(c: Conn)
    requires OutputOk(c)
    ensures Parse(c.output, LIMIT) == Parsed.Open(c.replies, Partial(c.phase))
  {
    hide Parse, Bytes, Proper, Stream;
    ParseStream(c.replies, LIMIT);
    ParseMore(Stream(c.replies, LIMIT), Partial(c.phase), LIMIT);
    assert [] + Partial(c.phase) == Partial(c.phase);
    if c.phase.Writing? {
      ParsePart(c.phase.frame, c.phase.sent, LIMIT);
    } else {
      ParseNothing(LIMIT);
    }
  }

  /** For every way the socket splits reads and writes, and every way replies, inspector results
      and pushed frames come between: the requests dispatched are exactly the frames of the bytes
      received, and the bytes sent are parsed as exactly the replies written and the start of the
      current one. */
  lemma {:induction false} EveryRun(steps: seq<Step>)
    ensures InputOk(Run(START, steps)) && OutputOk(Run(START, steps)) && AnswersOk(Run(START, steps))
    ensures var c := Run(START, steps); Parse(c.output, LIMIT) == Parsed.Open(c.replies, Partial(c.phase))
  {
    hide Do, InputOk, OutputOk, AnswersOk, Parse;
    if steps == [] {
      StartOk();
    } else {
      EveryRun(steps[..|steps| - 1]);
      StepInput(Run(START, steps[..|steps| - 1]), steps[|steps| - 1]);
      StepOutput(Run(START, steps[..|steps| - 1]), steps[|steps| - 1]);
      StepAnswers(Run(START, steps[..|steps| - 1]), steps[|steps| - 1]);
    }
    OutputParses(Run(START, steps));
  }

  lemma InputBounds(c: Conn)
    requires InputOk(c)
    ensures HEADER_SIZE <= c.expected <= HEADER_SIZE + REQUEST_LIMIT && |c.buffer| <= c.expected
    ensures !c.closed && c.phase.Reading? && |c.buffer| >= HEADER_SIZE ==> GetHeader(c.buffer[..HEADER_SIZE]).Some?
    ensures !c.closed && c.phase.Reading? && |c.buffer| < HEADER_SIZE ==> c.expected == HEADER_SIZE
  {
    hide Parse;
  }

  lemma StartOk()
    ensures InputOk(START) && OutputOk(START) && AnswersOk(START)
  {
  }

  /** A pushed frame is possible only between requests, so it never discards part of one; once it
      is out, reading goes on where it stopped. */
  lemma PushBetweenRequests(c: Conn, frame: Frame)
    requires InputOk(c) && Enabled(c, Push(frame))
    ensures Parse(c.received, REQUEST_LIMIT).rest == [] && Do(c, Push(frame)).received == c.received
    ensures Do(c, Push(frame)).dispatched == c.dispatched
  {
  }
}

/** The connection as the server keeps it: a fixed request buffer filled in place, and a reply sent
    from two separate buffers, header first. */
module FramingServer {
  import opened Common
  import opened Wire
  import opened Framing

  class Connection {
    const request: array<byte>
    var used: nat
    var expected: nat
    var header: seq<byte>
    var response: seq<byte>
    var sent: nat
    var writing: bool
    var waiting: bool
    var closed: bool
    var incoming: Header
    // what has passed through and what is being written, for the specification
    ghost var received: seq<byte>
    ghost var dispatched: seq<Frame>
    ghost var output: seq<byte>
    ghost var replies: seq<Frame>
    ghost var current: Frame
    ghost var started: seq<Started>

    ghost function View(): Conn
      requires used <= request.Length
      reads this, request
    {
      Conn(request[..used], expected,
           if writing then Writing(current, sent) else if waiting then Waiting else Reading,
           closed, received, dispatched, output, replies, started)
    }

    /** While writing, the two buffers hold a legal reply and the request buffer is empty. */
    ghost predicate Loaded()
      reads this
    {
      writing ==> !waiting && used == 0 && Legal(current) && header == PutHeader(current.header) && response == current.body
    }

    /** The buffer is never overrun, and the history is that of a run. */
    ghost predicate Valid()
      reads this, request
    {
      && request.Length == HEADER_SIZE + REQUEST_LIMIT
      && used <= expected <= request.Length
      && Loaded()
      && (waiting ==> dispatched != [] && incoming == dispatched[|dispatched| - 1].header)
      && (!closed && !writing && !waiting && used >= HEADER_SIZE ==> GetHeader(request[..HEADER_SIZE]) == Some(incoming))
      && InputOk(View()) && OutputOk(View()) && AnswersOk(View())
    }

    constructor ()
      ensures Valid() && View() == START && fresh(request)
    {
      request := new byte[HEADER_SIZE + REQUEST_LIMIT](i => 0);
      used, expected, header, response, sent := 0, HEADER_SIZE, [], [], 0;
      writing, waiting, closed := false, false, false;
      incoming, received, dispatched, output, replies, started := Header(0, 0, 0), [], [], [], [], [];
      new;
      assert request[..used] == [];
      StartOk();
    }

    /** Loads a frame: the header is written with the type, the id and the body's length, and the request buffer
        starts over. */
    method Load(kind: nat, id: nat, body: seq<byte>, ghost answer: Option<Response>)
      requires Legal(Built(kind, id, body))
      modifies this`header, this`response, this`sent, this`writing, this`waiting, this`used, this`expected, this`current, this`started
      ensures Loaded() && writing && !waiting && sent == 0 && used == 0 && expected == HEADER_SIZE
      ensures current == Built(kind, id, body)
      ensures started == old(started) + [if answer.Some? then Answered(current, answer.value) else Pushed(current)]
    {
      header, response, sent, writing, waiting := PutHeader(Header(kind, id, |body|)), body, 0, true, false;
      used, expected, current := 0, HEADER_SIZE, Built(kind, id, body);
      started := started + [if answer.Some? then Answered(current, answer.value) else Pushed(current)];
    }

    /** A reply to the request last read: under its id and type, or an error under its id. */
    method Respond(r: Response)
      requires Sendable(incoming) && |r.body| <= LIMIT
      modifies this`header, this`response, this`sent, this`writing, this`waiting, this`used, this`expected, this`current, this`started
      ensures Loaded() && writing && !waiting && sent == 0 && used == 0 && expected == HEADER_SIZE
      ensures current == ReplyTo(incoming, r) && started == old(started) + [Answered(current, r)]
    {
      ReplyLegal(incoming, r);
      match r
      case Success(body) => Load(ReplyKind(incoming.kind), incoming.id, body, Some(r));
      case Failure(body) => Load(ERROR, incoming.id, body, Some(r));
    }

    /** The inspector's result for the request it was given. */
    method FinishJob(r: Response)
      requires Valid() && !closed && !writing && waiting && |r.body| <= LIMIT
      modifies this
      ensures Valid() && View() == Do(old(View()), JobDone(r))
    {
      hide InputOk, AnswersOk, Proper, Stream;
      ghost var c, step := View(), JobDone(r);
      StepInput(c, step);
      StepOutput(c, step);
      StepAnswers(c, step);
      Respond(r);
      assert request[..used] == [];
      assert View() == Do(c, step);
    }

    /** A snapshot or event frame to a subscriber, between requests. */
    method PushFrame(kind: nat, id: nat, body: seq<byte>)
      requires Valid() && !closed && !writing && !waiting && used == 0 && Legal(Built(kind, id, body))
      modifies this
      ensures Valid() && View() == Do(old(View()), Push(Built(kind, id, body)))
    {
      hide InputOk, OutputOk, AnswersOk, Proper;
      ghost var c, step := View(), Push(Built(kind, id, body));
      StepInput(c, step);
      StepOutput(c, step);
      StepAnswers(c, step);
      Load(kind, id, body, None);
      assert request[..used] == [];
      assert View() == Do(c, step);
    }

    /** Takes what the socket has, at most what is still expected; answers a whole request at once
        or leaves it to the inspector. */
    method ReadRequest(chunk: seq<byte>, answer: Option<Response>)
      requires Valid() && !closed && !writing && !waiting
      requires 0 < |chunk| <= expected - used
      requires answer.Some? ==> |answer.value.body| <= LIMIT
      modifies this, request
      ensures Valid() && View() == Do(old(View()), Receive(chunk, answer))
    {
      hide InputOk, OutputOk, AnswersOk, GetHeader, Proper;
      ghost var c := View();
      InputBounds(c);
      StepInput(c, Receive(chunk, answer));
      StepOutput(c, Receive(chunk, answer));
      StepAnswers(c, Receive(chunk, answer));
      Fill(chunk);
      ghost var b := c.buffer + chunk;
      assert request[..used] == b;
      assert used >= HEADER_SIZE ==> request[..HEADER_SIZE] == b[..HEADER_SIZE];
      assert |c.buffer| >= HEADER_SIZE ==> b[..HEADER_SIZE] == old(request[..HEADER_SIZE]);
      if used == HEADER_SIZE && expected == HEADER_SIZE {
        assert b[..HEADER_SIZE] == b;
        var h := GetHeader(request[..HEADER_SIZE]);
        if h.None? || h.value.size > REQUEST_LIMIT {
          closed := true;
          return;
        }
        incoming := h.value;
        expected := expected + h.value.size;
      }
      if used == expected {
        Dispatch(answer);
      }
    }

    /** A whole request is in the buffer. */
    method Dispatch(answer: Option<Response>)
      requires HEADER_SIZE <= used <= request.Length && !writing && !waiting
      requires GetHeader(request[..used][..HEADER_SIZE]) == Some(incoming)
      requires answer.Some? ==> |answer.value.body| <= LIMIT
      modifies this`dispatched, this`header, this`response, this`sent, this`writing, this`waiting, this`used, this`expected
      modifies this`current, this`started
      ensures used <= request.Length && used <= old(used) && Loaded()
      ensures waiting ==> dispatched != [] && incoming == dispatched[|dispatched| - 1].header
      ensures writing || waiting
      ensures
        var c := old(View());
        var c' := c.(dispatched := c.dispatched + [Frame(incoming, c.buffer[HEADER_SIZE..])]);
        View() == if answer.Some? then Framing.Start(c', Answered(ReplyTo(incoming, answer.value), answer.value)) else c'.(phase := Waiting)
    {
      hide GetHeader, Proper;
      ghost var b := request[..used];
      dispatched := dispatched + [Frame(incoming, b[HEADER_SIZE..])];
      match answer {
        case Some(r) =>
          Respond(r);
          assert request[..used] == [];
        case None =>
          waiting := true;
      }
    }

    method Fill(chunk: seq<byte>)
      requires used + |chunk| <= request.Length
      modifies this`used, this`received, request
      ensures used == old(used) + |chunk| && request[..used] == old(request[..used]) + chunk
      ensures received == old(received) + chunk
    {
      ghost var before := request[..used];
      for i := 0 to |chunk|
        invariant used == old(used) && received == old(received)
        invariant request[..used] == before && request[used..used + i] == chunk[..i]
      {
        request[used + i] := chunk[i];
      }
      assert chunk[..|chunk|] == chunk;
      assert request[..used + |chunk|] == request[..used] + request[used..used + |chunk|];
      used := used + |chunk|;
      received := received + chunk;
    }

    /** The next n bytes of the reply, from whichever of its two buffers they are in. */
    method NextPiece(n: nat) returns (piece: seq<byte>)
      requires |header| == HEADER_SIZE
      requires 0 < n <= (if sent < HEADER_SIZE then HEADER_SIZE - sent else HEADER_SIZE + |response| - sent)
      ensures sent + n <= |header + response| && piece == (header + response)[sent..sent + n]
    {
      if sent < HEADER_SIZE {
        piece := header[sent..sent + n];
      } else {
        piece := response[sent - HEADER_SIZE..sent - HEADER_SIZE + n];
      }
    }

    /** Gives the socket the next piece; n is how much of it the socket takes. */
    method SendReply(n: nat) returns (piece: seq<byte>)
      requires Valid() && !closed && writing
      requires 0 < n <= (if sent < HEADER_SIZE then HEADER_SIZE - sent else HEADER_SIZE + |response| - sent)
      modifies this
      ensures Valid() && View() == Do(old(View()), Send(n)) && output == old(output) + piece && |piece| == n
    {
      hide InputOk, OutputOk, AnswersOk;
      ghost var c := View();
      StepInput(c, Send(n));
      StepOutput(c, Send(n));
      StepAnswers(c, Send(n));
      piece := NextPiece(n);
      output := output + piece;
      sent := sent + n;
      if sent == HEADER_SIZE + |response| {
        writing := false;
        replies := replies + [current];
      }
    }
  }
}
