// Reading frames from a connection (readFrame of wsg/server.go, ReadWsHeader and
// processOpFrame of wsg/connection.go), on values.
module WsRead {
  import opened Words
  import opened WsFrame

  datatype Error = NotMasked | TextData | TooLarge | HeaderLengthMsb | InvalidControl | ClientClosed

  // What a connection does: hand a message to the router, answer with a control frame, or
  // answer with a close frame that carries a status code and the error's text.
  datatype Event = Message(data: seq<u8>) | Reply(op: int, payload: seq<u8>) | ReplyError(code: int, why: Error)

  datatype Phase = Start | Part(head: Head, headLen: nat) | Body(head: Head)
  datatype Outcome = Open | Failed(error: Error)
  datatype Conn = Conn(phase: Phase, buff: seq<u8>, input: seq<u8>, out: seq<Event>, outcome: Outcome)

  const NEW: Conn := Conn(Start, [], [], [], Open)

  ghost predicate Valid(c: Conn) {
    match c.phase
    case Start => true
    case Part(h, n) => |c.input| >= 2 && h == FrontHead(c.input[0], c.input[1]) && n == HeadLength(c.input[1])
    case Body(h) => ValidHead(h)
  }

  function Fail(c: Conn, out: seq<Event>, error: Error): Conn {
    c.(phase := Start, out := c.out + out, outcome := Failed(error), input := [])
  }

  // The header is complete.
  function CheckHead(c: Conn, h: Head): Conn {
    if !h.masked then Fail(c, [ReplyError(1002, NotMasked)], NotMasked)
    else if h.op == OP_TEXT then Fail(c, [ReplyError(1002, TextData)], TextData)
    else c.(phase := Body(h))
  }

  function Control(c: Conn, h: Head, payload: seq<u8>): Conn {
    if !h.fin then Fail(c, [ReplyError(1002, InvalidControl)], InvalidControl)
    else if h.op == OP_CLOSE then
      if |payload| == 1 || |payload| > 125 then Fail(c, [ReplyError(1002, InvalidControl)], InvalidControl)
      else Fail(c, [Reply(OP_CLOSE, payload)], ClientClosed)
    else if h.op == OP_PING then
      if |payload| > 125 then Fail(c, [ReplyError(1002, InvalidControl)], InvalidControl)
      else c.(out := c.out + [Reply(OP_PONG, payload)], phase := Start)
    else c.(phase := Start)
  }

  function Data(c: Conn, h: Head, payload: seq<u8>): Conn {
    if payload == [] then c.(phase := Start)
    else if h.fin then c.(out := c.out + [Message(c.buff + payload)], buff := [], phase := Start)
    else c.(buff := c.buff + payload, phase := Start)
  }

  function Process(c: Conn, h: Head, payload: seq<u8>): Conn {
    if h.op >= 8 then Control(c, h, payload) else Data(c, h, payload)
  }

  // Too much data, as the code computes it.
  predicate Exceeds(c: Conn, h: Head, max: nat)
    requires 0 <= h.length < I64
  {
    h.length > 0 && |c.buff| < I64 && Signed64(h.length + |c.buff|) > max
  }

  // There is input enough for another step.
  predicate CanStep(c: Conn, max: nat)
    requires Valid(c)
  {
    c.outcome.Open? &&
    match c.phase
    case Start => |c.input| >= 2
    case Part(h, n) => |c.input| >= n
    case Body(h) => Exceeds(c, h, max) || |c.input| >= h.length
  }

  function Step(c: Conn, max: nat): (r: Conn)
    requires Valid(c) && CanStep(c, max)
    ensures Valid(r) && Measure(r) < Measure(c)
  {
    match c.phase
    case Start =>
      var h := FrontHead(c.input[0], c.input[1]);
      var n := HeadLength(c.input[1]);
      if n == 2 then CheckHead(c.(input := c.input[2..]), h) else c.(phase := Part(h, n))
    case Part(h, n) =>
      FullHeadValid(h, c.input[..n]);
      var c1 := c.(input := c.input[n..], phase := Start);
      (match FullHead(h, c.input[..n])
       case LengthMsb => Fail(c1, [], HeaderLengthMsb)
       case HeadOk(h1) => CheckHead(c1, h1))
    case Body(h) =>
      if Exceeds(c, h, max) then Fail(c, [ReplyError(1009, TooLarge)], TooLarge)
      else Process(c.(input := c.input[h.length..]), h, Masked(h.mask, c.input[..h.length]))
  }

  function Measure(c: Conn): nat {
    3 * |c.input| + match c.phase case Start => 1 case Part(_, _) => 0 case Body(_) => 2
  }

  // All the frames the input holds.
  function Run(c: Conn, max: nat): (r: Conn)
    requires Valid(c)
    ensures Valid(r) && !CanStep(r, max)
    decreases Measure(c)
  {
    if CanStep(c, max) then Run(Step(c, max), max) else c
  }

  function More(c: Conn, b: seq<u8>): Conn {
    c.(input := c.input + b)
  }

  // The connection receives b; nothing is read any more after an error.
  function Feed(c: Conn, b: seq<u8>, max: nat): (r: Conn)
    requires Valid(c)
    ensures Valid(r) && !CanStep(r, max)
  {
    if c.outcome.Failed? then c else Run(More(c, b), max)
  }

  function FeedAll(c: Conn, chunks: seq<seq<u8>>, max: nat): (r: Conn)
    requires Valid(c)
    ensures Valid(r)
    decreases |chunks|
  {
    if chunks == [] then c else FeedAll(Feed(c, chunks[0], max), chunks[1..], max)
  }

  function Concat(chunks: seq<seq<u8>>): seq<u8> {
    if chunks == [] then [] else chunks[0] + Concat(chunks[1..])
  }

  // The size check refuses a frame that is too large exactly if the sizes add up without
  // wrapping around; a frame whose length wraps is waited for instead.
  lemma {:induction false} SizeCheck(c: Conn, h: Head, max: nat)
    requires Valid(c) && c.outcome.Open? && c.phase == Body(h) && h.length > 0 && |c.buff| <= max < I64
    ensures Exceeds(c, h, max) <==> max < |c.buff| + h.length < I64
    ensures |c.buff| + h.length >= I64 && |c.input| < h.length ==> Run(c, max) == c
  {
  }

  // ---- chunking does not matter ------------------------------------------------------

  // More input does not change a step that can be taken without it.
  ghost predicate SameWith(c: Conn, b: seq<u8>, max: nat)
    requires Valid(c) && CanStep(c, max)
  {
    && Valid(More(c, b)) && CanStep(More(c, b), max)
    && var r := Step(c, max); Step(More(c, b), max) == if r.outcome.Failed? then r else More(r, b)
  }

  lemma {:induction false} StartMore(c: Conn, b: seq<u8>, max: nat)
    requires Valid(c) && CanStep(c, max) && c.phase.Start?
    ensures SameWith(c, b, max)
  {
    assert (c.input + b)[2..] == c.input[2..] + b;
  }

  lemma {:induction false} PartMore(c: Conn, b: seq<u8>, max: nat)
    requires Valid(c) && CanStep(c, max) && c.phase.Part?
    ensures SameWith(c, b, max)
  {
    var n := c.phase.headLen;
    assert (c.input + b)[..n] == c.input[..n] && (c.input + b)[n..] == c.input[n..] + b;
  }

  lemma {:induction false} BodyMore(c: Conn, b: seq<u8>, max: nat)
    requires Valid(c) && CanStep(c, max) && c.phase.Body?
    ensures SameWith(c, b, max)
  {
    var n := c.phase.head.length;
    if !Exceeds(c, c.phase.head, max) {
      assert (c.input + b)[..n] == c.input[..n] && (c.input + b)[n..] == c.input[n..] + b;
    }
  }

  lemma {:induction false} StepMore(c: Conn, b: seq<u8>, max: nat)
    requires Valid(c) && CanStep(c, max)
    ensures SameWith(c, b, max)
  {
    match c.phase
    case Start => StartMore(c, b, max);
    case Part(h, n) => PartMore(c, b, max);
    case Body(h) => BodyMore(c, b, max);
  }

  lemma {:induction false} RunMore(c: Conn, b: seq<u8>, max: nat)
    requires Valid(c) && c.outcome.Open?
    ensures Valid(More(c, b)) && Run(More(c, b), max) == Feed(Run(c, max), b, max)
    decreases Measure(c)
  {
    if CanStep(c, max) {
      StepMore(c, b, max);
      var r := Step(c, max);
      if r.outcome.Open? { RunMore(r, b, max); }
    }
  }

  lemma {:induction false} FeedSplits(c: Conn, a: seq<u8>, b: seq<u8>, max: nat)
    requires Valid(c)
    ensures Feed(Feed(c, a, max), b, max) == Feed(c, a + b, max)
  {
    if c.outcome.Open? {
      RunMore(More(c, a), b, max);
      assert More(More(c, a), b) == More(c, a + b);
    }
  }

  // However a stream is cut into reads, the connection ends in the same state: the same
  // messages, the same replies, the same error.
  lemma {:induction false} ChunkingIndependence(c: Conn, chunks: seq<seq<u8>>, max: nat)
    requires Valid(c) && !CanStep(c, max)
    ensures FeedAll(c, chunks, max) == Feed(c, Concat(chunks), max)
    decreases |chunks|
  {
    if chunks == [] {
      assert More(c, []) == c;
    } else {
      ChunkingIndependence(Feed(c, chunks[0], max), chunks[1..], max);
      FeedSplits(c, chunks[0], Concat(chunks[1..]), max);
    }
  }
}
