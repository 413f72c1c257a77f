// What a connection does with whole frames: reading the bytes of a sequence of frames, cut
// into any chunks, is handling the frames one after the other.
module WsFrames {
  import opened Words
  import opened WsFrame
  import opened WsRead

  datatype Frame = Frame(fin: bool, rsv: int, op: int, masked: bool, mask: seq<u8>, payload: seq<u8>)

  function HeadOf(f: Frame): Head {
    Head(f.fin, f.rsv, f.op, f.masked, |f.payload|, f.mask)
  }

  ghost predicate ValidFrame(f: Frame) {
    ValidHead(HeadOf(f))
  }

  function Encode(f: Frame): seq<u8>
    requires ValidFrame(f)
  {
    MakeHead(HeadOf(f)) + if f.masked then Masked(f.mask, f.payload) else f.payload
  }

  function EncodeAll(fs: seq<Frame>): seq<u8>
    requires forall f :: f in fs ==> ValidFrame(f)
  {
    if fs == [] then [] else Encode(fs[0]) + EncodeAll(fs[1..])
  }

  // One whole frame.
  function Handle(c: Conn, f: Frame, max: nat): Conn {
    if !f.masked then Fail(c, [ReplyError(1002, NotMasked)], NotMasked)
    else if f.op == OP_TEXT then Fail(c, [ReplyError(1002, TextData)], TextData)
    else if f.payload != [] && |c.buff| + |f.payload| > max then Fail(c, [ReplyError(1009, TooLarge)], TooLarge)
    else Process(c, HeadOf(f), f.payload)
  }

  function HandleAll(c: Conn, fs: seq<Frame>, max: nat): Conn
    decreases |fs|
  {
    if fs == [] || c.outcome.Failed? then c else HandleAll(Handle(c, fs[0], max), fs[1..], max)
  }

  ghost predicate Ready(c: Conn) {
    c.phase.Start? && c.outcome.Open?
  }

  // ---- one frame -----------------------------------------------------------------------

  lemma {:induction false} HeadRead(c: Conn, h: Head, rest: seq<u8>, max: nat)
    requires Ready(c) && ValidHead(h) && c.input == MakeHead(h) + rest
    ensures var c1 := CheckHead(c.(input := rest), h); Valid(c1) && Run(c, max) == Run(c1, max)
  {
    var s := MakeHead(h);
    HeadRoundTrip(h);
    var n := |s|;
    assert c.input[..n] == s && c.input[n..] == rest && c.input[0] == s[0] && c.input[1] == s[1];
    assert CanStep(c, max);
    var r := Step(c, max);
    if n == 2 {
      assert r == CheckHead(c.(input := rest), h);
    } else {
      assert r == c.(phase := Part(FrontHead(s[0], s[1]), n));
      assert CanStep(r, max);
      assert Step(r, max) == CheckHead(c.(input := rest), h);
    }
  }

  lemma {:induction false} BodyRead(c: Conn, f: Frame, rest: seq<u8>, max: nat)
    requires c.outcome.Open? && ValidFrame(f) && f.masked && c.phase == Body(HeadOf(f)) && |c.buff| + |f.payload| < I64
    requires c.input == Masked(f.mask, f.payload) + rest
    ensures var c1 := if f.payload != [] && |c.buff| + |f.payload| > max
                      then Fail(c, [ReplyError(1009, TooLarge)], TooLarge)
                      else Process(c.(input := rest), HeadOf(f), f.payload);
            Valid(c1) && Run(c, max) == Run(c1, max)
  {
    var n := |f.payload|;
    MaskedTwice(f.mask, f.payload);
    assert c.input[..n] == Masked(f.mask, f.payload) && c.input[n..] == rest;
    assert CanStep(c, max);
  }

  // Processing a frame does not look at the input after it.
  lemma {:induction false} ProcessRest(c: Conn, h: Head, payload: seq<u8>, phase: Phase, rest: seq<u8>)
    requires Ready(c) && c.input == []
    ensures var r := Process(c, h, payload);
            && (r.outcome.Open? ==> r.phase.Start? && r.input == [])
            && Process(c.(phase := phase, input := rest), h, payload) == if r.outcome.Failed? then r else More(r, rest)
  {
    if h.op >= 8 {
    } else {
    }
  }

  // Reading the bytes of a frame is handling the frame.
  lemma {:induction false} FrameRead(c: Conn, f: Frame, rest: seq<u8>, max: nat)
    requires Ready(c) && c.input == [] && ValidFrame(f) && |c.buff| + |f.payload| < I64
    ensures var r := Handle(c, f, max);
            && Valid(r) && (r.outcome.Open? ==> r.phase.Start? && r.input == [])
            && Run(More(c, Encode(f) + rest), max) == if r.outcome.Failed? then r else Run(More(r, rest), max)
  {
    var h := HeadOf(f);
    var body := if f.masked then Masked(f.mask, f.payload) else f.payload;
    assert Encode(f) + rest == MakeHead(h) + (body + rest);
    var c0 := More(c, Encode(f) + rest);
    HeadRead(c0, h, body + rest, max);
    var c1 := CheckHead(c0.(input := body + rest), h);
    if c1.outcome.Open? {
      BodyRead(c1, f, rest, max);
      ProcessRest(c, h, f.payload, Body(h), rest);
      assert c1.(input := rest) == c.(phase := Body(h), input := rest);
    }
  }

  // Handling a frame adds at most its payload to what is collected.
  lemma {:induction false} HandleBuff(c: Conn, f: Frame, max: nat)
    ensures |Handle(c, f, max).buff| <= |c.buff| + |f.payload|
  {
  }

  ghost function Total(fs: seq<Frame>): nat {
    if fs == [] then 0 else |fs[0].payload| + Total(fs[1..])
  }

  lemma {:induction false} FramesRead(c: Conn, fs: seq<Frame>, max: nat)
    requires Ready(c) && c.input == [] && (forall f :: f in fs ==> ValidFrame(f)) && |c.buff| + Total(fs) < I64
    ensures Run(More(c, EncodeAll(fs)), max) == HandleAll(c, fs, max)
    decreases |fs|
  {
    if fs == [] {
      assert More(c, []) == c;
    } else {
      var s := EncodeAll(fs[1..]);
      FrameRead(c, fs[0], s, max);
      var c1 := Handle(c, fs[0], max);
      HandleBuff(c, fs[0], max);
      if c1.outcome.Open? { FramesRead(c1, fs[1..], max); }
    }
  }

  // Whatever the chunks, a new connection that receives the bytes of fs handles fs.
  lemma {:induction false} FramesInChunks(fs: seq<Frame>, chunks: seq<seq<u8>>, max: nat)
    requires (forall f :: f in fs ==> ValidFrame(f)) && Total(fs) < I64 && Concat(chunks) == EncodeAll(fs)
    ensures FeedAll(NEW, chunks, max) == HandleAll(NEW, fs, max)
  {
    ChunkingIndependence(NEW, chunks, max);
    FramesRead(NEW, fs, max);
  }

  // Where the size check fails: after one byte of a message, a frame that announces 2^63 - 1
  // bytes is not refused, and the connection waits for all of them.
  lemma {:induction false} HugeFrameWaits(mask: seq<u8>, first: u8, h: Head, max: nat)
    requires |mask| == 4 && ValidHead(h) && h.masked && h.op != OP_TEXT && h.length == I64 - 1 && 1 <= max < I64
    ensures Feed(NEW, Encode(Frame(false, 0, 0, true, mask, [first])) + MakeHead(h), max)
         == Conn(Body(h), [first], [], [], Open)
  {
    var f := Frame(false, 0, 0, true, mask, [first]);
    FrameRead(NEW, f, MakeHead(h), max);
    var r := Handle(NEW, f, max);
    assert r == NEW.(buff := [first]) by { assert [] + [first] == [first]; }
    var c := More(r, MakeHead(h));
    assert c.input == MakeHead(h) + [];
    HeadRead(c, h, [], max);
    SizeCheck(Conn(Body(h), [first], [], [], Open), h, max);
  }

  // ---- messages in fragments -------------------------------------------------------------

  function Payloads(fs: seq<Frame>): seq<u8> {
    if fs == [] then [] else fs[0].payload + Payloads(fs[1..])
  }

  // The frames of one data message: the last one, and only that, is final.
  ghost predicate Fragments(fs: seq<Frame>) {
    && fs != []
    && (forall k :: 0 <= k < |fs| ==> fs[k].masked && 0 <= fs[k].op < 8 && fs[k].op != OP_TEXT)
    && (forall k :: 0 <= k < |fs| ==> (fs[k].fin <==> k == |fs| - 1))
  }

  // What one data frame does, if there is room for it.
  function AddFragment(c: Conn, f: Frame): Conn {
    if f.payload == [] then c
    else if f.fin then c.(out := c.out + [Message(c.buff + f.payload)], buff := [])
    else c.(buff := c.buff + f.payload)
  }

  lemma {:induction false} HandleFragment(c: Conn, f: Frame, max: nat)
    requires Ready(c) && f.masked && 0 <= f.op < 8 && f.op != OP_TEXT && |c.buff| + |f.payload| <= max
    ensures Handle(c, f, max) == AddFragment(c, f)
  {
  }

  // A fragmented message is delivered whole, exactly if its last fragment is not empty;
  // otherwise its data stays behind and would start the next message.
  lemma {:induction false} FragmentsDelivered(c: Conn, fs: seq<Frame>, max: nat)
    requires Ready(c) && Fragments(fs) && |c.buff| + |Payloads(fs)| <= max
    ensures HandleAll(c, fs, max) == Collected(c, c.buff + Payloads(fs), fs[|fs| - 1].payload != [])
    decreases |fs|
  {
    var f, rest := fs[0], fs[1..];
    HandleFragment(c, f, max);
    var c1 := AddFragment(c, f);
    if |fs| == 1 {
      assert rest == [] && Payloads(rest) == [];
      assert HandleAll(c1, rest, max) == c1;
      assert c.buff + Payloads(fs) == c.buff + f.payload && c.buff + [] == c.buff;
    } else {
      assert Fragments(rest);
      assert c1.buff == c.buff + f.payload by { assert c.buff + [] == c.buff; }
      assert c1.buff + Payloads(rest) == c.buff + Payloads(fs);
      FragmentsDelivered(c1, rest, max);
      assert rest[|rest| - 1] == fs[|fs| - 1];
    }
  }

  function Collected(c: Conn, data: seq<u8>, delivered: bool): Conn {
    if delivered then c.(out := c.out + [Message(data)], buff := []) else c.(buff := data)
  }

  // ---- control frames between fragments ------------------------------------------------------

  predicate IsControl(f: Frame) {
    f.op >= 8
  }

  // A control frame that the connection survives.
  predicate Harmless(c: Conn, f: Frame, max: nat) {
    && f.masked && f.fin && f.op != OP_CLOSE && (f.op == OP_PING ==> |f.payload| <= 125)
    && (f.payload == [] || |c.buff| + |f.payload| <= max)
  }

  // A control frame keeps the connection open exactly if it is harmless, and then only
  // answers a ping: a message that is being collected is left alone.
  lemma {:induction false} ControlFrame(c: Conn, f: Frame, max: nat)
    requires Ready(c) && IsControl(f)
    ensures Handle(c, f, max).outcome.Open? <==> Harmless(c, f, max)
    ensures Harmless(c, f, max) ==>
              Handle(c, f, max) == c.(out := c.out + if f.op == OP_PING then [Reply(OP_PONG, f.payload)] else [])
    ensures Messages(Handle(c, f, max).out) == Messages(c.out)
  {
    var r := Handle(c, f, max);
    if r.out != c.out {
      var e := r.out[|r.out| - 1];
      assert r.out == c.out + [e] && !e.Message?;
      MessagesMore(c.out, e);
    }
    if Harmless(c, f, max) && f.op != OP_PING { assert c.out + [] == c.out; }
  }

  // The connection fails with this error, and this is the last it says; nothing is delivered.
  ghost predicate Ended(c: Conn, r: Conn, last: Event, error: Error) {
    r.out == c.out + [last] && r.outcome == Failed(error) && r.buff == c.buff && !last.Message?
  }

  // A close frame is answered with its own payload, and a control frame that is not allowed with
  // the status of a protocol error.
  lemma {:induction false} ControlReplies(c: Conn, f: Frame, max: nat)
    requires Ready(c) && IsControl(f) && f.masked && (f.payload == [] || |c.buff| + |f.payload| <= max)
    ensures f.fin && f.op == OP_CLOSE && |f.payload| != 1 && |f.payload| <= 125 ==>
              Ended(c, Handle(c, f, max), Reply(OP_CLOSE, f.payload), ClientClosed)
    ensures (!f.fin || (f.op == OP_CLOSE && (|f.payload| == 1 || |f.payload| > 125)) ||
             (f.op == OP_PING && |f.payload| > 125)) ==>
              Ended(c, Handle(c, f, max), ReplyError(1002, InvalidControl), InvalidControl)
  {
    var r := Handle(c, f, max);
    if r.outcome.Failed? { assert r == Process(c, HeadOf(f), f.payload); }
  }

  // What is refused before it is looked at: a frame without a mask, one with text, and one that
  // makes too much data, of any kind.
  lemma {:induction false} RefusedFrames(c: Conn, f: Frame, max: nat)
    requires Ready(c)
    ensures !f.masked ==> Ended(c, Handle(c, f, max), ReplyError(1002, NotMasked), NotMasked)
    ensures f.masked && f.op == OP_TEXT ==> Ended(c, Handle(c, f, max), ReplyError(1002, TextData), TextData)
    ensures f.masked && f.op != OP_TEXT && f.payload != [] && |c.buff| + |f.payload| > max ==>
              Ended(c, Handle(c, f, max), ReplyError(1009, TooLarge), TooLarge)
  {
  }

  // A length with the top bit set ends the connection without a word.
  lemma {:induction false} LengthRefused(c: Conn, head: seq<u8>, rest: seq<u8>, max: nat)
    requires Ready(c) && |head| >= 10 && |head| == HeadLength(head[1]) && head[1] % 128 == 127 && Bit(head[2], 7) == 1
    ensures var r := Run(c.(input := head + rest), max); r.out == c.out && r.outcome == Failed(HeaderLengthMsb)
  {
    var c0 := c.(input := head + rest);
    HeadSays(head);
    var c1 := Step(c0, max);
    assert c1.input[..|head|] == head && CanStep(c1, max);
    var c2 := Step(c1, max);
    assert c2.outcome == Failed(HeaderLengthMsb) && c2.out == c.out + [] == c.out;
    assert Run(c0, max) == Run(c1, max) == Run(c2, max) == c2;
  }

  lemma {:induction false} HandledOn(c: Conn, fs: seq<Frame>, k: nat, max: nat)
    requires k <= |fs|
    ensures HandleAll(c, fs, max) == HandleAll(HandleAll(c, fs[..k], max), fs[k..], max)
    decreases k
  {
    if k == 0 || c.outcome.Failed? {
      assert fs[0..] == fs && HandleAll(c, fs[..k], max) == c;
    } else {
      HandledOn(Handle(c, fs[0], max), fs[1..], k - 1, max);
      assert fs[..k][1..] == fs[1..][..k - 1] && fs[k..] == fs[1..][k - 1..] && fs[..k][0] == fs[0];
    }
  }

  // In whatever chunks frames arrive: after the first that ends the connection nothing more is
  // said or delivered, and for a close frame its payload is what is said last.
  lemma {:induction false} LastFrame(fs: seq<Frame>, chunks: seq<seq<u8>>, k: nat, last: Event, error: Error, max: nat)
    requires (forall f :: f in fs ==> ValidFrame(f)) && Total(fs) < I64 && Concat(chunks) == EncodeAll(fs) && k < |fs|
    requires var c := HandleAll(NEW, fs[..k], max); Ready(c) && Ended(c, Handle(c, fs[k], max), last, error)
    ensures Ended(HandleAll(NEW, fs[..k], max), FeedAll(NEW, chunks, max), last, error)
  {
    FramesInChunks(fs, chunks, max);
    HandledOn(NEW, fs, k, max);
  }

  lemma {:induction false} CloseEchoed(fs: seq<Frame>, chunks: seq<seq<u8>>, k: nat, max: nat)
    requires (forall f :: f in fs ==> ValidFrame(f)) && Total(fs) < I64 && Concat(chunks) == EncodeAll(fs) && k < |fs|
    requires var c, f := HandleAll(NEW, fs[..k], max), fs[k];
             && Ready(c) && f.masked && f.fin && f.op == OP_CLOSE && |f.payload| != 1 && |f.payload| <= 125
             && (f.payload == [] || |c.buff| + |f.payload| <= max)
    ensures Ended(HandleAll(NEW, fs[..k], max), FeedAll(NEW, chunks, max), Reply(OP_CLOSE, fs[k].payload), ClientClosed)
  {
    ControlReplies(HandleAll(NEW, fs[..k], max), fs[k], max);
    LastFrame(fs, chunks, k, Reply(OP_CLOSE, fs[k].payload), ClientClosed, max);
  }

  // The messages handed to the router, and the pings answered.
  function Messages(out: seq<Event>): seq<seq<u8>> {
    if out == [] then []
    else
      var n := |out| - 1;
      Messages(out[..n]) + if out[n].Message? then [out[n].data] else []
  }

  function Pongs(out: seq<Event>): seq<seq<u8>> {
    if out == [] then []
    else
      var n := |out| - 1;
      Pongs(out[..n]) + if out[n].Reply? && out[n].op == OP_PONG then [out[n].payload] else []
  }

  lemma {:induction false} MessagesMore(out: seq<Event>, e: Event)
    ensures Messages(out + [e]) == Messages(out) + if e.Message? then [e.data] else []
    ensures Pongs(out + [e]) == Pongs(out) + if e.Reply? && e.op == OP_PONG then [e.payload] else []
  {
    assert (out + [e])[..|out|] == out;
  }

  function DataFrames(fs: seq<Frame>): seq<Frame> {
    if fs == [] then [] else (if IsControl(fs[0]) then [] else [fs[0]]) + DataFrames(fs[1..])
  }

  function Pings(fs: seq<Frame>): seq<seq<u8>> {
    if fs == [] then [] else (if fs[0].op == OP_PING then [fs[0].payload] else []) + Pings(fs[1..])
  }

  // The states differ in control replies only.
  ghost predicate SameData(c: Conn, d: Conn) {
    Ready(c) && Ready(d) && c.buff == d.buff && Messages(c.out) == Messages(d.out)
  }

  lemma {:induction false} DataFrame(c: Conn, d: Conn, f: Frame, max: nat)
    requires SameData(c, d) && !IsControl(f) && Handle(c, f, max).outcome.Open?
    ensures SameData(Handle(c, f, max), Handle(d, f, max)) && Pongs(Handle(c, f, max).out) == Pongs(c.out)
  {
    var m := Message(c.buff + f.payload);
    MessagesMore(c.out, m);
    MessagesMore(d.out, m);
  }

  lemma {:induction false} ControlBetween(c: Conn, d: Conn, f: Frame, max: nat)
    requires SameData(c, d) && IsControl(f) && Handle(c, f, max).outcome.Open?
    ensures SameData(Handle(c, f, max), d)
    ensures Pongs(Handle(c, f, max).out) == Pongs(c.out) + if f.op == OP_PING then [f.payload] else []
  {
    ControlFrame(c, f, max);
    if f.op == OP_PING { MessagesMore(c.out, Reply(OP_PONG, f.payload)); } else { assert c.out + [] == c.out; }
  }

  lemma {:induction false} SkipControl(fs: seq<Frame>)
    requires fs != []
    ensures DataFrames(fs) == if IsControl(fs[0]) then DataFrames(fs[1..]) else [fs[0]] + DataFrames(fs[1..])
    ensures Pings(fs) == (if fs[0].op == OP_PING then [fs[0].payload] else []) + Pings(fs[1..])
  {
  }

  // As long as the connection stays open, control frames in between change nothing about the
  // messages it delivers, whole or fragmented, and every ping is answered in order with its
  // own payload.
  lemma {:induction false} ControlTransparent(c: Conn, d: Conn, fs: seq<Frame>, max: nat)
    requires SameData(c, d) && HandleAll(c, fs, max).outcome.Open?
    ensures SameData(HandleAll(c, fs, max), HandleAll(d, DataFrames(fs), max))
    ensures Pongs(HandleAll(c, fs, max).out) == Pongs(c.out) + Pings(fs)
    decreases |fs|, 1
  {
    if fs == [] {
      assert Pongs(c.out) + [] == Pongs(c.out);
    } else {
      StaysOpen(Handle(c, fs[0], max), fs[1..], max);
      SkipControl(fs);
      if IsControl(fs[0]) { ControlFirst(c, d, fs, max); } else { DataFirst(c, d, fs, max); }
    }
  }

  lemma {:induction false} ControlFirst(c: Conn, d: Conn, fs: seq<Frame>, max: nat)
    requires SameData(c, d) && HandleAll(c, fs, max).outcome.Open? && fs != [] && IsControl(fs[0])
    requires Handle(c, fs[0], max).outcome.Open? && DataFrames(fs) == DataFrames(fs[1..])
    requires Pings(fs) == (if fs[0].op == OP_PING then [fs[0].payload] else []) + Pings(fs[1..])
    ensures SameData(HandleAll(c, fs, max), HandleAll(d, DataFrames(fs), max))
    ensures Pongs(HandleAll(c, fs, max).out) == Pongs(c.out) + Pings(fs)
    decreases |fs|, 0
  {
    var c1 := Handle(c, fs[0], max);
    ControlBetween(c, d, fs[0], max);
    ControlTransparent(c1, d, fs[1..], max);
    assert Pongs(c.out) + Pings(fs) == Pongs(c1.out) + Pings(fs[1..]);
  }

  lemma {:induction false} DataFirst(c: Conn, d: Conn, fs: seq<Frame>, max: nat)
    requires SameData(c, d) && HandleAll(c, fs, max).outcome.Open? && fs != [] && !IsControl(fs[0])
    requires Handle(c, fs[0], max).outcome.Open? && DataFrames(fs) == [fs[0]] + DataFrames(fs[1..])
    requires Pings(fs) == [] + Pings(fs[1..])
    ensures SameData(HandleAll(c, fs, max), HandleAll(d, DataFrames(fs), max))
    ensures Pongs(HandleAll(c, fs, max).out) == Pongs(c.out) + Pings(fs)
    decreases |fs|, 0
  {
    DataFrame(c, d, fs[0], max);
    ControlTransparent(Handle(c, fs[0], max), Handle(d, fs[0], max), fs[1..], max);
    FirstHandled(d, fs[0], DataFrames(fs[1..]), max);
  }

  lemma {:induction false} StaysOpen(c: Conn, fs: seq<Frame>, max: nat)
    requires HandleAll(c, fs, max).outcome.Open?
    ensures c.outcome.Open?
  {
  }

  lemma {:induction false} FirstHandled(d: Conn, f: Frame, rest: seq<Frame>, max: nat)
    requires Ready(d)
    ensures HandleAll(d, [f] + rest, max) == HandleAll(Handle(d, f, max), rest, max)
  {
    assert ([f] + rest)[1..] == rest;
  }

  // ---- error replies -----------------------------------------------------------------------

  // The payload of a close frame: the reason is appended after a buffer that already has
  // room for it.
  function ClosePayload(code: nat, reason: seq<u8>): seq<u8>
    requires code < 0x1_0000
  {
    if |reason| > 123 then []
    else BigEndian(code, 2) + seq(|reason|, _ => 0) + reason
  }

  function CloseHead(reason: seq<u8>): Head {
    Head(true, 0, OP_CLOSE, false, 2 + |reason|, NO_MASK)
  }

  // The reply is a well-formed frame exactly if there is no reason to give; otherwise the
  // announced part holds zeros where the reason should be.
  lemma {:induction false} CloseReply(code: nat, reason: seq<u8>)
    requires code < 0x1_0000
    ensures |ClosePayload(code, reason)| == CloseHead(reason).length <==> reason == []
    ensures |reason| <= 123 ==>
              ClosePayload(code, reason)[..CloseHead(reason).length] == BigEndian(code, 2) + seq(|reason|, _ => 0)
  {
    if |reason| <= 123 {
      var s := BigEndian(code, 2) + seq(|reason|, _ => 0);
      assert ClosePayload(code, reason) == s + reason;
    }
  }
}
