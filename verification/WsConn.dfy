// The connection of wsg/connection.go as an object, and its read loop in wsg/server.go.
module WsConn {
  import opened Words
  import opened Options
  import opened WsFrame
  import opened WsRead

  class Connection {
    var wsHeadOk: bool
    var wsHeadLen: nat
    var wsHead: Option<Head>
    var buff: seq<u8>
    var input: seq<u8>   // received and not yet read
    var out: seq<Event>

    constructor ()
      ensures Good() && State() == NEW
    {
      wsHeadOk, wsHeadLen, wsHead, buff, input, out := false, 0, None, [], [], [];
    }

    function Phase(): Phase
      reads this
    {
      if wsHeadOk && wsHead.Some? then Body(wsHead.value)
      else if wsHeadLen > 0 && wsHead.Some? then Part(wsHead.value, wsHeadLen)
      else Start
    }

    function State(): Conn
      reads this
    {
      Conn(Phase(), buff, input, out, Open)
    }

    ghost predicate Good()
      reads this
    {
      && Valid(State()) && (wsHeadOk || wsHeadLen > 0 ==> wsHead.Some?)
      && (wsHeadOk ==> ValidHead(wsHead.value)) && |buff| + |input| < I64
    }

    method Peek(n: nat) returns (r: Option<seq<u8>>)
      ensures r == if |input| >= n then Some(input[..n]) else None
    {
      r := if |input| >= n then Some(input[..n]) else None;
    }

    method Next(n: nat) returns (r: Option<seq<u8>>)
      modifies this`input
      ensures r == if |old(input)| >= n then Some(old(input)[..n]) else None
      ensures input == if r.Some? then old(input)[n..] else old(input)
    {
      if |input| < n { return None; }
      r := Some(input[..n]);
      input := input[n..];
    }

    // Look at the first two bytes of a header.
    method ReadFront(ghost max: nat) returns (more: bool)
      requires Good() && !wsHeadOk && wsHeadLen == 0
      modifies this`wsHeadLen, this`wsHead
      ensures more <==> |input| >= 2
      ensures !more ==> Good() && State() == old(State()) && !CanStep(State(), max)
      ensures more ==> wsHead == Some(FrontHead(input[0], input[1])) && wsHeadLen == HeadLength(input[1])
      ensures more && wsHeadLen > 2 ==> Good() && Run(old(State()), max) == Run(State(), max)
    {
      var p := Peek(2);
      if p.None? { return false; }
      wsHead := Some(FrontHead(p.value[0], p.value[1]));
      wsHeadLen := HeadLength(p.value[1]);
      assert CanStep(old(State()), max);
      return true;
    }

    // Read the rest of a header.
    method ReadRest(ghost max: nat) returns (ok: bool, err: Option<Error>)
      requires Good() && !wsHeadOk && wsHeadLen > 0
      modifies this`wsHead, this`input
      ensures err.None? && !ok ==> Good() && State() == old(State()) && !CanStep(State(), max)
      ensures err.Some? ==> !ok && Run(old(State()), max) == Fail(old(State()), [], err.value)
      ensures ok ==> HeadTaken(old(State()), max) && |input| < |old(input)|
    {
      ghost var c := State();
      var r := Next(wsHeadLen);
      if r.None? { return false, None; }
      FullHeadValid(wsHead.value, r.value);
      assert CanStep(c, max);
      match FullHead(wsHead.value, r.value) {
        case LengthMsb =>
          assert Step(c, max) == Fail(c, [], HeaderLengthMsb);
          return false, Some(HeaderLengthMsb);
        case HeadOk(h) =>
          wsHead := Some(h);
          assert Step(c, max) == CheckHead(c.(input := input, phase := Start), h);
          return true, None;
      }
    }

    // The header in wsHead was taken off the input of c.
    ghost predicate HeadTaken(c: Conn, max: nat)
      requires Valid(c)
      reads this
    {
      && wsHead.Some? && ValidHead(wsHead.value) && |buff| + |input| < I64
      && var c1 := CheckHead(Conn(Start, buff, input, out, Open), wsHead.value);
         Valid(c1) && Run(c, max) == Run(c1, max)
    }

    // Read what there is of a header.
    method ReadHeader(ghost max: nat) returns (ok: bool, err: Option<Error>)
      requires Good() && !wsHeadOk
      modifies this`wsHeadLen, this`wsHead, this`input
      ensures err.None? && !ok ==> Good() && State() == Run(old(State()), max)
      ensures err.Some? ==> !ok && Run(old(State()), max) == Fail(old(State()), [], err.value)
      ensures ok ==> HeadTaken(old(State()), max) && |input| < |old(input)|
    {
      if wsHeadLen == 0 {
        var more := ReadFront(max);
        if !more { return false, None; }
        if wsHeadLen == 2 {
          var _ := Next(2);
          assert CanStep(old(State()), max);
          return true, None;
        }
      }
      ok, err := ReadRest(max);
    }

    method ProcessControl(h: Head, payload: seq<u8>) returns (err: Option<Error>)
      modifies this`out
      ensures var r := Control(old(State()), h, payload);
              out == r.out && r.outcome == (if err.None? then Open else Failed(err.value))
    {
      if !h.fin {
        out := out + [ReplyError(1002, InvalidControl)];
        return Some(InvalidControl);
      }
      if h.op == OP_CLOSE {
        if |payload| == 1 || |payload| > 125 {
          out := out + [ReplyError(1002, InvalidControl)];
          return Some(InvalidControl);
        }
        out := out + [Reply(OP_CLOSE, payload)];
        return Some(ClientClosed);
      } else if h.op == OP_PING {
        if |payload| > 125 {
          out := out + [ReplyError(1002, InvalidControl)];
          return Some(InvalidControl);
        }
        out := out + [Reply(OP_PONG, payload)];
      }
      return None;
    }

    // What the frames in c do, if this object is done with them, with that error or none.
    ghost predicate Done(c: Conn, max: nat, err: Option<Error>)
      requires Valid(c)
      reads this
    {
      var r := Run(c, max);
      && out == r.out && buff == r.buff && r.outcome == (if err.None? then Open else Failed(err.value))
      && (err.None? ==> Good() && State() == r)
    }

    // The masked payload of a frame, if all of it has arrived.
    method TakePayload(h: Head, max: nat) returns (payload: Option<seq<u8>>, err: Option<Error>)
      requires Good() && wsHeadOk && wsHead == Some(h)
      modifies this`input, this`out
      ensures var c := old(State());
              && (err.Some? ==> payload.None? && err.value == TooLarge && Exceeds(c, h, max))
              && (err.Some? ==> out == c.out + [ReplyError(1009, TooLarge)])
              && (err.None? && payload.None? ==> State() == c && !CanStep(c, max))
              && (payload.Some? ==> err.None? && CanStep(c, max) && !Exceeds(c, h, max) && out == c.out)
              && (payload.Some? ==> input == c.input[h.length..])
              && (payload.Some? ==> payload.value == Masked(h.mask, c.input[..h.length]))
    {
      payload, err := Some([]), None;
      if h.length > 0 {
        if Signed64(h.length + |buff|) > max {
          out := out + [ReplyError(1009, TooLarge)];
          return None, Some(TooLarge);
        }
        var bts := Next(h.length);
        if bts.None? { return None, None; }
        var a := new u8[h.length](i requires 0 <= i < |bts.value| => bts.value[i]);
        assert a[..] == bts.value;
        MaskPayload(h.mask, a);
        payload := Some(a[..]);
      }
    }

    // A data frame adds to the message, and delivers it if it is final.
    method TakeData(h: Head, payload: seq<u8>)
      modifies this`buff, this`out
      ensures var r := Data(old(State()), h, payload); buff == r.buff && out == r.out
    {
      if |payload| > 0 {
        buff := buff + payload;
        if h.fin {
          out := out + [Message(buff)];
          buff := [];
        }
      }
    }

    // Handle the frame whose header is in wsHead, if all of it has arrived.
    method ReadBody(max: nat) returns (more: bool, err: Option<Error>)
      requires Good() && wsHeadOk
      modifies this
      ensures !more ==> Done(old(State()), max, err)
      ensures more ==> Good() && !wsHeadOk && Run(old(State()), max) == Run(State(), max)
      ensures more ==> |State().input| <= |old(State()).input|
    {
      ghost var c := State();
      var h := wsHead.value;
      var payload: Option<seq<u8>>;
      payload, err := TakePayload(h, max);
      if payload.None? { return false, err; }
      ghost var c1 := c.(input := input);
      assert Step(c, max) == Process(c1, h, payload.value);
      if h.op >= 8 {
        err := ProcessControl(h, payload.value);
        if err.Some? { return false, err; }
      } else {
        TakeData(h, payload.value);
      }
      wsHeadOk, wsHeadLen, wsHead := false, 0, None;
      return true, None;
    }

    // Read a header and check it.
    method ReadHead(max: nat) returns (more: bool, err: Option<Error>)
      requires Good() && !wsHeadOk
      modifies this
      ensures !more ==> Done(old(State()), max, err)
      ensures more ==> Good() && wsHeadOk && Run(old(State()), max) == Run(State(), max)
      ensures more ==> |State().input| < |old(State()).input|
    {
      var ok: bool;
      ok, err := ReadHeader(max);
      if !ok { return false, err; }
      wsHeadOk := true;
      if !wsHead.value.masked {
        out := out + [ReplyError(1002, NotMasked)];
        return false, Some(NotMasked);
      }
      if wsHead.value.op == OP_TEXT {
        out := out + [ReplyError(1002, TextData)];
        return false, Some(TextData);
      }
      return true, None;
    }

    // Handle all frames that have arrived.
    method ReadFrame(max: nat) returns (err: Option<Error>)
      requires Good()
      modifies this
      ensures Done(old(State()), max, err)
    {
      ghost var c := State();
      var more := true;
      err := None;
      while more
        invariant more ==> Good() && Run(c, max) == Run(State(), max)
        invariant !more ==> Done(c, max, err)
        decreases more, |input|, wsHeadOk
      {
        if !wsHeadOk {
          more, err := ReadHead(max);
        }
        if more {
          more, err := ReadBody(max);
        }
      }
    }
  }
}
