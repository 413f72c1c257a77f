/** The wire format of the transport: 24-byte little-endian segment headers,
    several segments per datagram, never one segment across two datagrams.
 */
module KcpWire {
  import opened Words

  const OVERHEAD := 24
  const CMD_PUSH: u8 := 81
  const CMD_ACK: u8 := 82
  const CMD_WASK: u8 := 83
  const CMD_WINS: u8 := 84

  type Bytes = seq<u8>

  // A payload, whose length fits the 32-bit length field.
  type Payload = d: seq<u8> | |d| < 0x1_0000_0000

  // One segment as it travels.
  datatype Wire = Wire(conv: u32, cmd: u8, frg: u8, wnd: u16, ts: u32, sn: u32, una: u32, data: Payload)

  predicate KnownCmd(cmd: u8) {
    cmd == CMD_PUSH || cmd == CMD_ACK || cmd == CMD_WASK || cmd == CMD_WINS
  }

  // What a peer with conversation `conv` accepts.
  predicate Sendable(conv: u32, w: Wire) {
    w.conv == conv && KnownCmd(w.cmd)
  }

  function Le16(x: u16): (b: Bytes)
    ensures |b| == 2
  {
    [x % 256, x / 256]
  }

  function Le32(x: u32): (b: Bytes)
    ensures |b| == 4
  {
    [x % 256, x / 256 % 256, x / 65536 % 256, x / 16777216]
  }

  function FromLe16(b: Bytes, at: nat): u16
    requires at + 2 <= |b|
  {
    b[at] as int + 256 * b[at + 1] as int
  }

  function FromLe32(b: Bytes, at: nat): u32
    requires at + 4 <= |b|
  {
    b[at] as int + 256 * b[at + 1] as int + 65536 * b[at + 2] as int + 16777216 * b[at + 3] as int
  }

  datatype Word = W8(b: u8) | W16(h: u16) | W32(l: u32)

  function WordBytes(x: Word): Bytes {
    match x
    case W8(b) => [b]
    case W16(h) => Le16(h)
    case W32(l) => Le32(l)
  }

  function WordsBytes(xs: seq<Word>): Bytes {
    if xs == [] then [] else WordsBytes(xs[..|xs| - 1]) + WordBytes(xs[|xs| - 1])
  }

  function HeaderWords(w: Wire): seq<Word> {
    [W32(w.conv), W8(w.cmd), W8(w.frg), W16(w.wnd), W32(w.ts), W32(w.sn), W32(w.una), W32(|w.data|)]
  }

  function Header(w: Wire): (b: Bytes)
    ensures |b| == OVERHEAD
  {
    HeaderLayout(w);
    WordsBytes(HeaderWords(w))
  }

  // The header spelled out.
  lemma {:induction false} HeaderLayout(w: Wire)
    ensures WordsBytes(HeaderWords(w))
         == Le32(w.conv) + [w.cmd, w.frg] + Le16(w.wnd) + Le32(w.ts) + Le32(w.sn) + Le32(w.una) + Le32(|w.data|)
  {
    var xs := HeaderWords(w);
    FourWords(xs);
    WordsStep(xs, 4);
    WordsStep(xs, 5);
    WordsStep(xs, 6);
    WordsStep(xs, 7);
    assert xs[..8] == xs;
    assert Le32(w.conv) + [w.cmd] + [w.frg] == Le32(w.conv) + [w.cmd, w.frg];
  }

  lemma {:induction false} FourWords(xs: seq<Word>)
    requires |xs| >= 4
    ensures WordsBytes(xs[..4]) == WordBytes(xs[0]) + WordBytes(xs[1]) + WordBytes(xs[2]) + WordBytes(xs[3])
  {
    WordsStep(xs, 0);
    WordsStep(xs, 1);
    WordsStep(xs, 2);
    WordsStep(xs, 3);
    assert xs[..0] == [];
  }

  lemma {:induction false} WordsStep(xs: seq<Word>, k: nat)
    requires k < |xs|
    ensures WordsBytes(xs[..k + 1]) == WordsBytes(xs[..k]) + WordBytes(xs[k])
  {
    assert xs[..k + 1][..k] == xs[..k];
  }

  function Encode(w: Wire): (b: Bytes)
    ensures |b| == OVERHEAD + |w.data|
  {
    Header(w) + w.data
  }

  function EncodeAll(ws: seq<Wire>): Bytes {
    if ws == [] then [] else Encode(ws[0]) + EncodeAll(ws[1..])
  }

  // One turn of the parsing loop of Input: the segment at the front of the data,
  // the end of the loop, or the error it returns.
  datatype Parsed = Done | Bad(code: int) | Got(w: Wire, rest: Bytes)

  function ParseOne(conv: u32, data: Bytes): (p: Parsed)
    ensures p.Got? ==> |p.rest| + OVERHEAD <= |data| && Sendable(conv, p.w)
    ensures p.Bad? ==> p.code < 0
  {
    if |data| < OVERHEAD then Done
    else if FromLe32(data, 0) != conv then Bad(-1)
    else
      var length := FromLe32(data, 20);
      if |data| - OVERHEAD < length then Bad(-2)
      else if !KnownCmd(data[4]) then Bad(-3)
      else
        Got(Wire(conv, data[4], data[5], FromLe16(data, 6), FromLe32(data, 8), FromLe32(data, 12),
                 FromLe32(data, 16), data[OVERHEAD..OVERHEAD + length]),
            data[OVERHEAD + length..])
  }

  // All segments the loop of Input gets out of a datagram, and the code it stops with.
  function Decode(conv: u32, data: Bytes): (r: (seq<Wire>, int))
    decreases |data|
  {
    match ParseOne(conv, data)
    case Done => ([], 0)
    case Bad(code) => ([], code)
    case Got(w, rest) => var (ws, code) := Decode(conv, rest); ([w] + ws, code)
  }

  lemma {:induction false} Le32RoundTrip(x: u32, pre: Bytes, post: Bytes)
    ensures FromLe32(pre + Le32(x) + post, |pre|) == x
  {
    var b := pre + Le32(x) + post;
    assert b[|pre|] == x % 256 && b[|pre| + 1] == x / 256 % 256;
    assert b[|pre| + 2] == x / 65536 % 256 && b[|pre| + 3] == x / 16777216;
    assert x / 65536 == x / 256 / 256 && x / 16777216 == x / 65536 / 256;
  }

  // Header fields come back, whatever follows the header.
  lemma {:induction false} HeaderRoundTrip(w: Wire, rest: Bytes)
    ensures var b := Header(w) + rest;
            FromLe32(b, 0) == w.conv && b[4] == w.cmd && b[5] == w.frg && FromLe16(b, 6) == w.wnd &&
            FromLe32(b, 8) == w.ts && FromLe32(b, 12) == w.sn && FromLe32(b, 16) == w.una &&
            FromLe32(b, 20) == |w.data|
  {
    var b := Header(w) + rest;
    HeaderLayout(w);
    var h0 := Le32(w.conv) + [w.cmd, w.frg] + Le16(w.wnd);
    var h1 := h0 + Le32(w.ts);
    var h2 := h1 + Le32(w.sn);
    var h3 := h2 + Le32(w.una);
    FieldRoundTrip(w.conv, [], b);
    FieldRoundTrip(w.ts, h0, b);
    FieldRoundTrip(w.sn, h1, b);
    FieldRoundTrip(w.una, h2, b);
    FieldRoundTrip(|w.data|, h3, b);
    assert b[..8] == h0;
    assert b[6] == h0[6] == w.wnd % 256 && b[7] == h0[7] == w.wnd / 256;
  }

  lemma {:induction false} FieldRoundTrip(x: u32, pre: Bytes, b: Bytes)
    requires |pre| + 4 <= |b| && b[..|pre| + 4] == pre + Le32(x)
    ensures FromLe32(b, |pre|) == x
  {
    Le32RoundTrip(x, pre, b[|pre| + 4..]);
    assert b == pre + Le32(x) + b[|pre| + 4..];
  }

  lemma {:induction false} ParseEncoded(conv: u32, w: Wire, rest: Bytes)
    requires Sendable(conv, w)
    ensures ParseOne(conv, Encode(w) + rest) == Got(w, rest)
  {
    var b := Encode(w) + rest;
    assert b == Header(w) + (w.data + rest);
    HeaderRoundTrip(w, w.data + rest);
    assert b[OVERHEAD..OVERHEAD + |w.data|] == w.data;
    assert b[OVERHEAD + |w.data|..] == rest;
  }

  lemma {:induction false} DecodeFirst(conv: u32, w: Wire, rest: Bytes)
    requires Sendable(conv, w)
    ensures Decode(conv, Encode(w) + rest) == ([w] + Decode(conv, rest).0, Decode(conv, rest).1)
  {
    ParseEncoded(conv, w, rest);
  }

  // Decoding inverts encoding, for any number of segments.
  lemma {:induction false} DecodeEncoded(conv: u32, ws: seq<Wire>)
    requires forall w <- ws :: Sendable(conv, w)
    ensures Decode(conv, EncodeAll(ws)) == (ws, 0)
  {
    if ws != [] {
      assert ws[0] in ws;
      DecodeFirst(conv, ws[0], EncodeAll(ws[1..]));
      DecodeEncoded(conv, ws[1..]);
      assert ws == [ws[0]] + ws[1..];
    }
  }

  lemma {:induction false} EncodeAllAppend(ws: seq<Wire>, w: Wire)
    ensures EncodeAll(ws + [w]) == EncodeAll(ws) + Encode(w)
  {
    if ws == [] {
      assert [] + [w] == [w];
    } else {
      assert (ws + [w])[1..] == ws[1..] + [w];
      EncodeAllAppend(ws[1..], w);
    }
  }

  // ---- packing ----------------------------------------------------------------

  // The output buffer during one flush: datagrams already handed to the output
  // callback, and the bytes between the start of the buffer and ptr.
  datatype Packer = Packer(out: seq<Bytes>, cur: Bytes)

  const EmptyPacker := Packer([], [])

  // makeSpace
  function MakeSpace(p: Packer, need: nat, mtu: nat): Packer {
    if |p.cur| + need > mtu then Packer(p.out + [p.cur], []) else p
  }

  // makeSpace and encode
  function Put(p: Packer, w: Wire, mtu: nat): Packer
  {
    var q := MakeSpace(p, OVERHEAD + |w.data|, mtu);
    q.(cur := q.cur + Encode(w))
  }

  // flushBuffer
  function Finish(p: Packer): seq<Bytes> {
    if |p.cur| > 0 then p.out + [p.cur] else p.out
  }

  function PutFrom(p: Packer, ws: seq<Wire>, mtu: nat): Packer {
    if ws == [] then p else Put(PutFrom(p, ws[..|ws| - 1], mtu), ws[|ws| - 1], mtu)
  }

  function PutAll(ws: seq<Wire>, mtu: nat): Packer {
    PutFrom(EmptyPacker, ws, mtu)
  }

  // The datagrams of one flush that emits ws.
  function Pack(ws: seq<Wire>, mtu: nat): seq<Bytes>
  {
    Finish(PutAll(ws, mtu))
  }

  // What a peer reads from a run of datagrams.
  function DecodeRun(conv: u32, out: seq<Bytes>): seq<Wire> {
    if out == [] then [] else DecodeRun(conv, out[..|out| - 1]) + Decode(conv, out[|out| - 1]).0
  }

  predicate Fits(conv: u32, mtu: nat, w: Wire) {
    Sendable(conv, w) && OVERHEAD + |w.data| <= mtu
  }

  // A datagram is exactly a whole number of segments.
  predicate Whole(conv: u32, d: Bytes) {
    var (ws, code) := Decode(conv, d);
    code == 0 && EncodeAll(ws) == d
  }

  ghost predicate Packed(conv: u32, mtu: nat, p: Packer, ws: seq<Wire>) {
    && |p.cur| <= mtu && Whole(conv, p.cur)
    && (forall d <- p.out :: 0 < |d| <= mtu && Whole(conv, d))
    && DecodeRun(conv, p.out) + Decode(conv, p.cur).0 == ws
  }

  lemma {:induction false} DecodedFits(conv: u32, d: Bytes)
    ensures forall w <- Decode(conv, d).0 :: Sendable(conv, w)
    decreases |d|
  {
    match ParseOne(conv, d)
    case Done =>
    case Bad(_) =>
    case Got(w, rest) => DecodedFits(conv, rest);
  }

  lemma {:induction false} WholeAppend(conv: u32, d: Bytes, w: Wire)
    requires Whole(conv, d) && Sendable(conv, w)
    ensures Whole(conv, d + Encode(w)) && Decode(conv, d + Encode(w)).0 == Decode(conv, d).0 + [w]
  {
    DecodedFits(conv, d);
    var ws := Decode(conv, d).0;
    EncodeAllAppend(ws, w);
    DecodeEncoded(conv, ws + [w]);
  }

  lemma {:induction false} MakeSpaceKeepsPacked(conv: u32, mtu: nat, p: Packer, ws: seq<Wire>, need: nat)
    requires Packed(conv, mtu, p, ws) && need <= mtu
    ensures Packed(conv, mtu, MakeSpace(p, need, mtu), ws)
    ensures |MakeSpace(p, need, mtu).cur| + need <= mtu
  {
    var q := MakeSpace(p, need, mtu);
    if q != p {
      assert q.out[..|p.out|] == p.out;
      assert Decode(conv, []) == ([], 0);
    }
  }

  lemma {:induction false} AppendKeepsPacked(conv: u32, mtu: nat, p: Packer, ws: seq<Wire>, w: Wire, b: Bytes)
    requires Packed(conv, mtu, p, ws) && |p.cur + b| <= mtu
    requires Whole(conv, p.cur + b) && Decode(conv, p.cur + b).0 == Decode(conv, p.cur).0 + [w]
    ensures Packed(conv, mtu, Packer(p.out, p.cur + b), ws + [w])
  {
    var run := DecodeRun(conv, p.out);
    assert run + (Decode(conv, p.cur).0 + [w]) == run + Decode(conv, p.cur).0 + [w];
  }

  lemma {:induction false} PutKeepsPacked(conv: u32, mtu: nat, p: Packer, ws: seq<Wire>, w: Wire)
    requires Packed(conv, mtu, p, ws) && Fits(conv, mtu, w)
    ensures Packed(conv, mtu, Put(p, w, mtu), ws + [w])
  {
    MakeSpaceKeepsPacked(conv, mtu, p, ws, OVERHEAD + |w.data|);
    var q := MakeSpace(p, OVERHEAD + |w.data|, mtu);
    WholeAppend(conv, q.cur, w);
    AppendKeepsPacked(conv, mtu, q, ws, w, Encode(w));
  }

  lemma {:induction false} EmptyPacked(conv: u32, mtu: nat)
    ensures Packed(conv, mtu, EmptyPacker, [])
  {
    assert Decode(conv, []) == ([], 0);
  }

  lemma {:induction false} PutAllPacked(conv: u32, mtu: nat, ws: seq<Wire>)
    requires forall w <- ws :: Fits(conv, mtu, w)
    ensures Packed(conv, mtu, PutAll(ws, mtu), ws)
  {
    if ws == [] {
      EmptyPacked(conv, mtu);
    } else {
      var n := |ws| - 1;
      assert ws[..n] + [ws[n]] == ws;
      PutAllPacked(conv, mtu, ws[..n]);
      PutKeepsPacked(conv, mtu, PutAll(ws[..n], mtu), ws[..n], ws[n]);
    }
  }

  // Packing round trip: every datagram is non-empty, at most mtu bytes and a whole
  // number of segments, and the peer's parsing loop reads back exactly the segments
  // that were emitted, in order.
  lemma {:induction false} PackRoundTrip(conv: u32, mtu: nat, ws: seq<Wire>)
    requires forall w <- ws :: Fits(conv, mtu, w)
    ensures forall d <- Pack(ws, mtu) :: 0 < |d| <= mtu && Whole(conv, d)
    ensures DecodeRun(conv, Pack(ws, mtu)) == ws
  {
    PutAllPacked(conv, mtu, ws);
    var p := PutAll(ws, mtu);
    if |p.cur| > 0 {
      assert Finish(p)[..|p.out|] == p.out;
    } else {
      assert Decode(conv, p.cur) == ([], 0);
    }
  }

  // Each segment read from one of the datagrams is one of those read from the run.
  lemma {:induction false} InRun(conv: u32, out: seq<Bytes>, d: Bytes, w: Wire)
    requires d in out && w in Decode(conv, d).0
    ensures w in DecodeRun(conv, out)
  {
    if out[|out| - 1] != d {
      assert d in out[..|out| - 1];
      InRun(conv, out[..|out| - 1], d, w);
    }
  }

  lemma {:induction false} PutFromStep(p: Packer, ws: seq<Wire>, w: Wire, mtu: nat)
    ensures PutFrom(p, ws + [w], mtu) == Put(PutFrom(p, ws, mtu), w, mtu)
  {
    assert (ws + [w])[..|ws|] == ws;
  }

  lemma {:induction false} PutFromAppend(p: Packer, xs: seq<Wire>, ys: seq<Wire>, mtu: nat)
    ensures PutFrom(PutFrom(p, xs, mtu), ys, mtu) == PutFrom(p, xs + ys, mtu)
  {
    if ys == [] {
      assert xs + ys == xs;
    } else {
      var n := |ys| - 1;
      PutFromAppend(p, xs, ys[..n], mtu);
      assert xs + ys == xs + ys[..n] + [ys[n]];
      PutFromStep(p, xs + ys[..n], ys[n], mtu);
    }
  }

  // An extra makeSpace for a header that is then not written (a filtered ack) never
  // changes the datagrams.
  lemma {:induction false} SpareSpace(p: Packer, need: nat, mtu: nat)
    requires OVERHEAD <= need <= mtu
    ensures MakeSpace(MakeSpace(p, OVERHEAD, mtu), need, mtu) == MakeSpace(p, need, mtu)
    ensures Finish(MakeSpace(p, OVERHEAD, mtu)) == Finish(p)
  {
  }

  // ---- no datagram ends early ---------------------------------------------------------

  // The datagram b starts with a segment that would not have fitted into a.
  ghost predicate Overflows(a: Bytes, b: Bytes, mtu: nat) {
    exists w :: Encode(w) <= b && |a| + |Encode(w)| > mtu
  }

  ghost predicate Tight(out: seq<Bytes>, mtu: nat) {
    forall i :: 0 < i < |out| ==> Overflows(out[i - 1], out[i], mtu)
  }

  lemma {:induction false} GrownOverflows(a: Bytes, b: Bytes, more: Bytes, mtu: nat)
    requires Overflows(a, b, mtu)
    ensures Overflows(a, b + more, mtu)
  {
    var w :| Encode(w) <= b && |a| + |Encode(w)| > mtu;
    assert Encode(w) <= b + more;
  }

  lemma {:induction false} PutTight(p: Packer, w: Wire, mtu: nat)
    requires p.cur != [] && Tight(p.out + [p.cur], mtu)
    ensures var q := Put(p, w, mtu); q.cur != [] && Tight(q.out + [q.cur], mtu)
  {
    var q := Put(p, w, mtu);
    var a, b := p.out + [p.cur], q.out + [q.cur];
    forall i | 0 < i < |b| ensures Overflows(b[i - 1], b[i], mtu) {
      if i < |p.out| {
        assert b[i - 1] == a[i - 1] && b[i] == a[i];
      } else if i == |p.out| {
        assert Overflows(a[i - 1], a[i], mtu);
        if q.out == p.out { GrownOverflows(a[i - 1], a[i], Encode(w), mtu); }
      } else {
        assert b[i] == [] + Encode(w) == Encode(w);
      }
    }
  }

  lemma {:induction false} PutAllTight(ws: seq<Wire>, mtu: nat)
    requires forall w <- ws :: OVERHEAD + |w.data| <= mtu
    ensures var p := PutAll(ws, mtu);
            Tight(p.out + [p.cur], mtu) && (if ws == [] then p == EmptyPacker else p.cur != [])
  {
    if |ws| == 1 {
      var w := ws[0];
      assert ws[..0] == [] && PutFrom(EmptyPacker, [], mtu) == EmptyPacker;
      assert PutFrom(EmptyPacker, ws, mtu) == Put(PutFrom(EmptyPacker, ws[..0], mtu), w, mtu);
      assert MakeSpace(EmptyPacker, OVERHEAD + |w.data|, mtu) == EmptyPacker;
    } else if ws != [] {
      PutAllTight(ws[..|ws| - 1], mtu);
      PutTight(PutAll(ws[..|ws| - 1], mtu), ws[|ws| - 1], mtu);
    }
  }

  // A datagram ends only before a segment that does not fit it.
  lemma {:induction false} PackTight(ws: seq<Wire>, mtu: nat)
    requires forall w <- ws :: OVERHEAD + |w.data| <= mtu
    ensures Tight(Pack(ws, mtu), mtu)
  {
    PutAllTight(ws, mtu);
  }
}
