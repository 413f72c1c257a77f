// WebSocket frame headers and masking (wsg/ws_util.go; sections 5.2 and 5.3 of RFC 6455).
module WsFrame {
  import opened Words
  const OP_TEXT: int := 0x1
  const OP_CLOSE: int := 0x8
  const OP_PING: int := 0x9
  const OP_PONG: int := 0xa

  datatype Head = Head(fin: bool, rsv: int, op: int, masked: bool, length: int, mask: seq<u8>)

  const NO_MASK: seq<u8> := [0, 0, 0, 0]

  ghost predicate ValidHead(h: Head) {
    && 0 <= h.rsv < 8 && 0 <= h.op < 16 && 0 <= h.length < I64
    && |h.mask| == 4 && (!h.masked ==> h.mask == NO_MASK)
  }

  // ---- exclusive or, bit by bit ------------------------------------------------------

  function XorBits(a: nat, b: nat, k: nat): nat {
    if k == 0 then 0 else (a + b) % 2 + 2 * XorBits(a / 2, b / 2, k - 1)
  }

  ghost function Pow(b: nat, k: nat): (p: nat)
    requires b > 0
    ensures p > 0
  {
    if k == 0 then 1 else b * Pow(b, k - 1)
  }

  lemma {:induction false} XorBelow(a: nat, b: nat, k: nat)
    ensures XorBits(a, b, k) < Pow(2, k)
    decreases k
  {
    if k > 0 { XorBelow(a / 2, b / 2, k - 1); }
  }

  lemma {:induction false} LowBit(a: nat, b: nat, h: nat)
    ensures var x := (a + b) % 2 + 2 * h; x / 2 == h && (x + b) % 2 == a % 2
  {
  }

  lemma {:induction false} XorBitsTwice(a: nat, b: nat, k: nat)
    requires a < Pow(2, k)
    ensures XorBits(XorBits(a, b, k), b, k) == a
    decreases k
  {
    if k > 0 {
      XorBitsTwice(a / 2, b / 2, k - 1);
      LowBit(a, b, XorBits(a / 2, b / 2, k - 1));
    }
  }

  lemma {:induction false} Pow28()
    ensures Pow(2, 8) == 256
  {
    assert Pow(2, 4) == 16;
  }

  // Bit j of x.
  ghost function Bit(x: nat, j: nat): nat { x / Pow(2, j) % 2 }

  lemma {:induction false} BitUp(x: nat, j: nat)
    requires j > 0
    ensures Bit(x, j) == Bit(x / 2, j - 1)
  {
    DivTwice(x, 2, Pow(2, j - 1));
  }

  // A bit of the exclusive or is set exactly if the bits differ.
  lemma {:induction false} XorBit(a: nat, b: nat, k: nat, j: nat)
    requires j < k
    ensures Bit(XorBits(a, b, k), j) == 1 <==> Bit(a, j) != Bit(b, j)
    decreases k
  {
    var h := XorBits(a / 2, b / 2, k - 1);
    LowBit(a, b, h);
    if j == 0 {
      assert Pow(2, 0) == 1;
    } else {
      BitUp(XorBits(a, b, k), j);
      BitUp(a, j);
      BitUp(b, j);
      XorBit(a / 2, b / 2, k - 1, j - 1);
    }
  }

  function Xor(a: u8, b: u8): u8 {
    XorBelow(a, b, 8); Pow28();
    XorBits(a, b, 8)
  }

  function Masked(mask: seq<u8>, s: seq<u8>): (r: seq<u8>)
    requires |mask| == 4
    ensures |r| == |s|
  {
    seq(|s|, i requires 0 <= i < |s| => Xor(s[i], mask[i % 4]))
  }

  // Masking twice gives the payload back.
  lemma {:induction false} MaskedTwice(mask: seq<u8>, s: seq<u8>)
    requires |mask| == 4
    ensures Masked(mask, Masked(mask, s)) == s
  {
    Pow28();
    forall i | 0 <= i < |s| ensures Xor(Xor(s[i], mask[i % 4]), mask[i % 4]) == s[i] {
      XorBitsTwice(s[i], mask[i % 4], 8);
    }
  }

  // The masking of section 5.3 of RFC 6455: a bit of byte i changes exactly if that bit of byte
  // i mod 4 of the key is set.
  ghost predicate MaskedBy(mask: seq<u8>, s: seq<u8>, r: seq<u8>)
    requires |mask| == 4
  {
    |r| == |s| && forall i, j :: 0 <= i < |s| && 0 <= j < 8 ==>
      (Bit(r[i], j) == 1 <==> Bit(s[i], j) != Bit(mask[i % 4], j))
  }

  lemma {:induction false} MaskedBits(mask: seq<u8>, s: seq<u8>)
    requires |mask| == 4
    ensures MaskedBy(mask, s, Masked(mask, s))
  {
    forall i, j | 0 <= i < |s| && 0 <= j < 8
      ensures Bit(Masked(mask, s)[i], j) == 1 <==> Bit(s[i], j) != Bit(mask[i % 4], j)
    {
      XorBit(s[i], mask[i % 4], 8, j);
    }
  }

  // The bits of a byte determine it, so that nothing else is masked by that key.
  lemma {:induction false} BitsAgree(a: nat, b: nat, k: nat)
    requires a < Pow(2, k) && b < Pow(2, k) && forall j :: 0 <= j < k ==> (Bit(a, j) == 1 <==> Bit(b, j) == 1)
    ensures a == b
    decreases k
  {
    if k > 0 {
      assert Pow(2, 0) == 1 && (Bit(a, 0) == 1 <==> Bit(b, 0) == 1);
      forall j | 0 <= j < k - 1 ensures Bit(a / 2, j) == 1 <==> Bit(b / 2, j) == 1 {
        BitUp(a, j + 1);
        BitUp(b, j + 1);
      }
      BitsAgree(a / 2, b / 2, k - 1);
    }
  }

  lemma {:induction false} MaskedOnly(mask: seq<u8>, s: seq<u8>, r: seq<u8>)
    requires |mask| == 4
    ensures r == Masked(mask, s) <==> MaskedBy(mask, s, r)
  {
    MaskedBits(mask, s);
    Pow28();
    if MaskedBy(mask, s, r) {
      forall i | 0 <= i < |s| ensures r[i] == Masked(mask, s)[i] { BitsAgree(r[i], Masked(mask, s)[i], 8); }
    }
  }

  method MaskPayload(mask: seq<u8>, payload: array<u8>)
    requires |mask| == 4
    modifies payload
    ensures payload[..] == Masked(mask, old(payload[..])) && MaskedBy(mask, old(payload[..]), payload[..])
  {
    MaskedBits(mask, payload[..]);
    for i := 0 to payload.Length
      invariant forall k :: 0 <= k < i ==> payload[k] == Xor(old(payload[k]), mask[k % 4])
      invariant forall k :: i <= k < payload.Length ==> payload[k] == old(payload[k])
    {
      payload[i] := Xor(payload[i], mask[i % 4]);
    }
  }

  // ---- headers -------------------------------------------------------------------------

  function BigEndian(n: nat, k: nat): (s: seq<u8>)
    ensures |s| == k
  {
    if k == 0 then [] else BigEndian(n / 256, k - 1) + [n % 256]
  }

  function FromBigEndian(s: seq<u8>): nat {
    if s == [] then 0 else FromBigEndian(s[..|s| - 1]) * 256 + s[|s| - 1]
  }

  lemma {:induction false} BigEndianBack(n: nat, k: nat)
    requires n < Pow(256, k)
    ensures FromBigEndian(BigEndian(n, k)) == n
    decreases k
  {
    if k > 0 {
      BigEndianBack(n / 256, k - 1);
      var s := BigEndian(n, k);
      assert s[..k - 1] == BigEndian(n / 256, k - 1) && s[k - 1] == n % 256;
    }
  }

  lemma {:induction false} FromBigEndianBelow(s: seq<u8>)
    ensures FromBigEndian(s) < Pow(256, |s|)
    decreases |s|
  {
    if s != [] { FromBigEndianBelow(s[..|s| - 1]); }
  }

  // Most significant byte first.
  lemma {:induction false} BigEndianByte(n: nat, k: nat, i: nat)
    requires i < k
    ensures BigEndian(n, k)[i] == n / Pow(256, k - 1 - i) % 256
    decreases k
  {
    if i < k - 1 {
      BigEndianByte(n / 256, k - 1, i);
      DivTwice(n, 256, Pow(256, k - 2 - i));
    } else {
      assert Pow(256, 0) == 1;
    }
  }

  lemma {:induction false} FromBigEndianByte(s: seq<u8>, i: nat)
    requires i < |s|
    ensures FromBigEndian(s) / Pow(256, |s| - 1 - i) % 256 == s[i]
    decreases |s|
  {
    var k, n := |s| - 1, FromBigEndian(s);
    DivIs(n, 256, FromBigEndian(s[..k]), s[k]);
    if i < k {
      FromBigEndianByte(s[..k], i);
      DivTwice(n, 256, Pow(256, k - 1 - i));
    } else {
      assert Pow(256, 0) == 1;
    }
  }

  lemma {:induction false} Pow256()
    ensures Pow(256, 2) == 0x1_0000 && Pow(256, 8) == 2 * I64
  {
    assert Pow(256, 1) == 256;
    assert Pow(256, 4) == 0x1_0000_0000;
    assert Pow(256, 6) == 0x1_0000_0000_0000;
  }

  // The bytes of a header.
  function MakeHead(h: Head): (s: seq<u8>)
    requires ValidHead(h)
  {
    var b0 := (if h.fin then 0x80 else 0) + h.rsv * 16 + h.op;
    var m := if h.masked then 0x80 else 0;
    (if h.length <= 125 then [b0, m + h.length]
     else if h.length <= 0xffff then [b0, m + 126] + BigEndian(h.length, 2)
     else [b0, m + 127] + BigEndian(h.length, 8))
    + if h.masked then h.mask else []
  }

  // What the first two bytes say.
  function FrontHead(b0: u8, b1: u8): Head {
    Head(b0 >= 0x80, b0 / 16 % 8, b0 % 16, b1 >= 0x80, if b1 % 128 < 126 then b1 % 128 else 0, NO_MASK)
  }

  // The length of a header, from its second byte.
  function HeadLength(b1: u8): (n: nat)
    ensures 2 <= n <= 14
  {
    2 + (if b1 >= 0x80 then 4 else 0) + (if b1 % 128 == 126 then 2 else if b1 % 128 == 127 then 8 else 0)
  }

  datatype HeadResult = HeadOk(head: Head) | LengthMsb

  // The header in bts, h being what its first two bytes say.
  function FullHead(h: Head, bts: seq<u8>): HeadResult
    requires |bts| >= 2 && |bts| == HeadLength(bts[1]) && h == FrontHead(bts[0], bts[1])
  {
    var l7 := bts[1] % 128;
    if l7 == 127 && bts[2] >= 0x80 then LengthMsb
    else
      var ext := if l7 == 126 then 2 else if l7 == 127 then 8 else 0;
      var h1 := if ext > 0 then h.(length := FromBigEndian(bts[2..2 + ext])) else h;
      HeadOk(if h.masked then h1.(mask := bts[2 + ext..]) else h1)
  }

  // How many bytes hold the length, after the first two.
  function ExtraLength(l7: nat): nat { if l7 == 126 then 2 else if l7 == 127 then 8 else 0 }

  // The number that these bytes spell, most significant byte first.
  ghost predicate Spells(n: nat, s: seq<u8>) {
    n < Pow(256, |s|) && forall i :: 0 <= i < |s| ==> s[i] == n / Pow(256, |s| - 1 - i) % 256
  }

  // The layout of section 5.2 of RFC 6455: s is the header h, with lengths of seven bits, or 126
  // and two bytes, or 127 and eight.
  ghost predicate Laid(h: Head, s: seq<u8>)
    requires 0 <= h.length
  {
    && |s| >= 2 && var l7, ext := s[1] % 128, ExtraLength(s[1] % 128);
    && (Bit(s[0], 7) == 1 <==> h.fin) && s[0] / 16 % 8 == h.rsv && s[0] % 16 == h.op
    && (Bit(s[1], 7) == 1 <==> h.masked)
    && |s| == 2 + ext + (if h.masked then 4 else 0)
    && (if ext == 0 then h.length == l7 else Spells(h.length, s[2..2 + ext]))
    && h.mask == (if h.masked then s[2 + ext..] else NO_MASK)
  }

  lemma {:induction false} TopBit(b: u8)
    ensures Bit(b, 7) == 1 <==> b >= 0x80
  {
    assert Pow(2, 7) == 128 by { assert Pow(2, 4) == 16; }
  }

  lemma {:induction false} BigEndianSpells(n: nat, k: nat)
    requires n < Pow(256, k)
    ensures Spells(n, BigEndian(n, k))
  {
    forall i | 0 <= i < k ensures BigEndian(n, k)[i] == n / Pow(256, k - 1 - i) % 256 { BigEndianByte(n, k, i); }
  }

  lemma {:induction false} FromBigEndianSpells(s: seq<u8>)
    ensures Spells(FromBigEndian(s), s)
  {
    FromBigEndianBelow(s);
    forall i | 0 <= i < |s| ensures s[i] == FromBigEndian(s) / Pow(256, |s| - 1 - i) % 256 { FromBigEndianByte(s, i); }
  }

  // The header that is written has that layout, the length in as few bytes as hold it.
  lemma {:induction false} HeadWritten(h: Head)
    requires ValidHead(h)
    ensures var s := MakeHead(h);
            && Laid(h, s)
            && ExtraLength(s[1] % 128) == if h.length <= 125 then 0 else if h.length <= 0xffff then 2 else 8
  {
    var s := MakeHead(h);
    Pow256();
    TopBit(s[0]);
    TopBit(s[1]);
    if h.length > 0xffff {
      BigEndianSpells(h.length, 8);
      assert s[2..10] == BigEndian(h.length, 8);
      assert h.masked ==> s[10..] == h.mask;
    } else if h.length > 125 {
      BigEndianSpells(h.length, 2);
      assert s[2..4] == BigEndian(h.length, 2);
      assert h.masked ==> s[4..] == h.mask;
    } else {
      assert h.masked ==> s[2..] == h.mask;
    }
  }

  // A header is read if and only if it is not an eight-byte length with the top bit set, and
  // then is what the bytes say.
  lemma {:induction false} HeadSays(bts: seq<u8>)
    requires |bts| >= 2 && |bts| == HeadLength(bts[1])
    ensures var r := FullHead(FrontHead(bts[0], bts[1]), bts);
            && (r.LengthMsb? <==> bts[1] % 128 == 127 && Bit(bts[2], 7) == 1)
            && (r.HeadOk? ==> 0 <= r.head.length && Laid(r.head, bts))
  {
    TopBit(bts[0]);
    TopBit(bts[1]);
    if bts[1] % 128 == 127 {
      TopBit(bts[2]);
      FromBigEndianSpells(bts[2..10]);
    } else if bts[1] % 128 == 126 {
      FromBigEndianSpells(bts[2..4]);
    }
  }

  // A parsed header is well formed.
  lemma {:induction false} FullHeadValid(h: Head, bts: seq<u8>)
    requires |bts| >= 2 && |bts| == HeadLength(bts[1]) && h == FrontHead(bts[0], bts[1])
    ensures var r := FullHead(h, bts); r.HeadOk? ==> ValidHead(r.head)
  {
    if bts[1] % 128 == 126 {
      FromBigEndianBelow(bts[2..4]);
      Pow256();
    } else if bts[1] % 128 == 127 && bts[2] < 0x80 {
      TopByteBelow(bts[2..10]);
    }
  }

  // Eight bytes without the top bit stay below 2^63.
  lemma {:induction false} TopByteBelow(s: seq<u8>)
    requires |s| == 8 && s[0] < 0x80
    ensures FromBigEndian(s) < I64
  {
    FirstByte(s);
    FromBigEndianBelow(s[1..]);
    assert Pow(256, 7) == 0x100_0000_0000_0000 by {
      assert Pow(256, 3) == 0x100_0000;
      assert Pow(256, 5) == 0x100_0000_0000;
    }
  }

  lemma {:induction false} FirstByte(s: seq<u8>)
    requires s != []
    ensures FromBigEndian(s) == s[0] * Pow(256, |s| - 1) + FromBigEndian(s[1..])
    decreases |s|
  {
    if |s| > 1 {
      var r := s[..|s| - 1];
      FirstByte(r);
      assert r[1..] == s[1..][..|s| - 2];
      assert s[1..][|s| - 2] == s[|s| - 1];
    }
  }

  ghost predicate ReadsBack(h: Head)
    requires ValidHead(h)
  {
    var s := MakeHead(h);
    |s| >= 2 && |s| == HeadLength(s[1]) && FullHead(FrontHead(s[0], s[1]), s) == HeadOk(h)
  }

  lemma {:induction false} ShortHead(h: Head)
    requires ValidHead(h) && h.length <= 125
    ensures ReadsBack(h)
  {
  }

  lemma {:induction false} MediumHead(h: Head)
    requires ValidHead(h) && 125 < h.length <= 0xffff
    ensures ReadsBack(h)
  {
    var s := MakeHead(h);
    Pow256();
    BigEndianBack(h.length, 2);
    assert s[2..4] == BigEndian(h.length, 2);
    assert h.masked ==> s[4..] == h.mask;
  }

  lemma {:induction false} LongHead(h: Head)
    requires ValidHead(h) && 0xffff < h.length
    ensures ReadsBack(h)
  {
    var s := MakeHead(h);
    Pow256();
    BigEndianBack(h.length, 8);
    TopByte(h.length);
    assert s[2..10] == BigEndian(h.length, 8);
    assert h.masked ==> s[10..] == h.mask;
  }

  // Reading back what MakeHead wrote.
  lemma {:induction false} HeadRoundTrip(h: Head)
    requires ValidHead(h)
    ensures var s := MakeHead(h);
            && |s| >= 2 && |s| == HeadLength(s[1])
            && FullHead(FrontHead(s[0], s[1]), s) == HeadOk(h)
  {
    if h.length <= 125 { ShortHead(h); } else if h.length <= 0xffff { MediumHead(h); } else { LongHead(h); }
    assert ReadsBack(h);
  }

  lemma {:induction false} TopByte(n: nat)
    requires n < I64
    ensures BigEndian(n, 8)[0] < 0x80
  {
    var s := BigEndian(n, 8);
    Pow256();
    BigEndianBack(n, 8);
    FirstByte(s);
    assert Pow(256, 7) == 0x100_0000_0000_0000 by {
      assert Pow(256, 3) == 0x100_0000;
      assert Pow(256, 5) == 0x100_0000_0000;
    }
  }
}
