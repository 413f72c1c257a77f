/** The output buffer of a flush: one byte array, a write position, and the datagrams
    already handed to the output callback.
 */
module KcpOutput {
  import opened Words
  import opened KcpWire

  class OutBuffer {
    const data: array<u8>
    const mtu: nat
    var size: nat
    var out: seq<Bytes>

    ghost predicate Valid()
      reads this
    {
      size <= mtu <= data.Length && OVERHEAD <= mtu
    }

    ghost function View(): Packer
      reads this, data
      requires size <= data.Length
    {
      Packer(out, data[..size])
    }

    constructor (buffer: array<u8>, mtu: nat)
      requires OVERHEAD <= mtu <= buffer.Length
      ensures Valid() && View() == EmptyPacker && data == buffer && this.mtu == mtu
    {
      data, this.mtu, size, out := buffer, mtu, 0, [];
      new;
      assert data[..0] == [];
    }

    // makeSpace
    method MakeRoom(need: nat)
      requires Valid()
      modifies this
      ensures need <= mtu ==> Valid() && size + need <= mtu
      ensures size <= data.Length && View() == MakeSpace(old(View()), need, mtu)
    {
      if size + need > mtu {
        out := out + [data[..size]];
        size := 0;
        assert data[..0] == [];
      }
    }

    // flushBuffer
    method Flush()
      requires Valid()
      modifies this
      ensures out == Finish(old(View()))
    {
      if size > 0 {
        out := out + [data[..size]];
      }
    }

    method Put8(x: u8)
      requires size < data.Length
      modifies this`size, data
      ensures size == old(size) + 1 && size <= data.Length
      ensures data[..size] == old(data[..size]) + [x]
    {
      data[size] := x;
      size := size + 1;
    }

    method Put16(x: u16)
      requires size + 2 <= data.Length
      modifies this`size, data
      ensures size == old(size) + 2 && size <= data.Length
      ensures data[..size] == old(data[..size]) + Le16(x)
    {
      Put8(x % 256);
      Put8(x / 256);
    }

    method Put32(x: u32)
      requires size + 4 <= data.Length
      modifies this`size, data
      ensures size == old(size) + 4 && size <= data.Length
      ensures data[..size] == old(data[..size]) + Le32(x)
    {
      Put8(x % 256);
      Put8(x / 256 % 256);
      Put8(x / 65536 % 256);
      Put8(x / 16777216);
    }

    method EncodeFront(w: Wire)
      requires size + 8 <= data.Length
      modifies this`size, data
      ensures size == old(size) + 8 && size <= data.Length
      ensures data[..size] == old(data[..size]) + (Le32(w.conv) + [w.cmd, w.frg] + Le16(w.wnd))
    {
      Put32(w.conv);
      Put8(w.cmd);
      Put8(w.frg);
      Put16(w.wnd);
    }

    method EncodeBack(w: Wire)
      requires size + 16 <= data.Length
      modifies this`size, data
      ensures size == old(size) + 16 && size <= data.Length
      ensures data[..size] == old(data[..size]) + (Le32(w.ts) + Le32(w.sn) + Le32(w.una) + Le32(|w.data|))
    {
      Put32(w.ts);
      Put32(w.sn);
      Put32(w.una);
      Put32(|w.data|);
    }

    // segment.encode
    method Encode(w: Wire)
      requires size + OVERHEAD <= data.Length
      modifies this`size, data
      ensures size == old(size) + OVERHEAD && size <= data.Length
      ensures data[..size] == old(data[..size]) + Header(w)
    {
      EncodeFront(w);
      EncodeBack(w);
      HeaderLayout(w);
    }

    method Copy(d: Bytes)
      requires size + |d| <= data.Length
      modifies this`size, data
      ensures size == old(size) + |d| && size <= data.Length
      ensures data[..size] == old(data[..size]) + d
    {
      ghost var before := data[..size];
      for i := 0 to |d|
        invariant size == old(size) && data[..size + i] == before + d[..i]
      {
        data[size + i] := d[i];
        assert data[..size + i + 1] == data[..size + i] + [d[i]];
        assert d[..i + 1] == d[..i] + [d[i]];
      }
      size := size + |d|;
      assert d[..|d|] == d;
    }

    // encode and copy of one segment, once there is room
    method Write(w: Wire)
      requires size + OVERHEAD + |w.data| <= data.Length
      modifies this`size, data
      ensures size == old(size) + OVERHEAD + |w.data| && size <= data.Length
      ensures data[..size] == old(data[..size]) + KcpWire.Encode(w)
    {
      ghost var cur := data[..size];
      Encode(w);
      Copy(w.data);
      assert cur + Header(w) + w.data == cur + KcpWire.Encode(w);
    }

    // makeSpace and write
    method Append(w: Wire)
      requires Valid() && OVERHEAD + |w.data| <= mtu
      modifies this, data
      ensures Valid() && View() == Put(old(View()), w, mtu)
    {
      MakeRoom(OVERHEAD + |w.data|);
      Write(w);
    }
  }
}
