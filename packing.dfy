/** The 7-bit to 8-bit unpacking transform of the DeepMind patch dump.
    A packed block is a sequence of 8-byte chunks; byte 0 of a chunk carries
    flag bits and bytes 1..7 are payload. Payload byte j gains flag bit j-1,
    OR'd in at that same bit position (not moved to bit 7). */
module Packing {
  import opened Results

  type byte = bv8

  /** The flag-byte mask for payload position j: bit j-1, one entry per position. */
  const Masks: seq<byte> := [0x01, 0x02, 0x04, 0x08, 0x10, 0x20, 0x40]

  function Mask(j: nat): byte
    requires 1 <= j <= 7
  {
    Masks[j - 1]
  }

  /** The table agrees with the shift the tool computes, `1 << (j - 1)`. */
  lemma MaskIsShift(j: nat)
    requires 1 <= j <= 7
    ensures Mask(j) == (1 as byte) << (j - 1)
  {
  }

  /** One output byte: payload byte j OR'd with bit j-1 of the flag byte. */
  function UnpackedByte(flag: byte, payload: byte, j: nat): (r: byte)
    requires 1 <= j <= 7
    // every bit of the payload survives
    ensures r & payload == payload
    // no bit other than bit j-1 differs from the payload
    ensures r & !Mask(j) == payload & !Mask(j)
    // bit j-1 is set exactly when the payload or the flag byte has it
    ensures (r & Mask(j) != 0) == (payload & Mask(j) != 0 || flag & Mask(j) != 0)
    // the output is a 7-bit value exactly when the payload is
    ensures (r < 128) == (payload < 128)
  {
    var m := Mask(j);
    assert m == 0x01 || m == 0x02 || m == 0x04 || m == 0x08 || m == 0x10 || m == 0x20 || m == 0x40;
    payload | (flag & m)
  }

  /** The seven output bytes of one 8-byte chunk: output byte i is payload
      byte i+1 with bit i of the flag byte OR'd in. */
  function UnpackChunk(chunk: seq<byte>): (r: seq<byte>)
    requires |chunk| == 8
    ensures |r| == 7
    ensures forall i {:trigger r[i]} :: 0 <= i < 7 ==> r[i] == chunk[i + 1] | (chunk[0] & Mask(i + 1))
  {
    seq(7, i requires 0 <= i < 7 => UnpackedByte(chunk[0], chunk[i + 1], i + 1))
  }

  /** Prefix a successful result with `done`; an error passes through. */
  function Prepend(done: seq<byte>, r: Result<seq<byte>>): Result<seq<byte>>
  {
    match r
    case Ok(rest) => Ok(done + rest)
    case Err(e) => Err(e)
  }

  lemma PrependPrepend(a: seq<byte>, b: seq<byte>, r: Result<seq<byte>>)
    ensures Prepend(a, Prepend(b, r)) == Prepend(a + b, r)
  {
    if r.Ok? {
      assert a + (b + r.value) == (a + b) + r.value;
    }
  }

  lemma PrependNothing(r: Result<seq<byte>>)
    ensures Prepend([], r) == r
  {
    if r.Ok? {
      assert [] + r.value == r.value;
    }
  }

  /** The unpacking transform, chunk by chunk; a short trailing chunk is an error. */
  function Unpack(data: seq<byte>): (r: Result<seq<byte>>)
    ensures r.Err? ==> r.error == ChunkLength
    decreases |data|
  {
    if |data| == 0 then Ok([])
    else if |data| < 8 then Err(ChunkLength)
    else Prepend(UnpackChunk(data[..8]), Unpack(data[8..]))
  }

  /** Unpacking a block of at least 8 bytes: its first chunk, then the rest. */
  lemma UnpackFirstChunk(data: seq<byte>, i: nat)
    requires i + 8 <= |data|
    ensures Unpack(data[i..]) == Prepend(UnpackChunk(data[i..i + 8]), Unpack(data[i + 8..]))
  {
    assert data[i..][..8] == data[i..i + 8];
    assert data[i..][8..] == data[i + 8..];
  }

  /** The seven output bytes of one chunk, appended one at a time. */
  method UnpackChunkBytes(chunk: seq<byte>) returns (out: seq<byte>)
    requires |chunk| == 8
    ensures out == UnpackChunk(chunk)
  {
    out := [];
    for j := 1 to 8
      invariant out == UnpackChunk(chunk)[..j - 1]
    {
      MaskIsShift(j);
      out := out + [chunk[j] | (chunk[0] & ((1 as byte) << (j - 1)))];
    }
  }

  /** The loop of the tool: walk the block 8 bytes at a time, appending the
      seven unpacked bytes of each chunk. */
  method UnpackBytes(data: seq<byte>) returns (r: Result<seq<byte>>)
    ensures r == Unpack(data)
  {
    var i := 0;
    var unpacked: seq<byte> := [];
    assert data[0..] == data;
    PrependNothing(Unpack(data));
    while true
      invariant i <= |data| && i % 8 == 0
      invariant Unpack(data) == Prepend(unpacked, Unpack(data[i..]))
      decreases |data| - i
    {
      var chunk := data[i..if i + 8 <= |data| then i + 8 else |data|];
      if |chunk| == 0 {
        break;
      }
      if |chunk| != 8 {
        assert Unpack(data[i..]) == Err(ChunkLength);
        return Err(ChunkLength);
      }
      var out := UnpackChunkBytes(chunk);
      UnpackFirstChunk(data, i);
      PrependPrepend(unpacked, out, Unpack(data[i + 8..]));
      unpacked := unpacked + out;
      i := i + 8;
    }
    assert data[i..] == [];
    assert unpacked + [] == unpacked;
    r := Ok(unpacked);
  }

  /** Unpacking succeeds exactly on blocks whose length is a multiple of 8,
      and then yields 7 bytes per chunk. */
  lemma {:induction false} UnpackLength(data: seq<byte>)
    ensures Unpack(data).Ok? <==> |data| % 8 == 0
    ensures Unpack(data).Ok? ==> |Unpack(data).value| == 7 * (|data| / 8)
    decreases |data|
  {
    if |data| >= 8 {
      UnpackLength(data[8..]);
    }
  }

  /** Unpacking distributes over a concatenation at a chunk boundary. */
  lemma {:induction false} UnpackAppend(a: seq<byte>, b: seq<byte>)
    requires |a| % 8 == 0
    ensures Unpack(a).Ok?
    ensures Unpack(a + b) == Prepend(Unpack(a).value, Unpack(b))
    decreases |a|
  {
    UnpackLength(a);
    if |a| == 0 {
      assert a + b == b;
      PrependNothing(Unpack(b));
    } else {
      assert (a + b)[..8] == a[..8];
      assert (a + b)[8..] == a[8..] + b;
      UnpackAppend(a[8..], b);
      PrependPrepend(UnpackChunk(a[..8]), Unpack(a[8..]).value, Unpack(b));
    }
  }

  /** The byte at position 7k + (j-1) of the output comes from chunk k,
      payload byte j and flag bit j-1 of that chunk. */
  lemma UnpackAt(data: seq<byte>, k: nat, j: nat)
    requires |data| % 8 == 0 && 8 * k + 8 <= |data| && 1 <= j <= 7
    ensures Unpack(data).Ok? && 7 * k + 7 <= |Unpack(data).value|
    ensures Unpack(data).value[7 * k + (j - 1)] == data[8 * k + j] | (data[8 * k] & Mask(j))
  {
    var f, c, t := UnpackAround(data, k);
    assert (f + (c + t))[7 * k + (j - 1)] == c[j - 1];
  }

  /** The output of a chunk-aligned block seen around its chunk k: what the
      chunks before it give, its own seven bytes, and what the chunks after give. */
  lemma UnpackAround(data: seq<byte>, k: nat) returns (f: seq<byte>, c: seq<byte>, t: seq<byte>)
    requires |data| % 8 == 0 && 8 * k + 8 <= |data|
    ensures Unpack(data) == Ok(f + (c + t))
    ensures |f| == 7 * k && c == UnpackChunk(data[8 * k..8 * k + 8])
  {
    var front, back := data[..8 * k], data[8 * k..];
    UnpackLength(front);
    UnpackLength(back[8..]);
    f, c, t := Unpack(front).value, UnpackChunk(back[..8]), Unpack(back[8..]).value;
    assert data == front + back;
    UnpackAppend(front, back);
    assert |front| == 8 * k && (8 * k) / 8 == k;
    assert back[..8] == data[8 * k..8 * k + 8];
  }

  /** A block of 7-bit bytes, as the MIDI transport delivers, unpacks to 7-bit bytes. */
  lemma {:induction false} UnpackSevenBit(data: seq<byte>)
    requires forall i :: 0 <= i < |data| ==> data[i] < 128
    ensures Unpack(data).Ok? ==> forall i :: 0 <= i < |Unpack(data).value| ==> Unpack(data).value[i] < 128
    decreases |data|
  {
    if |data| >= 8 {
      UnpackSevenBit(data[8..]);
      var c := UnpackChunk(data[..8]);
      forall i | 0 <= i < 7
        ensures c[i] < 128
      {
        assert data[..8][i + 1] < 128;
      }
    }
  }

  /** A chunk whose flag byte is 0000_0010 and whose payload is all zero:
      only the second output byte (j = 2, bit 1) gains the flag bit. */
  lemma UnpackFlagExample()
    ensures Unpack([0x02, 0, 0, 0, 0, 0, 0, 0]) == Ok([0x00, 0x02, 0, 0, 0, 0, 0])
  {
    var c: seq<byte> := [0x02, 0, 0, 0, 0, 0, 0, 0];
    assert c[8..] == [] && c[..8] == c;
    var out := UnpackChunk(c);
    assert out[0] == 0 && out[1] == 2 && out[2] == 0 && out[3] == 0;
    assert out[4] == 0 && out[5] == 0 && out[6] == 0;
    assert out == [0x00, 0x02, 0, 0, 0, 0, 0];
    PrependNothing(Ok([]));
    assert out + [] == out;
  }
}
