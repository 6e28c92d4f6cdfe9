/** The byte forms of capability tables and pipeline paths: fixed-width little-endian words. */
module LittleEndian {
  import opened Words

  function Pow256(w: nat): (p: nat)
    ensures p >= 1
  {
    if w == 0 then 1 else 256 * Pow256(w - 1)
  }

  /** The value of a byte string, least significant byte first. */
  function Value(bytes: seq<byte>): (v: nat)
    ensures v < Pow256(|bytes|)
  {
    if bytes == [] then 0 else bytes[0] + 256 * Value(bytes[1..])
  }

  /** The `w` bytes of `v`, least significant first. */
  function Bytes(v: nat, w: nat): (bytes: seq<byte>)
    ensures |bytes| == w
  {
    if w == 0 then [] else [v % 256] + Bytes(v / 256, w - 1)
  }

  lemma {:induction false} ValueOfBytes(v: nat, w: nat)
    requires v < Pow256(w)
    ensures Value(Bytes(v, w)) == v
  {
    if w > 0 {
      ValueOfBytes(v / 256, w - 1);
      assert Bytes(v, w)[1..] == Bytes(v / 256, w - 1);
    }
  }

  lemma {:induction false} BytesOfValue(bytes: seq<byte>)
    ensures Bytes(Value(bytes), |bytes|) == bytes
  {
    if bytes != [] {
      BytesOfValue(bytes[1..]);
      assert Value(bytes) / 256 == Value(bytes[1..]) && Value(bytes) % 256 == bytes[0];
    }
  }

  /** The byte at place `i` has the weight 256^i. */
  lemma {:induction false} BytesAt(v: nat, w: nat, i: nat)
    requires i < w
    ensures Bytes(v, w)[i] == v / Pow256(i) % 256
    decreases w
  {
    if i > 0 {
      BytesAt(v / 256, w - 1, i - 1);
      DividedTwice(v, Pow256(i - 1));
    }
  }

  lemma DividedTwice(v: nat, p: nat)
    requires p > 0
    ensures v / 256 / p == v / (256 * p)
  {
    var q, r := v / (256 * p), v % (256 * p);
    assert v == q * (256 * p) + r;
    var q1, r1 := r / 256, r % 256;
    assert v == 256 * (q * p + q1) + r1;
    DivisionUnique(v, 256, q * p + q1, r1);
    assert q1 < p;
    DivisionUnique(q * p + q1, p, q, q1);
  }

  /** A table of `w`-byte words. */
  function EncodeWords(vs: seq<nat>, w: nat): (bytes: seq<byte>)
    ensures |bytes| == |vs| * w
  {
    if vs == [] then [] else Bytes(vs[0], w) + EncodeWords(vs[1..], w)
  }

  function DecodeWords(bytes: seq<byte>, w: nat): (vs: seq<nat>)
    requires w > 0
    ensures |vs| == |bytes| / w && forall i | 0 <= i < |vs| :: vs[i] < Pow256(w)
    decreases |bytes|
  {
    if |bytes| < w then [] else
      DivisionStep(|bytes|, w);
      [Value(bytes[..w])] + DecodeWords(bytes[w..], w)
  }

  lemma DivisionStep(n: nat, w: nat)
    requires 0 < w <= n
    ensures n / w == (n - w) / w + 1 && n % w == (n - w) % w
  {
    var q := (n - w) / w;
    assert n == (q + 1) * w + (n - w) % w;
    DivisionUnique(n, w, q + 1, (n - w) % w);
  }

  lemma DivisionUnique(n: int, w: nat, q: int, r: nat)
    requires w > 0 && n == q * w + r && r < w
    ensures n / w == q && n % w == r
  {
    var d := n / w - q;
    assert d * w == r - n % w;
    MultipleIsFar(d, w);
  }

  lemma MultipleIsFar(d: int, w: nat)
    ensures d >= 1 ==> d * w >= w
    ensures d <= -1 ==> d * w <= 0 - w
  {
    assert d >= 1 ==> (d - 1) * w >= 0;
    assert d <= -1 ==> (d + 1) * w <= 0;
  }

  lemma {:induction false} DecodeOfEncode(vs: seq<nat>, w: nat)
    requires w > 0 && forall i | 0 <= i < |vs| :: vs[i] < Pow256(w)
    ensures DecodeWords(EncodeWords(vs, w), w) == vs
  {
    if vs != [] {
      var bytes := EncodeWords(vs, w);
      assert |bytes| >= w by { assert bytes[..w] == Bytes(vs[0], w); }
      assert bytes[..w] == Bytes(vs[0], w) && bytes[w..] == EncodeWords(vs[1..], w);
      ValueOfBytes(vs[0], w);
      DecodeOfEncode(vs[1..], w);
    }
  }

  lemma {:induction false} EncodeOfDecode(bytes: seq<byte>, w: nat)
    requires w > 0 && |bytes| % w == 0
    ensures EncodeWords(DecodeWords(bytes, w), w) == bytes
    decreases |bytes|
  {
    if |bytes| >= w {
      DivisionStep(|bytes|, w);
      BytesOfValue(bytes[..w]);
      EncodeOfDecode(bytes[w..], w);
      assert DecodeWords(bytes, w)[1..] == DecodeWords(bytes[w..], w);
      assert bytes[..w] + bytes[w..] == bytes;
    } else {
      DivisionUnique(|bytes|, w, 0, |bytes|);
    }
  }
}

/** Capability tables (4-byte ids) and pipeline paths (2-byte field indices). */
module CapTable {
  import opened Words
  import opened LittleEndian

  datatype DecodeError = NotAMultipleOf4 | NotAMultipleOf2

  newtype uint16 = x: int | 0 <= x < 0x1_0000

  function IdValues(ids: seq<uint32>): seq<nat> {
    seq(|ids|, i requires 0 <= i < |ids| => ids[i] as nat)
  }

  function OpValues(ops: seq<uint16>): seq<nat> {
    seq(|ops|, i requires 0 <= i < |ops| => ops[i] as nat)
  }

  function EncodeCaps(ids: seq<uint32>): seq<byte> {
    EncodeWords(IdValues(ids), 4)
  }

  function EncodeOps(ops: seq<uint16>): seq<byte> {
    EncodeWords(OpValues(ops), 2)
  }

  lemma Widths()
    ensures Pow256(1) == 256 && Pow256(2) == 0x1_0000 && Pow256(4) == U32
  {
    assert Pow256(3) == 256 * Pow256(2);
  }

  function DecodeCaps(bytes: seq<byte>): Result<seq<uint32>, DecodeError> {
    if |bytes| % 4 != 0 then Err(NotAMultipleOf4)
    else
      Widths();
      var vs := DecodeWords(bytes, 4);
      Ok(seq(|vs|, i requires 0 <= i < |vs| => vs[i] as uint32))
  }

  function DecodeOps(bytes: seq<byte>): Result<seq<uint16>, DecodeError> {
    if |bytes| % 2 != 0 then Err(NotAMultipleOf2)
    else
      Widths();
      var vs := DecodeWords(bytes, 2);
      Ok(seq(|vs|, i requires 0 <= i < |vs| => vs[i] as uint16))
  }

  /** Encoding and decoding are mutual inverses, and only lengths that are no multiple of 4 fail. */
  lemma CapsRoundTrip(bytes: seq<byte>, ids: seq<uint32>)
    ensures DecodeCaps(bytes) == Ok(ids) <==> bytes == EncodeCaps(ids)
    ensures DecodeCaps(bytes) == Err(NotAMultipleOf4) <==> |bytes| % 4 != 0
  {
    Widths();
    DecodeOfEncode(IdValues(ids), 4);
    if bytes == EncodeCaps(ids) {
      assert DecodeCaps(bytes).value == ids;
    }
    if DecodeCaps(bytes) == Ok(ids) {
      EncodeOfDecode(bytes, 4);
      assert DecodeWords(bytes, 4) == IdValues(ids) by {
        assert forall i | 0 <= i < |ids| :: IdValues(ids)[i] == DecodeCaps(bytes).value[i] as nat;
      }
    }
  }

  lemma OpsRoundTrip(bytes: seq<byte>, ops: seq<uint16>)
    ensures DecodeOps(bytes) == Ok(ops) <==> bytes == EncodeOps(ops)
    ensures DecodeOps(bytes) == Err(NotAMultipleOf2) <==> |bytes| % 2 != 0
  {
    Widths();
    DecodeOfEncode(OpValues(ops), 2);
    if bytes == EncodeOps(ops) {
      assert DecodeOps(bytes).value == ops;
    }
    if DecodeOps(bytes) == Ok(ops) {
      EncodeOfDecode(bytes, 2);
      assert DecodeWords(bytes, 2) == OpValues(ops) by {
        assert forall i | 0 <= i < |ops| :: OpValues(ops)[i] == DecodeOps(bytes).value[i] as nat;
      }
    }
  }

  // ---- the code that reads and writes them ------------------------------------------------

  /** Four bytes put together with shifts. */
  function ReadUint32Le(data: seq<byte>, i: nat): (v: uint32)
    requires i + 4 <= |data|
    ensures v as nat == Value(data[i..i + 4])
  {
    ValueOfFour(data[i..i + 4]);
    (data[i] as int + data[i + 1] as int * 0x100 + data[i + 2] as int * 0x1_0000
     + data[i + 3] as int * 0x100_0000) as uint32
  }

  function ReadUint16Le(data: seq<byte>, i: nat): (v: uint16)
    requires i + 2 <= |data|
    ensures v as nat == Value(data[i..i + 2])
  {
    ValueOfTwo(data[i..i + 2]);
    (data[i] as int + data[i + 1] as int * 0x100) as uint16
  }

  lemma ValueOfTwo(b: seq<byte>)
    requires |b| == 2
    ensures Value(b) == b[0] as int + b[1] as int * 0x100
  {
    assert b[1..][1..] == [];
  }

  lemma ValueOfFour(b: seq<byte>)
    requires |b| == 4
    ensures Value(b) == b[0] as int + b[1] as int * 0x100 + b[2] as int * 0x1_0000 + b[3] as int * 0x100_0000
  {
    ValueOfTwo(b[2..]);
    assert b[1..][1..] == b[2..];
  }

  lemma TwoBytes(v: nat)
    ensures Bytes(v, 2) == [v % 256, v / 256 % 256]
  {
    assert Bytes(v / 256, 1) == [v / 256 % 256] + Bytes(v / 256 / 256, 0);
  }

  lemma FourBytes(v: nat)
    ensures Bytes(v, 4) == [v % 256, v / 0x100 % 256, v / 0x1_0000 % 256, v / 0x100_0000 % 256]
  {
    assert v / 256 / 256 == v / 0x1_0000 && v / 256 / 256 / 256 == v / 0x100_0000;
    TwoBytes(v / 256 / 256);
    assert Bytes(v / 256, 3) == [v / 256 % 256] + Bytes(v / 256 / 256, 2);
  }

  method AppendUint32Le(out: seq<byte>, value: uint32) returns (out': seq<byte>)
    ensures out' == out + Bytes(value as nat, 4)
  {
    var v := value as int;
    FourBytes(v);
    out' := out + [v % 256];
    out' := out' + [v / 0x100 % 256];
    out' := out' + [v / 0x1_0000 % 256];
    out' := out' + [v / 0x100_0000 % 256];
  }

  method AppendUint16Le(out: seq<byte>, value: uint16) returns (out': seq<byte>)
    ensures out' == out + Bytes(value as nat, 2)
  {
    var v := value as int;
    out' := out + [v % 256];
    out' := out' + [v / 0x100 % 256];
    assert Bytes(v, 2) == [v % 256] + Bytes(v / 256, 1);
  }

  /** The hand-inlined writer: four stores into a preallocated buffer. */
  method StoreUint32Le(buffer: array<byte>, offset: nat, value: uint32)
    requires offset + 4 <= buffer.Length
    modifies buffer
    ensures buffer[..offset + 4] == old(buffer[..offset]) + Bytes(value as nat, 4)
    ensures buffer[offset + 4..] == old(buffer[offset + 4..])
  {
    var v := value as int;
    FourBytes(v);
    buffer[offset] := v % 256;
    buffer[offset + 1] := v / 0x100 % 256;
    buffer[offset + 2] := v / 0x1_0000 % 256;
    buffer[offset + 3] := v / 0x100_0000 % 256;
  }

  lemma {:induction false} EncodeAppend(vs: seq<nat>, v: nat, w: nat)
    ensures EncodeWords(vs + [v], w) == EncodeWords(vs, w) + Bytes(v, w)
  {
    if vs == [] {
      assert EncodeWords([v], w) == Bytes(v, w) + EncodeWords([], w);
    } else {
      assert (vs + [v])[1..] == vs[1..] + [v];
      EncodeAppend(vs[1..], v, w);
    }
  }

  /** One more id at the end of a table is four more bytes at the end of its encoding. */
  lemma EncodeCapsAppend(ids: seq<uint32>, id: uint32)
    ensures EncodeCaps(ids + [id]) == EncodeCaps(ids) + Bytes(id as nat, 4)
  {
    assert IdValues(ids + [id]) == IdValues(ids) + [id as nat];
    EncodeAppend(IdValues(ids), id as nat, 4);
  }

  /** A response's capability table, id by id. */
  method AppendCapTable(ids: seq<uint32>) returns (out: seq<byte>)
    ensures out == EncodeCaps(ids)
  {
    out := [];
    for i := 0 to |ids|
      invariant out == EncodeCaps(ids[..i])
    {
      EncodeCapsAppend(ids[..i], ids[i]);
      assert ids[..i + 1] == ids[..i] + [ids[i]];
      out := AppendUint32Le(out, ids[i]);
    }
    assert ids[..|ids|] == ids;
  }

  /** The table handed to a handler, stored into a buffer of its final size. */
  method WriteCapTable(ids: seq<uint32>) returns (buffer: array<byte>)
    ensures fresh(buffer) && buffer[..] == EncodeCaps(ids)
  {
    buffer := new byte[4 * |ids|];
    for i := 0 to |ids|
      invariant buffer[..4 * i] == EncodeCaps(ids[..i])
    {
      EncodeCapsAppend(ids[..i], ids[i]);
      assert ids[..i + 1] == ids[..i] + [ids[i]];
      StoreUint32Le(buffer, 4 * i, ids[i]);
    }
    assert ids[..|ids|] == ids && buffer[..] == buffer[..4 * |ids|];
  }

  /** A protocol-message trace, tag by tag. */
  method AppendTrace(tags: seq<uint16>) returns (out: seq<byte>)
    ensures out == EncodeOps(tags)
  {
    out := [];
    for i := 0 to |tags|
      invariant out == EncodeOps(tags[..i])
    {
      assert OpValues(tags[..i + 1]) == OpValues(tags[..i]) + [tags[i] as nat];
      EncodeAppend(OpValues(tags[..i]), tags[i] as nat, 2);
      out := AppendUint16Le(out, tags[i]);
    }
    assert tags[..|tags|] == tags;
  }

  lemma DecodedOneMore(data: seq<byte>, i: nat, caps: seq<uint32>, id: uint32)
    requires i + 4 <= |data| && data[..i] == EncodeCaps(caps) && id as nat == Value(data[i..i + 4])
    ensures data[..i + 4] == EncodeCaps(caps + [id])
  {
    BytesOfValue(data[i..i + 4]);
    EncodeCapsAppend(caps, id);
    assert data[..i + 4] == data[..i] + data[i..i + 4];
  }

  lemma DecodedOneMoreOp(data: seq<byte>, i: nat, ops: seq<uint16>, op: uint16)
    requires i + 2 <= |data| && data[..i] == EncodeOps(ops) && op as nat == Value(data[i..i + 2])
    ensures data[..i + 2] == EncodeOps(ops + [op])
  {
    BytesOfValue(data[i..i + 2]);
    assert OpValues(ops + [op]) == OpValues(ops) + [op as nat];
    EncodeAppend(OpValues(ops), op as nat, 2);
    assert data[..i + 2] == data[..i] + data[i..i + 2];
  }

  method DecodeCapTable(data: seq<byte>) returns (r: Result<seq<uint32>, DecodeError>)
    ensures r == DecodeCaps(data)
  {
    if |data| % 4 != 0 {
      return Err(NotAMultipleOf4);
    }
    var caps: seq<uint32> := [];
    var i := 0;
    while i < |data|
      invariant i <= |data| && i % 4 == 0
      invariant data[..i] == EncodeCaps(caps)
      decreases |data| - i
    {
      var id := ReadUint32Le(data, i);
      DecodedOneMore(data, i, caps, id);
      caps := caps + [id];
      i := i + 4;
    }
    assert data[..|data|] == data;
    CapsRoundTrip(data, caps);
    return Ok(caps);
  }

  method DecodePipelineOps(data: seq<byte>) returns (r: Result<seq<uint16>, DecodeError>)
    ensures r == DecodeOps(data)
  {
    if |data| % 2 != 0 {
      return Err(NotAMultipleOf2);
    }
    var ops: seq<uint16> := [];
    var i := 0;
    while i < |data|
      invariant i <= |data| && i % 2 == 0
      invariant data[..i] == EncodeOps(ops)
      decreases |data| - i
    {
      var op := ReadUint16Le(data, i);
      DecodedOneMoreOp(data, i, ops, op);
      ops := ops + [op];
      i := i + 2;
    }
    assert data[..|data|] == data;
    OpsRoundTrip(data, ops);
    return Ok(ops);
  }
}
