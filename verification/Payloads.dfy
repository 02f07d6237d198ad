/** Payloads and their frames: the records of `Payloads.h` and the byte layout the sender puts on a socket
    (type, size, body), with the proof that a stream of frames can be cut back into payloads in one way only. */
module Payloads {

  newtype byte = x: int | 0 <= x < 256

  /** The two scalars of a header, in the widths the program writes them: a C++ `enum class` and a `size_t`. */
  type uint32 = x: nat | x < 0x1_0000_0000
  type size_t = x: nat | x < 0x1_0000_0000_0000_0000

  const TYPE_BYTES: nat := 4
  const SIZE_BYTES: nat := 8
  const HEADER_BYTES: nat := TYPE_BYTES + SIZE_BYTES

  // The enumerators of PayloadType. A receiver stores whatever four bytes it reads, so the field is a uint32.
  const UNKNOWN: uint32 := 0
  const HEARTBEAT: uint32 := 1
  const HANDSHAKE: uint32 := 2

  datatype RawPayload = RawPayload(ptype: uint32, bytesSize: size_t, bytes: seq<byte>)
  {
    /** What `Marshaller::_serialize` guarantees: the size field is the length of the body. */
    predicate WellFormed() {
      bytesSize == |bytes|
    }
  }

  datatype SpawnedPayload = SpawnedPayload(raw: RawPayload, spawnId: int)

  /** The marshaller, past the protobuf encoding: `bytes` is the encoded message. */
  function Serialize(ptype: uint32, bytes: seq<byte>): (p: RawPayload)
    requires |bytes| < 0x1_0000_0000_0000_0000
    ensures p.WellFormed() && p.ptype == ptype && p.bytes == bytes
  {
    RawPayload(ptype, |bytes|, bytes)
  }

  lemma Associate<T>(a: seq<T>, b: seq<T>, c: seq<T>)
    ensures a + (b + c) == (a + b) + c
  {
  }

  // ---------------------------------------------------------------- scalars as bytes

  function Pow256(k: nat): (r: nat)
    ensures r > 0
  {
    if k == 0 then 1 else 256 * Pow256(k - 1)
  }

  /** The object representation of an unsigned scalar, low byte first. */
  function ToBytes(n: nat, width: nat): (s: seq<byte>)
    ensures |s| == width
  {
    if width == 0 then [] else [(n % 256) as byte] + ToBytes(n / 256, width - 1)
  }

  function FromBytes(s: seq<byte>): nat {
    if s == [] then 0 else s[0] as int + 256 * FromBytes(s[1..])
  }

  lemma {:induction false} ScalarRoundTrip(n: nat, width: nat)
    requires n < Pow256(width)
    ensures FromBytes(ToBytes(n, width)) == n
  {
    if width != 0 {
      ScalarRoundTrip(n / 256, width - 1);
      assert ToBytes(n, width)[1..] == ToBytes(n / 256, width - 1);
    }
  }

  lemma {:induction false} FromBytesFits(s: seq<byte>)
    ensures FromBytes(s) < Pow256(|s|)
    decreases |s|
  {
    if s != [] {
      FromBytesFits(s[1..]);
    }
  }

  lemma HeaderWidths()
    ensures Pow256(TYPE_BYTES) == 0x1_0000_0000
    ensures Pow256(SIZE_BYTES) == 0x1_0000_0000_0000_0000
  {
    assert Pow256(2) == 0x1_0000;
    assert Pow256(4) == 256 * (256 * Pow256(2));
    assert Pow256(6) == 256 * (256 * Pow256(4));
    assert Pow256(8) == 256 * (256 * Pow256(6));
  }

  function TypeBytes(t: uint32): (s: seq<byte>)
    ensures |s| == TYPE_BYTES
  {
    ToBytes(t, TYPE_BYTES)
  }

  function SizeBytes(n: size_t): (s: seq<byte>)
    ensures |s| == SIZE_BYTES
  {
    ToBytes(n, SIZE_BYTES)
  }

  function TypeOf(s: seq<byte>): (t: uint32)
    requires |s| == TYPE_BYTES
  {
    FromBytesFits(s); HeaderWidths();
    FromBytes(s)
  }

  function SizeOf(s: seq<byte>): (n: size_t)
    requires |s| == SIZE_BYTES
  {
    FromBytesFits(s); HeaderWidths();
    FromBytes(s)
  }

  lemma HeaderRoundTrip(t: uint32, n: size_t)
    ensures TypeOf(TypeBytes(t)) == t
    ensures SizeOf(SizeBytes(n)) == n
  {
    HeaderWidths();
    ScalarRoundTrip(t, TYPE_BYTES);
    ScalarRoundTrip(n, SIZE_BYTES);
  }

  lemma LowDigit(d: byte, high: nat)
    ensures (d as int + 256 * high) % 256 == d as int && (d as int + 256 * high) / 256 == high
  {
  }

  /** The other direction: what a receiver stored is exactly what it read. */
  lemma {:induction false} BytesRoundTrip(s: seq<byte>)
    ensures ToBytes(FromBytes(s), |s|) == s
    decreases |s|
  {
    if s != [] {
      LowDigit(s[0], FromBytes(s[1..]));
      BytesRoundTrip(s[1..]);
    }
  }

  // ---------------------------------------------------------------- frames

  function Header(p: RawPayload): (s: seq<byte>)
    ensures |s| == HEADER_BYTES
  {
    TypeBytes(p.ptype) + SizeBytes(p.bytesSize)
  }

  function Frame(p: RawPayload): seq<byte> {
    Header(p) + p.bytes
  }

  function EncodeAll(ps: seq<RawPayload>): (s: seq<byte>)
    ensures ps != [] ==> |s| >= HEADER_BYTES
  {
    if ps == [] then [] else Frame(ps[0]) + EncodeAll(ps[1..])
  }

  predicate AllWellFormed(ps: seq<RawPayload>) {
    forall i :: 0 <= i < |ps| ==> ps[i].WellFormed()
  }

  lemma {:induction false} EncodeAllConcat(a: seq<RawPayload>, b: seq<RawPayload>)
    ensures EncodeAll(a + b) == EncodeAll(a) + EncodeAll(b)
    decreases |a|
  {
    if a == [] {
      assert a + b == b;
    } else {
      assert (a + b)[1..] == a[1..] + b;
      EncodeAllConcat(a[1..], b);
      Associate(Frame(a[0]), EncodeAll(a[1..]), EncodeAll(b));
    }
  }

  lemma EncodeAllOne(p: RawPayload)
    ensures EncodeAll([p]) == Frame(p)
  {
    assert [p][1..] == [];
  }

  /** The header of a frame determines where the frame ends, hence the whole frame. */
  lemma FrameIsSelfDelimiting(p: RawPayload, q: RawPayload, x: seq<byte>, y: seq<byte>)
    requires p.WellFormed() && q.WellFormed()
    requires Frame(p) + x == Frame(q) + y
    ensures p == q && x == y
  {
    var s := Frame(p) + x;
    assert s[..TYPE_BYTES] == TypeBytes(p.ptype) && s[..TYPE_BYTES] == TypeBytes(q.ptype);
    assert s[TYPE_BYTES..HEADER_BYTES] == SizeBytes(p.bytesSize);
    assert s[TYPE_BYTES..HEADER_BYTES] == SizeBytes(q.bytesSize);
    HeaderRoundTrip(p.ptype, p.bytesSize);
    HeaderRoundTrip(q.ptype, q.bytesSize);
    var n := HEADER_BYTES + p.bytesSize;
    assert s[HEADER_BYTES..n] == p.bytes && s[HEADER_BYTES..n] == q.bytes;
    assert s[n..] == x && s[n..] == y;
  }

  /** The first payload delivered is the first one sent. */
  lemma FirstDecoding(delivered: seq<RawPayload>, sent: seq<RawPayload>, rest: seq<byte>)
    requires AllWellFormed(delivered) && AllWellFormed(sent)
    requires delivered != [] && EncodeAll(delivered) + rest == EncodeAll(sent)
    ensures sent != [] && delivered[0] == sent[0]
    ensures EncodeAll(delivered[1..]) + rest == EncodeAll(sent[1..])
  {
    hide Frame;
    assert sent != [] by {
      assert |EncodeAll(delivered)| >= HEADER_BYTES;
    }
    var x := EncodeAll(delivered[1..]) + rest;
    Associate(Frame(delivered[0]), EncodeAll(delivered[1..]), rest);
    FrameIsSelfDelimiting(delivered[0], sent[0], x, EncodeAll(sent[1..]));
  }

  /** A stream of frames has one decoding: payloads whose frames open the stream are a prefix of the payloads
      the stream was made of, whatever follows them. */
  lemma {:induction false} UniqueDecoding(delivered: seq<RawPayload>, sent: seq<RawPayload>, rest: seq<byte>)
    requires AllWellFormed(delivered) && AllWellFormed(sent)
    requires EncodeAll(delivered) + rest == EncodeAll(sent)
    ensures delivered <= sent
    ensures rest == [] ==> delivered == sent
    decreases |delivered|
  {
    if delivered == [] {
      assert EncodeAll(delivered) + rest == rest;
    } else {
      FirstDecoding(delivered, sent, rest);
      UniqueDecoding(delivered[1..], sent[1..], rest);
      assert delivered == [delivered[0]] + delivered[1..] && sent == [sent[0]] + sent[1..];
    }
  }
}
