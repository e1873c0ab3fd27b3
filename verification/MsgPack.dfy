/** The hand-written MessagePack integer writer and the DELTA frame header built on it. */
module MsgPack {
  import opened Basics

  /** 256 to the power `n`. */
  function Pow256(n: nat): nat {
    if n == 0 then 1 else 256 * Pow256(n - 1)
  }

  /** The low `n` bytes of `v`, most significant first. */
  function BigEndian(v: nat, n: nat): (b: seq<Byte>)
    ensures |b| == n
    decreases n
  {
    if n == 0 then [] else BigEndian(v / 256, n - 1) + [v % 256]
  }

  function FromBigEndian(b: seq<Byte>): nat
    decreases |b|
  {
    if b == [] then 0 else 256 * FromBigEndian(b[..|b| - 1]) + b[|b| - 1] as int
  }

  lemma {:induction false} BigEndianRoundTrip(v: nat, n: nat)
    requires v < Pow256(n)
    ensures FromBigEndian(BigEndian(v, n)) == v
    decreases n
  {
    if n > 0 {
      BigEndianRoundTrip(v / 256, n - 1);
      assert BigEndian(v, n)[..n - 1] == BigEndian(v / 256, n - 1);
    }
  }

  lemma {:induction false} FromBigEndianBound(b: seq<Byte>)
    ensures FromBigEndian(b) < Pow256(|b|)
    decreases |b|
  {
    if b != [] {
      FromBigEndianBound(b[..|b| - 1]);
    }
  }

  lemma Powers()
    ensures Pow256(1) == 0x100 && Pow256(2) == 0x1_0000 && Pow256(4) == 0x1_0000_0000
    ensures Pow256(8) == 0x1_0000_0000_0000_0000
  {
    assert Pow256(3) == 0x100_0000;
    assert Pow256(5) == 0x100_0000_0000;
    assert Pow256(6) == 0x1_0000_0000_0000;
    assert Pow256(7) == 0x100_0000_0000_0000;
  }

  const U64: nat := 0x1_0000_0000_0000_0000
  const U32: nat := 0x1_0000_0000

  /** How many payload bytes follow the marker byte for a given value. */
  function Width(v: nat): nat {
    if v < 0x80 then 0 else if v < 0x100 then 1 else if v < 0x1_0000 then 2 else if v < U32 then 4 else 8
  }

  /** Marker byte of the unsigned form with that many payload bytes. */
  function Marker(width: nat): Byte {
    if width == 1 then 0xcc else if width == 2 then 0xcd else if width == 4 then 0xce else 0xcf
  }

  function Uint(v: nat): seq<Byte>
    requires v < U64
  {
    if v < 0x80 then [v] else [Marker(Width(v))] + BigEndian(v, Width(v))
  }

  /** `write_uint`: pushes the value byte by byte. */
  method WriteUint(buf: seq<Byte>, v: nat) returns (out: seq<Byte>)
    requires v < U64
    ensures out == buf + Uint(v)
  {
    hide Uint, BigEndian, ShiftRight;
    UintForms(v);
    if v <= 0x7f {
      out := buf + [v];
    } else if v <= 0xff {
      out := buf + [0xcc] + [v % 256];
    } else if v <= 0xffff {
      out := buf + [0xcd] + [Shifted(v, 1), v % 256];
    } else if v <= 0xffff_ffff {
      out := buf + [0xce] + [Shifted(v, 3), Shifted(v, 2), Shifted(v, 1), v % 256];
    } else {
      out := buf + [0xcf];
      var i := 8;
      assert BigEndian(ShiftRight(v, 8), 0) == [] && ShiftRight(v, 0) == v by { NoShift(v); }
      while i > 0
        invariant 0 <= i <= 8
        invariant out == buf + [0xcf] + BigEndian(ShiftRight(v, i), 8 - i)
      {
        i := i - 1;
        PushByte(v, i);
        out := out + [Shifted(v, i)];
      }
    }
  }

  /** `v >> (8 * i)` */
  function ShiftRight(v: nat, i: nat): nat
    decreases i
  {
    if i == 0 then v else ShiftRight(v / 256, i - 1)
  }

  /** `(v >> (8 * i)) as u8` */
  function Shifted(v: nat, i: nat): Byte {
    ShiftRight(v, i) % 256
  }

  lemma {:induction false} ShiftStep(v: nat, i: nat)
    ensures ShiftRight(v, i + 1) == ShiftRight(v, i) / 256
    decreases i
  {
    if i > 0 {
      ShiftStep(v / 256, i - 1);
    }
  }

  lemma NoShift(v: nat)
    ensures ShiftRight(v, 0) == v
  {
  }

  lemma PushByte(v: nat, i: nat)
    requires i < 8
    ensures BigEndian(ShiftRight(v, i), 8 - i) == BigEndian(ShiftRight(v, i + 1), 7 - i) + [Shifted(v, i)]
  {
    ShiftStep(v, i);
  }

  /** The forms as `write_uint` pushes them. */
  lemma UintForms(v: nat)
    requires v < U64
    ensures Uint(v) ==
      if v < 0x80 then [v]
      else if v < 0x100 then [0xcc] + [v % 256]
      else if v < 0x1_0000 then [0xcd] + [Shifted(v, 1), v % 256]
      else if v < U32 then [0xce] + [Shifted(v, 3), Shifted(v, 2), Shifted(v, 1), v % 256]
      else [0xcf] + BigEndian(v, 8)
  {
    assert BigEndian(v, 1) == BigEndian(v / 256, 0) + [v % 256];
    Bytes2(v);
    Bytes4(v);
  }

  lemma Bytes2(v: nat)
    ensures BigEndian(v, 2) == [Shifted(v, 1), v % 256]
  {
    assert BigEndian(v / 256, 1) == BigEndian(v / 256 / 256, 0) + [v / 256 % 256];
  }

  lemma Bytes4(v: nat)
    ensures BigEndian(v, 4) == [Shifted(v, 3), Shifted(v, 2), Shifted(v, 1), v % 256]
  {
    var h := v / 256 / 256;
    Bytes2(h);
    assert BigEndian(v, 4) == BigEndian(h, 2) + [v / 256 % 256] + [v % 256];
  }

  lemma {:induction false} BigEndianAt(v: nat, n: nat, i: nat)
    requires i < n
    ensures BigEndian(v, n)[i] == Shifted(v, n - 1 - i)
    decreases n
  {
    if i < n - 1 {
      BigEndianAt(v / 256, n - 1, i);
    }
  }

  /** Byte by byte, the form MessagePack prescribes: a value below 128 is its own byte; otherwise a
      marker for 8, 16, 32 or 64 bits, the first that suffices, then the value, most significant
      byte first. */
  lemma UintBytes(v: nat)
    requires v < U64
    ensures var b := Uint(v);
      if v < 0x80 then b == [v]
      else
        && b[0] == (if v < 0x100 then 0xcc else if v < 0x1_0000 then 0xcd else if v < U32 then 0xce else 0xcf)
        && |b| == (if b[0] == 0xcc then 2 else if b[0] == 0xcd then 3 else if b[0] == 0xce then 5 else 9)
        && forall i | 1 <= i < |b| :: b[i] == Shifted(v, |b| - 1 - i)
  {
    if v >= 0x80 {
      var w := Width(v);
      forall i | 1 <= i < 1 + w ensures Uint(v)[i] == Shifted(v, w - i) {
        BigEndianAt(v, w, i - 1);
      }
    }
  }

  // ---------- reading back ----------

  /** The width a marker announces; 0 for a positive fixint, None for anything else. */
  function WidthOf(marker: Byte): Option<nat> {
    if marker < 0x80 then Some(0)
    else if marker == 0xcc then Some(1)
    else if marker == 0xcd then Some(2)
    else if marker == 0xce then Some(4)
    else if marker == 0xcf then Some(8)
    else None
  }

  /** The unsigned integer at the front of `b` in any of its forms, and what follows. */
  function ReadUint(b: seq<Byte>): Option<(nat, seq<Byte>)> {
    if b == [] then None
    else
      match WidthOf(b[0])
      case None => None
      case Some(w) =>
        if w == 0 then Some((b[0], b[1..]))
        else if |b| < 1 + w then None
        else Some((FromBigEndian(b[1..1 + w]), b[1 + w..]))
  }

  /** Every value is read back exactly, whatever follows it. */
  lemma UintRoundTrip(v: nat, rest: seq<Byte>)
    requires v < U64
    ensures ReadUint(Uint(v) + rest) == Some((v, rest))
  {
    var b := Uint(v) + rest;
    if v >= 0x80 {
      var w := Width(v);
      Powers();
      assert v < Pow256(w);
      BigEndianRoundTrip(v, w);
      assert b[1..1 + w] == BigEndian(v, w);
      assert b[1 + w..] == rest;
    } else {
      assert b[1..] == rest;
    }
  }

  /** No unsigned form of the same value is shorter. */
  lemma UintShortest(v: nat, form: seq<Byte>)
    requires v < U64 && ReadUint(form) == Some((v, []))
    ensures |Uint(v)| <= |form|
  {
    var w := WidthOf(form[0]).value;
    Powers();
    if w > 0 {
      FromBigEndianBound(form[1..1 + w]);
      assert Width(v) <= w;
    }
  }

  /** No encoding is a prefix of another. */
  lemma UintPrefixFree(v: nat, w: nat)
    requires v < U64 && w < U64 && Uint(v) <= Uint(w)
    ensures v == w
  {
    UintRoundTrip(v, Uint(w)[|Uint(v)|..]);
    UintRoundTrip(w, []);
    assert Uint(v) + Uint(w)[|Uint(v)|..] == Uint(w) == Uint(w) + [];
  }

  // ---------- DELTA frames ----------

  const DELTA: Byte := 0x04

  function DeltaFrame(stream: nat, seqno: nat, body: seq<Byte>): seq<Byte>
    requires stream < U32 && seqno < U64
  {
    [0x94, DELTA] + Uint(stream) + Uint(seqno) + body
  }

  /** `delta_bytes` */
  method DeltaBytes(stream: nat, seqno: nat, body: seq<Byte>) returns (buf: seq<Byte>)
    requires stream < U32 && seqno < U64
    ensures buf == DeltaFrame(stream, seqno, body)
    ensures |buf| >= 2 && buf[..2] == [0x94, 0x04] && buf[2..] == Uint(stream) + (Uint(seqno) + body)
  {
    hide Uint, DeltaFrame;
    FrameParts(stream, seqno, body);
    buf := [0x94];
    buf := buf + [DELTA];
    buf := WriteUint(buf, stream);
    buf := WriteUint(buf, seqno);
    buf := buf + body;
    assert buf == [0x94, DELTA] + Uint(stream) + Uint(seqno) + body;
  }

  lemma FrameParts(stream: nat, seqno: nat, body: seq<Byte>)
    requires stream < U32 && seqno < U64
    ensures var b := DeltaFrame(stream, seqno, body);
      && b == [0x94, DELTA] + Uint(stream) + Uint(seqno) + body
      && b[..2] == [0x94, 0x04] && b[2..] == Uint(stream) + (Uint(seqno) + body)
  {
    hide Uint;
  }

  function ReadDelta(b: seq<Byte>): Option<(nat, nat, seq<Byte>)> {
    if |b| < 2 || b[0] != 0x94 || b[1] != DELTA then None
    else
      match ReadUint(b[2..])
      case None => None
      case Some((stream, b')) =>
        match ReadUint(b')
        case None => None
        case Some((seqno, body)) => Some((stream, seqno, body))
  }

  /** The bytes of a DELTA frame determine its stream, sequence number and body. */
  lemma DeltaFrameRoundTrip(stream: nat, seqno: nat, body: seq<Byte>)
    requires stream < U32 && seqno < U64
    ensures ReadDelta(DeltaFrame(stream, seqno, body)) == Some((stream, seqno, body))
  {
    hide Uint, ReadUint;
    var b := DeltaFrame(stream, seqno, body);
    assert b[2..] == Uint(stream) + (Uint(seqno) + body);
    UintRoundTrip(stream, Uint(seqno) + body);
    UintRoundTrip(seqno, body);
  }
}
