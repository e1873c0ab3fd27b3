/** Length-prefixed records in one segment file, and what replay makes of a torn tail. */
module Segment {
  import opened Basics
  import opened Json
  import opened Wire

  /** One mutation; snapshot entries have no ops. */
  datatype LogEntry = LogEntry(version: nat, key: string, ops: seq<WOp>, value: Value)

  /** The payload codec (rmp_serde in the source), kept abstract. */
  datatype Codec = Codec(enc: LogEntry -> seq<Byte>, dec: seq<Byte> -> Option<LogEntry>)

  ghost predicate Lossless(c: Codec) {
    forall e :: c.dec(c.enc(e)) == Some(e)
  }

  /** The length field is 32 bits wide. */
  const LEN_LIMIT: nat := 0x1_0000_0000

  predicate Fits(c: Codec, e: LogEntry) {
    |c.enc(e)| < LEN_LIMIT
  }

  predicate AllFit(c: Codec, es: seq<LogEntry>) {
    forall i | 0 <= i < |es| :: Fits(c, es[i])
  }

  function Le32(n: nat): (b: seq<Byte>)
    requires n < LEN_LIMIT
    ensures |b| == 4
  {
    [n % 256, (n / 256) % 256, (n / 65536) % 256, n / 16777216]
  }

  function FromLe32(b: seq<Byte>): nat
    requires |b| == 4
  {
    (b[0] as int) + 256 * (b[1] as int) + 65536 * (b[2] as int) + 16777216 * (b[3] as int)
  }

  lemma Le32RoundTrip(n: nat)
    requires n < LEN_LIMIT
    ensures FromLe32(Le32(n)) == n
  {
    assert n / 65536 == n / 256 / 256;
    assert n / 16777216 == n / 65536 / 256;
  }

  /** The length is written least significant byte first. */
  lemma LeastFirst(n: nat)
    requires n < LEN_LIMIT
    ensures Le32(n)[0] == n % 256 && Le32(n)[1..] == Le32(n / 256)[..3]
  {
    assert n / 65536 == n / 256 / 256;
    assert n / 16777216 == n / 65536 / 256;
  }

  /** `write_entry` */
  function Encode(c: Codec, e: LogEntry): seq<Byte>
    requires Fits(c, e)
  {
    Le32(|c.enc(e)|) + c.enc(e)
  }

  function EncodeAll(c: Codec, es: seq<LogEntry>): seq<Byte>
    requires AllFit(c, es)
    decreases |es|
  {
    if es == [] then [] else Encode(c, es[0]) + EncodeAll(c, es[1..])
  }

  /** `read_entry`: the record at the start of `b`, if all of it is there, and its length. */
  function ReadEntry(c: Codec, b: seq<Byte>): (r: Option<(LogEntry, nat)>)
    ensures r.Some? ==> 4 <= r.value.1 <= |b|
  {
    if |b| < 4 then None
    else
      var len := FromLe32(b[..4]);
      if |b| < 4 + len then None
      else
        match c.dec(b[4..4 + len])
        case None => None
        case Some(e) => Some((e, 4 + len))
  }

  /** The complete records at the front of a file. */
  function Scan(c: Codec, b: seq<Byte>): seq<LogEntry>
    decreases |b|
  {
    match ReadEntry(c, b)
    case None => []
    case Some((e, n)) => [e] + Scan(c, b[n..])
  }

  /** How many bytes those records take. */
  function ValidLength(c: Codec, b: seq<Byte>): (n: nat)
    ensures n <= |b|
    decreases |b|
  {
    match ReadEntry(c, b)
    case None => 0
    case Some((_, n)) => n + ValidLength(c, b[n..])
  }

  /** `replay_segment`: the complete records, and the file truncated to them. */
  method ReplaySegment(c: Codec, file: seq<Byte>) returns (entries: seq<LogEntry>, healed: seq<Byte>)
    ensures entries == Scan(c, file)
    ensures healed == file[..ValidLength(c, file)]
  {
    entries := [];
    var pos := 0;
    while true
      invariant 0 <= pos <= |file|
      invariant entries + Scan(c, file[pos..]) == Scan(c, file)
      invariant pos + ValidLength(c, file[pos..]) == ValidLength(c, file)
      decreases |file| - pos
    {
      var r := ReadEntry(c, file[pos..]);
      if r.None? {
        break;
      }
      assert file[pos..][r.value.1..] == file[pos + r.value.1..];
      entries := entries + [r.value.0];
      pos := pos + r.value.1;
    }
    healed := file;
    if |file| != pos {
      healed := file[..pos];
    }
  }

  /** A record is read the same way from any prefix that holds all of it. */
  lemma ReadFromPrefix(c: Codec, b: seq<Byte>, n: nat)
    requires ReadEntry(c, b).Some? && ReadEntry(c, b).value.1 <= n <= |b|
    ensures ReadEntry(c, b[..n]) == ReadEntry(c, b)
  {
    var len := FromLe32(b[..4]);
    assert b[..n][..4] == b[..4];
    assert b[..n][4..4 + len] == b[4..4 + len];
  }

  /** Truncating any file to its complete records keeps them, and a second truncation does nothing. */
  lemma {:induction false} TruncationKeeps(c: Codec, b: seq<Byte>)
    ensures Scan(c, b[..ValidLength(c, b)]) == Scan(c, b) && ValidLength(c, b[..ValidLength(c, b)]) == ValidLength(c, b)
    decreases |b|
  {
    hide ReadEntry;
    var r, v := ReadEntry(c, b), ValidLength(c, b);
    if r.None? {
      assert b[..0] == [];
      NothingToRead(c);
    } else {
      var n := r.value.1;
      ReadFromPrefix(c, b, v);
      assert b[..v][n..] == b[n..][..v - n];
      TruncationKeeps(c, b[n..]);
    }
  }

  lemma NothingToRead(c: Codec)
    ensures ReadEntry(c, []) == None
  {
  }

  // ---------- torn tails ----------

  predicate StrictPrefix<T(==)>(a: seq<T>, b: seq<T>) {
    a <= b && a != b
  }

  lemma ReadOne(c: Codec, e: LogEntry, rest: seq<Byte>)
    requires Lossless(c) && Fits(c, e)
    ensures ReadEntry(c, Encode(c, e) + rest) == Some((e, |Encode(c, e)|))
  {
    var b := Encode(c, e) + rest;
    assert b[..4] == Le32(|c.enc(e)|);
    Le32RoundTrip(|c.enc(e)|);
    assert b[4..4 + |c.enc(e)|] == c.enc(e);
  }

  lemma ReadTorn(c: Codec, e: LogEntry, torn: seq<Byte>)
    requires Fits(c, e) && StrictPrefix(torn, Encode(c, e))
    ensures ReadEntry(c, torn) == None
  {
    if |torn| >= 4 {
      assert torn[..4] == Le32(|c.enc(e)|);
      Le32RoundTrip(|c.enc(e)|);
      assert |torn| < |Encode(c, e)|;
    }
  }

  /** Reading past one whole record. */
  lemma ScanPast(c: Codec, e: LogEntry, rest: seq<Byte>)
    requires Lossless(c) && Fits(c, e)
    ensures Scan(c, Encode(c, e) + rest) == [e] + Scan(c, rest)
    ensures ValidLength(c, Encode(c, e) + rest) == |Encode(c, e)| + ValidLength(c, rest)
  {
    hide ReadEntry, Encode;
    ReadOne(c, e, rest);
    assert (Encode(c, e) + rest)[|Encode(c, e)|..] == rest;
  }

  /** Whole records at the front of a file are read first, whatever follows. */
  lemma {:induction false} ScanAfter(c: Codec, es: seq<LogEntry>, tail: seq<Byte>)
    requires Lossless(c) && AllFit(c, es)
    ensures Scan(c, EncodeAll(c, es) + tail) == es + Scan(c, tail)
    ensures ValidLength(c, EncodeAll(c, es) + tail) == |EncodeAll(c, es)| + ValidLength(c, tail)
    decreases |es|
  {
    hide Scan, ValidLength, Encode;
    if es == [] {
      assert EncodeAll(c, es) + tail == tail;
    } else {
      var first, rest := Encode(c, es[0]), EncodeAll(c, es[1..]);
      assert EncodeAll(c, es) + tail == first + (rest + tail);
      ScanPast(c, es[0], rest + tail);
      ScanAfter(c, es[1..], tail);
    }
  }

  /** Torn-tail healing: complete records plus any strict prefix of one more replay to exactly
      the complete records, and the file shrinks to exactly them. */
  lemma TornTail(c: Codec, es: seq<LogEntry>, e: LogEntry, torn: seq<Byte>)
    requires Lossless(c) && AllFit(c, es) && Fits(c, e) && StrictPrefix(torn, Encode(c, e))
    ensures Scan(c, EncodeAll(c, es) + torn) == es
    ensures var b := EncodeAll(c, es) + torn; b[..ValidLength(c, b)] == EncodeAll(c, es)
  {
    ReadTorn(c, e, torn);
    ScanAfter(c, es, torn);
  }

  lemma CleanTail(c: Codec, es: seq<LogEntry>)
    requires Lossless(c) && AllFit(c, es)
    ensures Scan(c, EncodeAll(c, es)) == es
    ensures ValidLength(c, EncodeAll(c, es)) == |EncodeAll(c, es)|
  {
    assert EncodeAll(c, es) + [] == EncodeAll(c, es);
    ScanAfter(c, es, []);
  }

  lemma {:induction false} EncodeSnoc(c: Codec, es: seq<LogEntry>, e: LogEntry)
    requires AllFit(c, es) && Fits(c, e)
    ensures AllFit(c, es + [e])
    ensures EncodeAll(c, es + [e]) == EncodeAll(c, es) + Encode(c, e)
    decreases |es|
  {
    if es == [] {
      assert es + [e] == [e];
      assert [e][1..] == [];
    } else {
      assert (es + [e])[1..] == es[1..] + [e];
      EncodeSnoc(c, es[1..], e);
      assert EncodeAll(c, es + [e]) == Encode(c, es[0]) + (EncodeAll(c, es[1..]) + Encode(c, e));
    }
  }

  /** However far a batch write got, the file holds some first records and at most a torn one. */
  lemma {:induction false} CutBatch(c: Codec, es: seq<LogEntry>, cut: nat) returns (n: nat)
    requires Lossless(c) && AllFit(c, es) && cut <= |EncodeAll(c, es)|
    ensures n <= |es| && Scan(c, EncodeAll(c, es)[..cut]) == es[..n]
    ensures EncodeAll(c, es)[..cut][..ValidLength(c, EncodeAll(c, es)[..cut])] == EncodeAll(c, es[..n])
    decreases |es|
  {
    hide Encode, ReadEntry;
    var b := EncodeAll(c, es)[..cut];
    if es == [] {
      n := 0;
    } else if cut < |Encode(c, es[0])| {
      n := 0;
      assert b == Encode(c, es[0])[..cut];
      ReadTorn(c, es[0], b);
    } else {
      var first := Encode(c, es[0]);
      var n' := CutBatch(c, es[1..], cut - |first|);
      n := n' + 1;
      var rest := EncodeAll(c, es[1..])[..cut - |first|];
      assert b == first + rest;
      CutPast(c, es, n', rest);
    }
  }

  lemma CutPast(c: Codec, es: seq<LogEntry>, n: nat, rest: seq<Byte>)
    requires Lossless(c) && AllFit(c, es) && n < |es| && Scan(c, rest) == es[1..][..n]
    requires rest[..ValidLength(c, rest)] == EncodeAll(c, es[1..][..n])
    ensures var b := Encode(c, es[0]) + rest;
      Scan(c, b) == es[..n + 1] && b[..ValidLength(c, b)] == EncodeAll(c, es[..n + 1])
  {
    hide Encode, Scan, ValidLength;
    var first := Encode(c, es[0]);
    ScanPast(c, es[0], rest);
    assert es[..n + 1] == [es[0]] + es[1..][..n];
    assert es[..n + 1][1..] == es[1..][..n];
    var b := first + rest;
    assert b[..|first| + ValidLength(c, rest)] == first + rest[..ValidLength(c, rest)];
  }
}
