/** The fixed-layout binary records of the search daemon's reply:
    statistics (120 bytes), hit summary (152 bytes), domain (72 bytes) and
    alignment header (168 bytes, followed by `memsize` opaque bytes).

    Each record is read where it lies in the reply: the field functions
    below take the buffer and the record's offset, and read each field the
    client uses at its fixed offset and width inside the record
    (little-endian, native alignment), so they are the layout table.
    `struct.unpack` on the slice `buf[at:at+size]` succeeds exactly when
    the record lies inside the buffer, and then reads the same bytes
    (`UnpackSlice`). Floating-point fields are read as their raw bits and
    turned into numbers by a `FloatOps` value. */
module Records {
  import opened Bytes

  const StatsSize: nat := 120
  const HitSize: nat := 152
  const DomainSize: nat := 72
  const AlignHeaderSize: nat := 168

  /** Floating-point arithmetic as the client uses it: how IEEE bit
      patterns become numbers, the exponential function and the product of
      two doubles. The client never inspects them beyond calling them. */
  datatype FloatOps = FloatOps(f32: nat -> real, f64: nat -> real, exp: real -> real, mul: (real, real) -> real)

  /** The fields the client reads from each record. */
  datatype StatsFields = StatsFields(elapsedBits: nat, zBits: nat, domZBits: nat, nhits: int)
  datatype HitFields = HitFields(name: nat, sumScoreBits: nat, logPvalueBits: nat, ndom: nat)
  datatype AlignmentFields = AlignmentFields(hmmFrom: nat, hmmTo: nat, sqFrom: nat, sqTo: nat, memsize: nat)

  /** Statistics, "5d 2I 9q": elapsed (double at 0), Z (double at 24),
      domZ (double at 32), nhits (seventh signed counter, at 96). */
  function ReadStats(buf: seq<Byte>, at: nat): (s: StatsFields)
    requires at + StatsSize <= |buf|
    ensures -Two63 <= s.nhits < Two63
  {
    StatsFields(U64At(buf, at), U64At(buf, at + 24), U64At(buf, at + 32), I64At(buf, at + 96))
  }

  /** Hit summary, "3Q I 4x d 3f 4x 3d f 9I 4Q": name (at 0), sum_score
      (float at 48), log p-value (double at 56), ndom (at 100). */
  function ReadHit(buf: seq<Byte>, at: nat): HitFields
    requires at + HitSize <= |buf|
  {
    HitFields(U64At(buf, at), U32At(buf, at + 48), U64At(buf, at + 56), U32At(buf, at + 100))
  }

  /** Domain, "4i 5f 4x d 2i Q 8x": bitscore (the fifth float, at 32). */
  function BitscoreBits(buf: seq<Byte>, at: nat): nat
    requires at + DomainSize <= |buf|
  {
    U32At(buf, at + 32)
  }

  /** Alignment header, "7Q I 4x 3Q 3I 4x 6Q I 4x Q": hmmfrom and hmmto (at
      88 and 92), sqfrom and sqto (at 128 and 136), memsize (at 152). */
  function ReadAlignment(buf: seq<Byte>, at: nat): AlignmentFields
    requires at + AlignHeaderSize <= |buf|
  {
    AlignmentFields(U32At(buf, at + 88), U32At(buf, at + 92), U64At(buf, at + 128), U64At(buf, at + 136),
                    U32At(buf, at + 152))
  }

  /** Python slicing `buf[a:b]` for non-negative bounds: clipped to the buffer. */
  function PySlice(buf: seq<Byte>, a: nat, b: nat): seq<Byte> {
    if a >= |buf| || b <= a then [] else if b <= |buf| then buf[a..b] else buf[a..]
  }

  /** The slice Python takes has the full record size exactly when the
      record lies inside the buffer, and then it is those bytes; otherwise
      it is shorter and `struct.unpack` raises. */
  lemma UnpackSlice(buf: seq<Byte>, at: nat, size: nat)
    requires size > 0
    ensures |PySlice(buf, at, at + size)| == size <==> at + size <= |buf|
    ensures |PySlice(buf, at, at + size)| <= size
    ensures at + size <= |buf| ==> PySlice(buf, at, at + size) == buf[at..at + size]
  {
  }

  /** Reading a record from its own slice is reading it in place. */
  lemma {:induction false} ReadInPlace(buf: seq<Byte>, at: nat)
    ensures at + HitSize <= |buf| ==> ReadHit(buf[at..at + HitSize], 0) == ReadHit(buf, at)
    ensures at + StatsSize <= |buf| ==> ReadStats(buf[at..at + StatsSize], 0) == ReadStats(buf, at)
    ensures at + AlignHeaderSize <= |buf| ==>
      ReadAlignment(buf[at..at + AlignHeaderSize], 0) == ReadAlignment(buf, at)
    ensures at + DomainSize <= |buf| ==> BitscoreBits(buf[at..at + DomainSize], 0) == BitscoreBits(buf, at)
  {
    if at + DomainSize <= |buf| { DomainInPlace(buf, at); }
    if at + StatsSize <= |buf| { StatsInPlace(buf, at); }
    if at + HitSize <= |buf| { HitInPlace(buf, at); }
    if at + AlignHeaderSize <= |buf| { AlignmentInPlace(buf, at); }
  }

  lemma DomainInPlace(buf: seq<Byte>, at: nat)
    requires at + DomainSize <= |buf|
    ensures BitscoreBits(buf[at..at + DomainSize], 0) == BitscoreBits(buf, at)
  {
    var r := buf[at..at + DomainSize];
    assert forall k :: 0 <= k < DomainSize ==> r[k] == buf[at + k];
  }

  lemma StatsInPlace(buf: seq<Byte>, at: nat)
    requires at + StatsSize <= |buf|
    ensures ReadStats(buf[at..at + StatsSize], 0) == ReadStats(buf, at)
  {
    var r := buf[at..at + StatsSize];
    U64InPlace(buf, at, StatsSize, 0);
    U64InPlace(buf, at, StatsSize, 24);
    U64InPlace(buf, at, StatsSize, 32);
    U64InPlace(buf, at, StatsSize, 96);
    assert I64At(r, 96) == I64At(buf, at + 96);
  }

  lemma U64InPlace(buf: seq<Byte>, at: nat, n: nat, off: nat)
    requires at + n <= |buf| && off + 8 <= n
    ensures U64At(buf[at..at + n], off) == U64At(buf, at + off)
  {
    var r := buf[at..at + n];
    assert forall k :: off <= k < off + 8 ==> r[k] == buf[at + k];
  }

  lemma HitInPlace(buf: seq<Byte>, at: nat)
    requires at + HitSize <= |buf|
    ensures ReadHit(buf[at..at + HitSize], 0) == ReadHit(buf, at)
  {
    var r := buf[at..at + HitSize];
    assert forall k :: 0 <= k < HitSize ==> r[k] == buf[at + k];
  }

  lemma AlignmentInPlace(buf: seq<Byte>, at: nat)
    requires at + AlignHeaderSize <= |buf|
    ensures ReadAlignment(buf[at..at + AlignHeaderSize], 0) == ReadAlignment(buf, at)
  {
    var r := buf[at..at + AlignHeaderSize];
    assert forall k :: 0 <= k < AlignHeaderSize ==> r[k] == buf[at + k];
  }

  // ---- encoders (the daemon's side), used to state round trips ----

  predicate ValidStats(s: StatsFields) {
    s.elapsedBits < Two64 && s.zBits < Two64 && s.domZBits < Two64 && -Two63 <= s.nhits < Two63
  }

  predicate ValidHit(h: HitFields) {
    h.name < Two64 && h.sumScoreBits < Pow256(4) && h.logPvalueBits < Two64 && h.ndom < Pow256(4)
  }

  predicate ValidAlignment(a: AlignmentFields) {
    a.hmmFrom < Pow256(4) && a.hmmTo < Pow256(4) && a.sqFrom < Two64 && a.sqTo < Two64
    && a.memsize < Pow256(4)
  }

  function EncodeStats(s: StatsFields): (r: seq<Byte>)
    requires ValidStats(s)
    ensures |r| == StatsSize
  {
    ToLE(s.elapsedBits, 8) + Zeros(16) + ToLE(s.zBits, 8) + ToLE(s.domZBits, 8) + Zeros(56)
    + ToLESigned64(s.nhits) + Zeros(16)
  }

  function EncodeHit(h: HitFields): (r: seq<Byte>)
    requires ValidHit(h)
    ensures |r| == HitSize
  {
    ToLE(h.name, 8) + Zeros(40) + ToLE(h.sumScoreBits, 4) + Zeros(4) + ToLE(h.logPvalueBits, 8)
    + Zeros(36) + ToLE(h.ndom, 4) + Zeros(48)
  }

  function EncodeDomain(bitscoreBits: nat): (r: seq<Byte>)
    requires bitscoreBits < Pow256(4)
    ensures |r| == DomainSize
  {
    Zeros(32) + ToLE(bitscoreBits, 4) + Zeros(36)
  }

  function EncodeAlignment(a: AlignmentFields): (r: seq<Byte>)
    requires ValidAlignment(a)
    ensures |r| == AlignHeaderSize
  {
    Zeros(88) + ToLE(a.hmmFrom, 4) + ToLE(a.hmmTo, 4) + Zeros(32) + ToLE(a.sqFrom, 8)
    + ToLE(a.sqTo, 8) + Zeros(8) + ToLE(a.memsize, 4) + Zeros(12)
  }

  // ---- round trips: a record written anywhere in a buffer reads back ----

  /** The groupings of a record's parts that isolate each field the client reads. */
  lemma StatsGroups(p1: seq<Byte>, p2: seq<Byte>, p3: seq<Byte>, p4: seq<Byte>, p5: seq<Byte>, p6: seq<Byte>,
                    p7: seq<Byte>)
    ensures p1 + p2 + p3 + p4 + p5 + p6 + p7 == [] + p1 + (p2 + p3 + p4 + p5 + p6 + p7)
    ensures p1 + p2 + p3 + p4 + p5 + p6 + p7 == (p1 + p2) + p3 + (p4 + p5 + p6 + p7)
    ensures p1 + p2 + p3 + p4 + p5 + p6 + p7 == (p1 + p2 + p3) + p4 + (p5 + p6 + p7)
    ensures p1 + p2 + p3 + p4 + p5 + p6 + p7 == (p1 + p2 + p3 + p4 + p5) + p6 + p7
  {
  }

  lemma StatsRoundTrip(pre: seq<Byte>, s: StatsFields, post: seq<Byte>)
    requires ValidStats(s)
    ensures |pre| + StatsSize <= |pre + EncodeStats(s) + post|
    ensures ReadStats(pre + EncodeStats(s) + post, |pre|) == s
  {
    var p1, p2, p3, p4 := ToLE(s.elapsedBits, 8), Zeros(16), ToLE(s.zBits, 8), ToLE(s.domZBits, 8);
    var p5, p6, p7 := Zeros(56), ToLESigned64(s.nhits), Zeros(16);
    StatsGroups(p1, p2, p3, p4, p5, p6, p7);
    assert Pow256(8) == Two64;
    Field64Mid(pre, [], s.elapsedBits, p2 + p3 + p4 + p5 + p6 + p7, post);
    Field64Mid(pre, p1 + p2, s.zBits, p4 + p5 + p6 + p7, post);
    Field64Mid(pre, p1 + p2 + p3, s.domZBits, p5 + p6 + p7, post);
    SignedMid(pre, p1 + p2 + p3 + p4 + p5, s.nhits, p7, post);
  }

  lemma HitGroups(p1: seq<Byte>, p2: seq<Byte>, p3: seq<Byte>, p4: seq<Byte>, p5: seq<Byte>, p6: seq<Byte>,
                  p7: seq<Byte>, p8: seq<Byte>)
    ensures p1 + p2 + p3 + p4 + p5 + p6 + p7 + p8 == [] + p1 + (p2 + p3 + p4 + p5 + p6 + p7 + p8)
    ensures p1 + p2 + p3 + p4 + p5 + p6 + p7 + p8 == (p1 + p2) + p3 + (p4 + p5 + p6 + p7 + p8)
    ensures p1 + p2 + p3 + p4 + p5 + p6 + p7 + p8 == (p1 + p2 + p3 + p4) + p5 + (p6 + p7 + p8)
    ensures p1 + p2 + p3 + p4 + p5 + p6 + p7 + p8 == (p1 + p2 + p3 + p4 + p5 + p6) + p7 + p8
  {
  }

  lemma HitRoundTrip(pre: seq<Byte>, h: HitFields, post: seq<Byte>)
    requires ValidHit(h)
    ensures |pre| + HitSize <= |pre + EncodeHit(h) + post|
    ensures ReadHit(pre + EncodeHit(h) + post, |pre|) == h
  {
    var p1, p2, p3, p4 := ToLE(h.name, 8), Zeros(40), ToLE(h.sumScoreBits, 4), Zeros(4);
    var p5, p6, p7, p8 := ToLE(h.logPvalueBits, 8), Zeros(36), ToLE(h.ndom, 4), Zeros(48);
    HitGroups(p1, p2, p3, p4, p5, p6, p7, p8);
    assert Pow256(8) == Two64;
    Field64Mid(pre, [], h.name, p2 + p3 + p4 + p5 + p6 + p7 + p8, post);
    Field32Mid(pre, p1 + p2, h.sumScoreBits, p4 + p5 + p6 + p7 + p8, post);
    Field64Mid(pre, p1 + p2 + p3 + p4, h.logPvalueBits, p6 + p7 + p8, post);
    Field32Mid(pre, p1 + p2 + p3 + p4 + p5 + p6, h.ndom, p8, post);
  }

  lemma DomainRoundTrip(pre: seq<Byte>, bitscoreBits: nat, post: seq<Byte>)
    requires bitscoreBits < Pow256(4)
    ensures |pre| + DomainSize <= |pre + EncodeDomain(bitscoreBits) + post|
    ensures BitscoreBits(pre + EncodeDomain(bitscoreBits) + post, |pre|) == bitscoreBits
  {
    Field32Mid(pre, Zeros(32), bitscoreBits, Zeros(36), post);
  }

  lemma AlignmentGroups(p1: seq<Byte>, p2: seq<Byte>, p3: seq<Byte>, p4: seq<Byte>, p5: seq<Byte>,
                        p6: seq<Byte>, p7: seq<Byte>, p8: seq<Byte>, p9: seq<Byte>)
    ensures p1 + p2 + p3 + p4 + p5 + p6 + p7 + p8 + p9 == p1 + p2 + (p3 + p4 + p5 + p6 + p7 + p8 + p9)
    ensures p1 + p2 + p3 + p4 + p5 + p6 + p7 + p8 + p9 == (p1 + p2) + p3 + (p4 + p5 + p6 + p7 + p8 + p9)
    ensures p1 + p2 + p3 + p4 + p5 + p6 + p7 + p8 + p9 == (p1 + p2 + p3 + p4) + p5 + (p6 + p7 + p8 + p9)
    ensures p1 + p2 + p3 + p4 + p5 + p6 + p7 + p8 + p9 == (p1 + p2 + p3 + p4 + p5) + p6 + (p7 + p8 + p9)
    ensures p1 + p2 + p3 + p4 + p5 + p6 + p7 + p8 + p9 == (p1 + p2 + p3 + p4 + p5 + p6 + p7) + p8 + p9
  {
  }

  lemma AlignmentRoundTrip(pre: seq<Byte>, a: AlignmentFields, post: seq<Byte>)
    requires ValidAlignment(a)
    ensures |pre| + AlignHeaderSize <= |pre + EncodeAlignment(a) + post|
    ensures ReadAlignment(pre + EncodeAlignment(a) + post, |pre|) == a
  {
    var p1, p2, p3, p4, p5 := Zeros(88), ToLE(a.hmmFrom, 4), ToLE(a.hmmTo, 4), Zeros(32), ToLE(a.sqFrom, 8);
    var p6, p7, p8, p9 := ToLE(a.sqTo, 8), Zeros(8), ToLE(a.memsize, 4), Zeros(12);
    AlignmentGroups(p1, p2, p3, p4, p5, p6, p7, p8, p9);
    assert Pow256(8) == Two64;
    Field32Mid(pre, p1, a.hmmFrom, p3 + p4 + p5 + p6 + p7 + p8 + p9, post);
    Field32Mid(pre, p1 + p2, a.hmmTo, p4 + p5 + p6 + p7 + p8 + p9, post);
    Field64Mid(pre, p1 + p2 + p3 + p4, a.sqFrom, p6 + p7 + p8 + p9, post);
    Field64Mid(pre, p1 + p2 + p3 + p4 + p5, a.sqTo, p7 + p8 + p9, post);
    Field32Mid(pre, p1 + p2 + p3 + p4 + p5 + p6 + p7, a.memsize, p9, post);
  }
}
