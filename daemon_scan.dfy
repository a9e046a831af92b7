/** Decoding of one reply of the search daemon (`scan_hits` without the
    socket): a 16-byte status header and a body made of a statistics
    record, `nhits` hit records back to back, then for every hit with
    `ndom > 0` its domain records followed by its alignment records, each
    alignment record being a fixed header plus `memsize` trailing bytes.

    The reply is specified in two independent steps: `ParseBlocks` cuts the
    body into hit blocks (record layout only), `Select` applies the
    threshold filter and the distinct-target cap to the blocks in record
    order. `ScanHits` is the imperative decoder, with the interleaved
    cursor arithmetic of the source, proved equal to `ScanResponse`. */
module DaemonScan {
  import opened Wrappers
  import opened Bytes
  import opened Records

  /** Caller-supplied options: `evalue_thr`, `score_thr`, `max_hits` (after
      `int()` coercion) and `fixed_Z`. */
  datatype Config = Config(evalueThr: Option<real>, scoreThr: Option<real>, maxHits: Option<int>,
                           fixedZ: Option<real>)

  /** `(name, evalue, score, hmmfrom, hmmto, sqfrom, sqto, bitscore)`. */
  datatype HitTuple = HitTuple(name: nat, evalue: real, score: real, hmmFrom: nat, hmmTo: nat,
                               sqFrom: nat, sqTo: nat, bitscore: real)

  /** A short slice handed to `struct.unpack` (struct.error), a hit count
      whose end offset does not fit the C long of `xrange` (OverflowError),
      or a non-zero daemon status (carrying the first 50 characters of the
      request). */
  datatype ScanError = ShortRecord | RangeOverflow | DaemonError(requestPrefix: string)

  /** One hit record with what its trailer holds: the bitscore of each
      domain record and the header of each alignment record. */
  datatype Block = Block(hit: HitFields, bitscores: seq<nat>, algs: seq<AlignmentFields>)

  datatype Selection = Selection(hits: seq<HitTuple>, models: set<nat>, stopped: bool)

  predicate Consistent(b: Block) {
    |b.bitscores| == b.hit.ndom && |b.algs| == b.hit.ndom
  }

  /** Hit i is read at 120 + 152 * i. */
  function HitOffset(i: nat): nat {
    StatsSize + HitSize * i
  }

  /** `xrange(120, 120 + 152 * nhits, 152)` takes C longs (64-bit here):
      an end offset outside that range raises OverflowError. */
  predicate RangeOverflows(s: StatsFields) {
    var hitsEnd := StatsSize + HitSize * s.nhits;
    hitsEnd < -Two63 || hitsEnd >= Two63
  }

  /** `nhits` is signed; `xrange` over a negative count is empty. */
  function HitCount(s: StatsFields): nat {
    if s.nhits > 0 then s.nhits else 0
  }

  /** A truthy `fixed_Z` replaces the Z of the statistics record. */
  function EffectiveZ(ops: FloatOps, s: StatsFields, fixedZ: Option<real>): (z: real)
    ensures fixedZ.Some? && fixedZ.value != 0.0 ==> z == fixedZ.value
    ensures fixedZ.None? || fixedZ.value == 0.0 ==> z == ops.f64(s.zBits)
  {
    if fixedZ.Some? && fixedZ.value != 0.0 then fixedZ.value else ops.f64(s.zBits)
  }

  /** `evalue = exp(pvalue) * Z`. */
  function Evalue(ops: FloatOps, h: HitFields, z: real): real {
    ops.mul(ops.exp(ops.f64(h.logPvalueBits)), z)
  }

  function Score(ops: FloatOps, h: HitFields): real {
    ops.f32(h.sumScoreBits)
  }

  /** The filter, quirk included: with no score threshold nothing passes. */
  predicate Passes(cfg: Config, evalue: real, score: real) {
    (cfg.evalueThr.None? || evalue <= cfg.evalueThr.value)
    && (cfg.scoreThr.Some? && score >= cfg.scoreThr.value)
  }

  predicate Accepted(ops: FloatOps, z: real, cfg: Config, h: HitFields) {
    h.ndom > 0 && Passes(cfg, Evalue(ops, h, z), Score(ops, h))
  }

  /** `if max_hits and len(hit_models) == max_hits: break`. */
  predicate CapReached(cfg: Config, models: set<nat>) {
    cfg.maxHits.Some? && cfg.maxHits.value != 0 && |models| == cfg.maxHits.value
  }

  function MakeTuple(ops: FloatOps, z: real, h: HitFields, bitscoreBits: nat, a: AlignmentFields): HitTuple {
    HitTuple(h.name, Evalue(ops, h, z), Score(ops, h), a.hmmFrom, a.hmmTo, a.sqFrom, a.sqTo,
             ops.f32(bitscoreBits))
  }

  /** Tuples pairing the j-th domain record with the j-th alignment record. */
  function Tuples(ops: FloatOps, z: real, h: HitFields, bitscores: seq<nat>, algs: seq<AlignmentFields>)
    : (r: seq<HitTuple>)
    requires |algs| <= |bitscores|
    ensures |r| == |algs|
    ensures forall j :: 0 <= j < |algs| ==> r[j] == MakeTuple(ops, z, h, bitscores[j], algs[j])
    decreases |algs|
  {
    if algs == [] then []
    else Tuples(ops, z, h, bitscores, algs[..|algs| - 1])
         + [MakeTuple(ops, z, h, bitscores[|algs| - 1], algs[|algs| - 1])]
  }

  /** What one hit block adds to the output: one tuple per domain when the
      hit passes the filter, nothing otherwise. */
  function Contribution(ops: FloatOps, z: real, cfg: Config, b: Block): (r: seq<HitTuple>)
    requires Consistent(b)
    ensures Accepted(ops, z, cfg, b.hit) ==> |r| == b.hit.ndom
    ensures !Accepted(ops, z, cfg, b.hit) ==> r == []
    ensures forall j :: 0 <= j < |r| ==>
      && r[j].name == b.hit.name && r[j].evalue == Evalue(ops, b.hit, z) && r[j].score == Score(ops, b.hit)
      && r[j].hmmFrom == b.algs[j].hmmFrom && r[j].hmmTo == b.algs[j].hmmTo
      && r[j].sqFrom == b.algs[j].sqFrom && r[j].sqTo == b.algs[j].sqTo
      && r[j].bitscore == ops.f32(b.bitscores[j])
  {
    if Accepted(ops, z, cfg, b.hit) then Tuples(ops, z, b.hit, b.bitscores, b.algs) else []
  }

  // ---- layout: cutting the body into blocks ----

  /** `k` alignment records chained from `pos`; each header is followed by
      its own `memsize` bytes. Returns the headers and the cursor after the
      last record, or nothing when a header runs past the body. */
  function Alignments(body: seq<Byte>, pos: nat, k: nat): Option<(seq<AlignmentFields>, nat)>
    decreases k
  {
    if k == 0 then Some(([], pos))
    else if pos + AlignHeaderSize > |body| then None
    else
      var a := ReadAlignment(body, pos);
      match Alignments(body, pos + AlignHeaderSize + a.memsize, k - 1)
      case None => None
      case Some((rest, end)) => Some(([a] + rest, end))
  }

  /** The bitscores of `ndom` domain records laid out from `pos`. */
  function Bitscores(body: seq<Byte>, pos: nat, ndom: nat): (r: seq<nat>)
    requires pos + DomainSize * ndom <= |body|
    ensures |r| == ndom
  {
    seq(ndom, j requires 0 <= j < ndom => BitscoreBits(body, pos + DomainSize * j))
  }

  /** The trailer of a hit with `ndom` domains starting at `pos`: nothing
      when `ndom == 0`, else the domain records then the alignment records. */
  function Trailer(body: seq<Byte>, pos: nat, ndom: nat): Option<(seq<nat>, seq<AlignmentFields>, nat)> {
    if ndom == 0 then Some(([], [], pos))
    else if pos + DomainSize * ndom > |body| then None
    else
      match Alignments(body, pos + DomainSize * ndom, ndom)
      case None => None
      case Some((algs, end)) => Some((Bitscores(body, pos, ndom), algs, end))
  }

  function ParseBlock(body: seq<Byte>, i: nat, cursor: nat): Option<(Block, nat)> {
    if HitOffset(i) + HitSize > |body| then None
    else
      var h := ReadHit(body, HitOffset(i));
      match Trailer(body, cursor, h.ndom)
      case None => None
      case Some((bits, algs, end)) => Some((Block(h, bits, algs), end))
  }

  /** Blocks i, i+1, ... n-1, stopping at the first one that cannot be read;
      the flag says whether all of them could. */
  function ParseBlocks(body: seq<Byte>, i: nat, n: nat, cursor: nat): (seq<Block>, bool)
    decreases n - i
  {
    if i >= n then ([], true)
    else
      match ParseBlock(body, i, cursor)
      case None => ([], false)
      case Some((b, next)) =>
        var rest := ParseBlocks(body, i + 1, n, next);
        ([b] + rest.0, rest.1)
  }

  // ---- selection: filter and cap, in record order ----

  function Select(ops: FloatOps, z: real, cfg: Config, bs: seq<Block>): Selection
    requires forall k :: 0 <= k < |bs| ==> Consistent(bs[k])
    decreases |bs|
  {
    if bs == [] then Selection([], {}, false)
    else
      var s := Select(ops, z, cfg, bs[..|bs| - 1]);
      if s.stopped then s
      else
        var b := bs[|bs| - 1];
        var models := if Accepted(ops, z, cfg, b.hit) then s.models + {b.hit.name} else s.models;
        Selection(s.hits + Contribution(ops, z, cfg, b), models, CapReached(cfg, models))
  }

  function DecodeBody(ops: FloatOps, cfg: Config, body: seq<Byte>): Result<(real, seq<HitTuple>), ScanError> {
    if StatsSize > |body| then Failure(ShortRecord)
    else
      var stats := ReadStats(body, 0);
      if RangeOverflows(stats) then Failure(RangeOverflow)
      else
      var n := HitCount(stats);
      var parsed := ParseBlocks(body, 0, n, HitOffset(n));
      ParseBlocksConsistent(body, 0, n, HitOffset(n));
      var sel := Select(ops, EffectiveZ(ops, stats, cfg.fixedZ), cfg, parsed.0);
      if sel.stopped || parsed.1 then Success((ops.f64(stats.elapsedBits), sel.hits))
      else Failure(ShortRecord)
  }

  function Min(a: nat, b: nat): nat { if a <= b then a else b }

  /** The whole reply: the header is "I 4x Q" (status, padding, length);
      a non-zero status raises before any body byte is decoded. The body
      length field only drives the socket reads and is not used here. */
  function ScanResponse(ops: FloatOps, cfg: Config, request: string, header: seq<Byte>, body: seq<Byte>)
    : Result<(real, seq<HitTuple>), ScanError>
  {
    if |header| != 16 then Failure(ShortRecord)
    else if U32At(header, 0) != 0 then Failure(DaemonError(request[..Min(50, |request|)]))
    else DecodeBody(ops, cfg, body)
  }

  // ---- the imperative decoder ----

  function PrependAlgs(done: seq<AlignmentFields>, r: Option<(seq<AlignmentFields>, nat)>)
    : Option<(seq<AlignmentFields>, nat)>
  {
    match r
    case None => None
    case Some((algs, end)) => Some((done + algs, end))
  }

  function PrependBlocks(done: seq<Block>, r: (seq<Block>, bool)): (seq<Block>, bool) {
    (done + r.0, r.1)
  }

  /** The trailer of one hit read from `start`: the domain records first,
      then the chained alignment records; the tuples of an accepted hit are
      appended to `hits0`, one per domain, and its name to `models0`. */
  method ScanTrailer(ops: FloatOps, z: real, cfg: Config, body: seq<Byte>, hit: HitFields, start: nat,
                     hits0: seq<HitTuple>, models0: set<nat>)
    returns (ok: bool, hits: seq<HitTuple>, models: set<nat>, end: nat, bitscores: seq<nat>,
             ghost algs: seq<AlignmentFields>)
    ensures ok <==> Trailer(body, start, hit.ndom).Some?
    ensures ok ==> Trailer(body, start, hit.ndom) == Some((bitscores, algs, end))
    ensures ok ==> |bitscores| == hit.ndom && |algs| == hit.ndom
    ensures ok ==> hits == hits0 + (if Accepted(ops, z, cfg, hit) then Tuples(ops, z, hit, bitscores, algs) else [])
    ensures ok ==> models == (if Accepted(ops, z, cfg, hit) then models0 + {hit.name} else models0)
  {
    hits, models, end, bitscores, algs := hits0, models0, start, [], [];
    if hit.ndom == 0 {
      return true, hits, models, end, bitscores, algs;
    }
    var domEnd: nat := start + DomainSize * hit.ndom;
    if domEnd > |body| {
      // the slice of ndom domain records is short: struct.unpack raises
      return false, hits, models, end, bitscores, algs;
    }
    bitscores := Bitscores(body, start, hit.ndom);
    ok, hits, models, end, algs := ScanAlignments(ops, z, cfg, body, hit, bitscores, domEnd, hits0, models0);
  }

  /** The alignment records of one hit, chained from `pos`, each followed by
      its `memsize` bytes; domain j and alignment j make one tuple when the
      hit passes the filter. */
  method ScanAlignments(ops: FloatOps, z: real, cfg: Config, body: seq<Byte>, hit: HitFields,
                        bitscores: seq<nat>, pos: nat, hits0: seq<HitTuple>, models0: set<nat>)
    returns (ok: bool, hits: seq<HitTuple>, models: set<nat>, end: nat, ghost algs: seq<AlignmentFields>)
    requires |bitscores| == hit.ndom
    ensures ok <==> Alignments(body, pos, hit.ndom).Some?
    ensures ok ==> Alignments(body, pos, hit.ndom) == Some((algs, end)) && |algs| == hit.ndom
    ensures ok ==> var passes := Passes(cfg, Evalue(ops, hit, z), Score(ops, hit));
      && hits == hits0 + (if passes then Tuples(ops, z, hit, bitscores, algs) else [])
      && models == (if passes && hit.ndom > 0 then models0 + {hit.name} else models0)
  {
    var passes := Passes(cfg, Evalue(ops, hit, z), Score(ops, hit));
    hits, models, end, algs := hits0, models0, pos, [];
    ghost var all := Alignments(body, pos, hit.ndom);
    PrependNothing(all);
    var d := 0;
    while d < hit.ndom
      invariant 0 <= d <= hit.ndom && |algs| == d
      invariant all == PrependAlgs(algs, Alignments(body, end, hit.ndom - d))
      invariant hits == hits0 + Emitted(ops, z, passes, hit, bitscores, algs)
      invariant models == (if passes && d > 0 then models0 + {hit.name} else models0)
    {
      if end + AlignHeaderSize > |body| {
        // the 168-byte slice is short: struct.unpack raises
        AlignmentsStop(body, end, hit.ndom - d);
        return false, hits, models, end, algs;
      }
      var alg := ReadAlignment(body, end);
      AlignmentsNext(body, end, hit.ndom - d, algs);
      end := end + AlignHeaderSize + alg.memsize;
      if passes {
        models := models + {hit.name};
        hits := hits + [MakeTuple(ops, z, hit, bitscores[d], alg)];
      }
      EmittedSnoc(ops, z, passes, hit, bitscores, algs, alg);
      algs := algs + [alg];
      d := d + 1;
    }
    AlignmentsDone(body, end, all, algs);
    return true, hits, models, end, algs;
  }

  /** The tuples one hit contributes for the alignments read so far. */
  function Emitted(ops: FloatOps, z: real, passes: bool, h: HitFields, bitscores: seq<nat>,
                   algs: seq<AlignmentFields>): seq<HitTuple>
    requires |algs| <= |bitscores|
  {
    if passes then Tuples(ops, z, h, bitscores, algs) else []
  }

  lemma EmittedSnoc(ops: FloatOps, z: real, passes: bool, h: HitFields, bitscores: seq<nat>,
                    algs: seq<AlignmentFields>, a: AlignmentFields)
    requires |algs| < |bitscores|
    ensures Emitted(ops, z, passes, h, bitscores, algs + [a])
            == Emitted(ops, z, passes, h, bitscores, algs)
               + (if passes then [MakeTuple(ops, z, h, bitscores[|algs|], a)] else [])
  {
    if passes {
      TuplesSnoc(ops, z, h, bitscores, algs, a);
    }
  }

  lemma PrependNothing(r: Option<(seq<AlignmentFields>, nat)>)
    ensures r == PrependAlgs([], r)
  {
    match r
    case None =>
    case Some((xs, e)) => assert [] + xs == xs;
  }

  lemma AlignmentsDone(body: seq<Byte>, end: nat, all: Option<(seq<AlignmentFields>, nat)>,
                       algs: seq<AlignmentFields>)
    requires all == PrependAlgs(algs, Alignments(body, end, 0))
    ensures all == Some((algs, end))
  {
    assert algs + [] == algs;
  }


  lemma TuplesSnoc(ops: FloatOps, z: real, h: HitFields, bitscores: seq<nat>, algs: seq<AlignmentFields>,
                   a: AlignmentFields)
    requires |algs| < |bitscores|
    ensures Tuples(ops, z, h, bitscores, algs + [a])
            == Tuples(ops, z, h, bitscores, algs) + [MakeTuple(ops, z, h, bitscores[|algs|], a)]
  {
    assert (algs + [a])[..|algs|] == algs;
  }

  /** A header running past the body ends the chain in failure. */
  lemma AlignmentsStop(body: seq<Byte>, pos: nat, k: nat)
    requires k > 0 && pos + AlignHeaderSize > |body|
    ensures Alignments(body, pos, k).None?
  {
  }

  /** Reading one alignment record of the chain. */
  lemma AlignmentsNext(body: seq<Byte>, pos: nat, k: nat, done: seq<AlignmentFields>)
    requires k > 0 && pos + AlignHeaderSize <= |body|
    ensures var a := ReadAlignment(body, pos);
      PrependAlgs(done, Alignments(body, pos, k))
      == PrependAlgs(done + [a], Alignments(body, pos + AlignHeaderSize + a.memsize, k - 1))
  {
    var a := ReadAlignment(body, pos);
    match Alignments(body, pos + AlignHeaderSize + a.memsize, k - 1)
    case None =>
    case Some((rest, end)) =>
      assert done + ([a] + rest) == (done + [a]) + rest;
  }

  /** Hit record i and its trailer, read from `cursor`; an accepted hit
      adds its tuples to `hits0` and its name to `models0`. */
  method ScanBlock(ops: FloatOps, z: real, cfg: Config, body: seq<Byte>, i: nat, cursor: nat,
                   hits0: seq<HitTuple>, models0: set<nat>)
    returns (ok: bool, hits: seq<HitTuple>, models: set<nat>, next: nat, ghost b: Block)
    ensures ok <==> ParseBlock(body, i, cursor).Some?
    ensures ok ==> ParseBlock(body, i, cursor) == Some((b, next)) && Consistent(b)
    ensures ok ==> hits == hits0 + Contribution(ops, z, cfg, b)
    ensures ok ==> models == (if Accepted(ops, z, cfg, b.hit) then models0 + {b.hit.name} else models0)
  {
    hits, models, next := hits0, models0, cursor;
    b := Block(HitFields(0, 0, 0, 0), [], []);
    if HitOffset(i) + HitSize > |body| {
      // the 152-byte slice is short: struct.unpack raises
      return false, hits, models, next, b;
    }
    var hit := ReadHit(body, HitOffset(i));
    var bitscores;
    ghost var algs;
    ok, hits, models, next, bitscores, algs := ScanTrailer(ops, z, cfg, body, hit, cursor, hits0, models0);
    b := Block(hit, bitscores, algs);
  }

  method ScanHits(ops: FloatOps, cfg: Config, request: string, header: seq<Byte>, body: seq<Byte>)
    returns (r: Result<(real, seq<HitTuple>), ScanError>)
    ensures r == ScanResponse(ops, cfg, request, header, body)
  {
    if |header| != 16 {
      return Failure(ShortRecord);
    }
    var status := U32At(header, 0);
    if status != 0 {
      return Failure(DaemonError(request[..Min(50, |request|)]));
    }
    if StatsSize > |body| {
      return Failure(ShortRecord);
    }
    var stats := ReadStats(body, 0);
    var z := ops.f64(stats.zBits);
    if cfg.fixedZ.Some? && cfg.fixedZ.value != 0.0 {
      z := cfg.fixedZ.value;
    }
    assert z == EffectiveZ(ops, stats, cfg.fixedZ);
    var hitsEnd := StatsSize + HitSize * stats.nhits;
    if hitsEnd < -Two63 || hitsEnd >= Two63 {
      return Failure(RangeOverflow);
    }
    var n := HitCount(stats);
    ghost var whole := ParseBlocks(body, 0, n, HitOffset(n));
    ParseBlocksConsistent(body, 0, n, HitOffset(n));
    var hits: seq<HitTuple> := [];
    var models: set<nat> := {};
    var cursor: nat := HitOffset(n);
    ghost var done: seq<Block> := [];
    var i := 0;
    assert done + whole.0 == whole.0;
    while i < n
      invariant 0 <= i <= n && |done| == i
      invariant forall k :: 0 <= k < |done| ==> Consistent(done[k])
      invariant whole == PrependBlocks(done, ParseBlocks(body, i, n, cursor))
      invariant Select(ops, z, cfg, done) == Selection(hits, models, false)
    {
      var ok, hits', models', next, b := ScanBlock(ops, z, cfg, body, i, cursor, hits, models);
      if !ok {
        assert ParseBlocks(body, i, n, cursor) == ([], false);
        assert whole == (done + [], false);
        assert whole.0 == done && !whole.1;
        return Failure(ShortRecord);
      }
      ParseBlocksNext(body, i, n, cursor, done);
      SelectStep(ops, z, cfg, done, b);
      hits, models, cursor, done := hits', models', next, done + [b];
      if cfg.maxHits.Some? && cfg.maxHits.value != 0 && |models| == cfg.maxHits.value {
        ghost var rest := ParseBlocks(body, i + 1, n, cursor);
        ParseBlocksConsistent(body, i + 1, n, cursor);
        SelectStaysStopped(ops, z, cfg, done, rest.0);
        assert whole.0 == done + rest.0;
        return Success((ops.f64(stats.elapsedBits), hits));
      }
      i := i + 1;
    }
    assert whole == (done + [], true);
    assert whole.0 == done;
    return Success((ops.f64(stats.elapsedBits), hits));
  }

  /** Reading block i of the chain. */
  lemma ParseBlocksNext(body: seq<Byte>, i: nat, n: nat, cursor: nat, done: seq<Block>)
    requires i < n && ParseBlock(body, i, cursor).Some?
    ensures var (b, next) := ParseBlock(body, i, cursor).value;
      PrependBlocks(done, ParseBlocks(body, i, n, cursor))
      == PrependBlocks(done + [b], ParseBlocks(body, i + 1, n, next))
  {
    var (b, next) := ParseBlock(body, i, cursor).value;
    var rest := ParseBlocks(body, i + 1, n, next);
    assert done + ([b] + rest.0) == (done + [b]) + rest.0;
  }

  // ---- lemmas ----

  lemma {:induction false} ParseBlocksConsistent(body: seq<Byte>, i: nat, n: nat, cursor: nat)
    ensures forall k :: 0 <= k < |ParseBlocks(body, i, n, cursor).0| ==> Consistent(ParseBlocks(body, i, n, cursor).0[k])
    decreases n - i
  {
    if i < n {
      match ParseBlock(body, i, cursor)
      case None =>
      case Some((b, next)) =>
        ParseBlocksConsistent(body, i + 1, n, next);
        TrailerShape(body, cursor, b.hit.ndom);
    }
  }

  lemma TrailerShape(body: seq<Byte>, pos: nat, ndom: nat)
    ensures Trailer(body, pos, ndom).Some? ==>
      |Trailer(body, pos, ndom).value.0| == ndom && |Trailer(body, pos, ndom).value.1| == ndom
  {
    if ndom > 0 {
      AlignmentsShape(body, pos + DomainSize * ndom, ndom);
    }
  }

  /** One more block, selection not yet stopped. */
  lemma SelectStep(ops: FloatOps, z: real, cfg: Config, bs: seq<Block>, b: Block)
    requires forall k :: 0 <= k < |bs| ==> Consistent(bs[k])
    requires Consistent(b)
    requires !Select(ops, z, cfg, bs).stopped
    ensures forall k :: 0 <= k < |bs + [b]| ==> Consistent((bs + [b])[k])
    ensures var s := Select(ops, z, cfg, bs);
      var models := if Accepted(ops, z, cfg, b.hit) then s.models + {b.hit.name} else s.models;
      Select(ops, z, cfg, bs + [b]) == Selection(s.hits + Contribution(ops, z, cfg, b), models, CapReached(cfg, models))
  {
    assert (bs + [b])[..|bs|] == bs;
  }

  /** Once the cap has stopped the selection, later blocks change nothing. */
  lemma {:induction false} SelectStaysStopped(ops: FloatOps, z: real, cfg: Config, bs: seq<Block>, more: seq<Block>)
    requires forall k :: 0 <= k < |bs| ==> Consistent(bs[k])
    requires forall k :: 0 <= k < |more| ==> Consistent(more[k])
    requires Select(ops, z, cfg, bs).stopped
    ensures Select(ops, z, cfg, bs + more) == Select(ops, z, cfg, bs)
    decreases |more|
  {
    if more != [] {
      var init := bs + more[..|more| - 1];
      assert (bs + more)[..|bs + more| - 1] == init;
      assert forall k :: 0 <= k < |init| ==> Consistent(init[k]);
      assert forall k :: 0 <= k < |bs + more| ==> Consistent((bs + more)[k]);
      SelectStaysStopped(ops, z, cfg, bs, more[..|more| - 1]);
      assert Select(ops, z, cfg, init) == Select(ops, z, cfg, bs);
    } else {
      assert bs + more == bs;
    }
  }

  /** Bytes taken by a run of alignment records: header plus payload each. */
  function AlignBytes(algs: seq<AlignmentFields>): nat {
    if algs == [] then 0 else AlignHeaderSize + algs[0].memsize + AlignBytes(algs[1..])
  }

  /** A chain of k alignment records holds k headers and ends after the
      headers and trailing bytes of all of them. */
  lemma {:induction false} AlignmentsShape(body: seq<Byte>, pos: nat, k: nat)
    ensures Alignments(body, pos, k).Some? ==>
      var (algs, end) := Alignments(body, pos, k).value;
      |algs| == k && end == pos + AlignBytes(algs)
    decreases k
  {
    if k > 0 && Alignments(body, pos, k).Some? {
      var a := ReadAlignment(body, pos);
      var next := pos + AlignHeaderSize + a.memsize;
      AlignmentsShape(body, next, k - 1);
      var algs := Alignments(body, pos, k).value.0;
      assert algs[1..] == Alignments(body, next, k - 1).value.0;
    }
  }

  /** Alignment record j of a chain is the header found after the headers
      and trailing bytes of records 0..j-1. */
  lemma {:induction false} AlignmentAt(body: seq<Byte>, pos: nat, k: nat, j: nat)
    requires Alignments(body, pos, k).Some? && j < k
    ensures var algs := Alignments(body, pos, k).value.0;
      j < |algs| && pos + AlignBytes(algs[..j]) + AlignHeaderSize <= |body|
      && algs[j] == ReadAlignment(body, pos + AlignBytes(algs[..j]))
    decreases j
  {
    var a := ReadAlignment(body, pos);
    var next := pos + AlignHeaderSize + a.memsize;
    var algs := Alignments(body, pos, k).value.0;
    var rest := Alignments(body, next, k - 1).value.0;
    assert algs == [a] + rest;
    if j == 0 {
      assert algs[..0] == [];
    } else {
      AlignmentAt(body, next, k - 1, j - 1);
      assert algs[..j][0] == a && algs[..j][1..] == rest[..j - 1];
    }
  }

  /** Where every alignment record of a chain lies. */
  lemma AlignmentsLayout(body: seq<Byte>, pos: nat, k: nat)
    ensures Alignments(body, pos, k).Some? ==>
      var (algs, end) := Alignments(body, pos, k).value;
      && |algs| == k
      && end == pos + AlignBytes(algs)
      && forall j :: 0 <= j < k ==>
           pos + AlignBytes(algs[..j]) + AlignHeaderSize <= |body|
           && algs[j] == ReadAlignment(body, pos + AlignBytes(algs[..j]))
  {
    AlignmentsShape(body, pos, k);
    if Alignments(body, pos, k).Some? {
      forall j | 0 <= j < k
        ensures var algs := Alignments(body, pos, k).value.0;
          pos + AlignBytes(algs[..j]) + AlignHeaderSize <= |body|
          && algs[j] == ReadAlignment(body, pos + AlignBytes(algs[..j]))
      {
        AlignmentAt(body, pos, k, j);
      }
    }
  }

  /** Bytes a hit block occupies after the hit records: nothing for a hit
      without domains, else 72 per domain plus its alignment records. */
  function TrailerSize(b: Block): nat {
    if b.hit.ndom == 0 then 0 else DomainSize * b.hit.ndom + AlignBytes(b.algs)
  }

  /** Where the trailer of block i starts: right after the hit records plus
      the trailers of the blocks before it. */
  function TrailerStart(n: nat, bs: seq<Block>, i: nat): nat
    requires i <= |bs|
  {
    if i == 0 then HitOffset(n) else TrailerStart(n, bs, i - 1) + TrailerSize(bs[i - 1])
  }

  /** What reading one block establishes: its hit record is the 152 bytes
      at 120 + 152 * i, its trailer is read from the cursor on, and the
      next cursor lies exactly `TrailerSize` bytes further. */
  lemma ParseBlockFacts(body: seq<Byte>, i: nat, cursor: nat)
    requires ParseBlock(body, i, cursor).Some?
    ensures var (b, next) := ParseBlock(body, i, cursor).value;
      && HitOffset(i) + HitSize <= |body|
      && b.hit == ReadHit(body, HitOffset(i))
      && Trailer(body, cursor, b.hit.ndom) == Some((b.bitscores, b.algs, next))
      && Consistent(b)
      && next == cursor + TrailerSize(b)
  {
    var (b, next) := ParseBlock(body, i, cursor).value;
    TrailerShape(body, cursor, b.hit.ndom);
    if b.hit.ndom > 0 {
      AlignmentsShape(body, cursor + DomainSize * b.hit.ndom, b.hit.ndom);
    }
  }

  /** Cursor layout of a whole reply: block i's hit record is at
      120 + 152 * i, and its trailer starts exactly where the trailer of
      block i - 1 ended (hits without domains taking no trailer bytes). */
  /** A non-empty parse starts with the block at `i`. */
  lemma ParseBlocksCons(body: seq<Byte>, i: nat, n: nat, cursor: nat)
    requires ParseBlocks(body, i, n, cursor).0 != []
    ensures i < n && ParseBlock(body, i, cursor).Some?
    ensures var pb := ParseBlock(body, i, cursor).value;
      ParseBlocks(body, i, n, cursor).0 == [pb.0] + ParseBlocks(body, i + 1, n, pb.1).0
  {
  }

  lemma {:induction false} BlocksFrom(body: seq<Byte>, i0: nat, n: nat, bs: seq<Block>, i: nat)
    requires i0 <= i < |bs|
    requires ParseBlocks(body, i0, n, TrailerStart(n, bs, i0)).0 == bs[i0..]
    ensures HitOffset(i) + HitSize <= |body| && bs[i].hit == ReadHit(body, HitOffset(i))
    ensures Trailer(body, TrailerStart(n, bs, i), bs[i].hit.ndom)
            == Some((bs[i].bitscores, bs[i].algs, TrailerStart(n, bs, i + 1)))
    decreases i - i0
  {
    var cursor := TrailerStart(n, bs, i0);
    assert ParseBlocks(body, i0, n, cursor).0 != [];
    ParseBlocksCons(body, i0, n, cursor);
    var pb := ParseBlock(body, i0, cursor).value;
    ParseBlockFacts(body, i0, cursor);
    var rest := ParseBlocks(body, i0 + 1, n, pb.1);
    assert pb.0 == bs[i0];
    assert pb.1 == TrailerStart(n, bs, i0 + 1);
    if i > i0 {
      assert rest.0 == bs[i0 + 1..];
      BlocksFrom(body, i0 + 1, n, bs, i);
    }
  }

  /** Where every record of a reply lies: hit i at 120 + 152 * i, its
      domain j at 72 * j past the start of its trailer, and the trailers
      packed one after another behind the hit records. */
  lemma {:induction false} BlocksLayout(body: seq<Byte>, n: nat, bs: seq<Block>, i: nat)
    requires ParseBlocks(body, 0, n, HitOffset(n)).0 == bs
    requires i < |bs|
    ensures HitOffset(i) + HitSize <= |body| && bs[i].hit == ReadHit(body, HitOffset(i))
    ensures Trailer(body, TrailerStart(n, bs, i), bs[i].hit.ndom)
            == Some((bs[i].bitscores, bs[i].algs, TrailerStart(n, bs, i + 1)))
    ensures forall j :: 0 <= j < bs[i].hit.ndom ==>
      TrailerStart(n, bs, i) + DomainSize * j + DomainSize <= |body|
      && bs[i].bitscores[j] == BitscoreBits(body, TrailerStart(n, bs, i) + DomainSize * j)
  {
    assert bs[0..] == bs;
    BlocksFrom(body, 0, n, bs, i);
    var start, ndom := TrailerStart(n, bs, i), bs[i].hit.ndom;
    assert Trailer(body, start, ndom).value.0 == bs[i].bitscores;
    TrailerDomains(body, start, ndom);
  }

  /** Domain j of a trailer is the 72-byte record at 72 * j past its start. */
  lemma TrailerDomains(body: seq<Byte>, pos: nat, ndom: nat)
    requires Trailer(body, pos, ndom).Some?
    ensures pos + DomainSize * ndom <= |body| || ndom == 0
    ensures forall j :: 0 <= j < ndom ==>
      pos + DomainSize * j + DomainSize <= |body|
      && Trailer(body, pos, ndom).value.0[j] == BitscoreBits(body, pos + DomainSize * j)
  {
    if ndom > 0 {
      var bits := Bitscores(body, pos, ndom);
      assert Trailer(body, pos, ndom).value.0 == bits;
    }
  }

  function NamesOf(hits: seq<HitTuple>): set<nat> {
    set t | t in hits :: t.name
  }

  /** The names of the selected tuples are exactly the models recorded, and
      with `max_hits >= 1` there are never more than `max_hits` of them. */
  lemma {:induction false} SelectCap(ops: FloatOps, z: real, cfg: Config, bs: seq<Block>)
    requires forall k :: 0 <= k < |bs| ==> Consistent(bs[k])
    ensures NamesOf(Select(ops, z, cfg, bs).hits) == Select(ops, z, cfg, bs).models
    ensures cfg.maxHits.Some? && cfg.maxHits.value >= 1 ==> |Select(ops, z, cfg, bs).models| <= cfg.maxHits.value
    ensures cfg.maxHits.Some? && cfg.maxHits.value >= 1 && !Select(ops, z, cfg, bs).stopped
            ==> |Select(ops, z, cfg, bs).models| < cfg.maxHits.value
    decreases |bs|
  {
    if bs != [] {
      var init := bs[..|bs| - 1];
      SelectCap(ops, z, cfg, init);
      var s := Select(ops, z, cfg, init);
      if !s.stopped {
        var b := bs[|bs| - 1];
        var c := Contribution(ops, z, cfg, b);
        if Accepted(ops, z, cfg, b.hit) {
          assert c[0] in c;
          assert NamesOf(c) == {b.hit.name};
          assert |s.models + {b.hit.name}| <= |s.models| + 1;
        } else {
          assert NamesOf(c) == {};
        }
        assert NamesOf(s.hits + c) == NamesOf(s.hits) + NamesOf(c);
      }
    }
  }

  /** The distinct-target cap of the whole decoder. */
  lemma DistinctTargetCap(ops: FloatOps, cfg: Config, request: string, header: seq<Byte>, body: seq<Byte>)
    requires cfg.maxHits.Some? && cfg.maxHits.value >= 1
    requires ScanResponse(ops, cfg, request, header, body).Success?
    ensures |NamesOf(ScanResponse(ops, cfg, request, header, body).value.1)| <= cfg.maxHits.value
  {
    var stats := ReadStats(body, 0);
    var n := HitCount(stats);
    ParseBlocksConsistent(body, 0, n, HitOffset(n));
    SelectCap(ops, EffectiveZ(ops, stats, cfg.fixedZ), cfg, ParseBlocks(body, 0, n, HitOffset(n)).0);
  }

  /** With no score threshold nothing passes the filter. */
  lemma {:induction false} NoScoreThresholdSelectsNothing(ops: FloatOps, z: real, cfg: Config, bs: seq<Block>)
    requires forall k :: 0 <= k < |bs| ==> Consistent(bs[k])
    requires cfg.scoreThr.None?
    ensures Select(ops, z, cfg, bs).hits == [] && Select(ops, z, cfg, bs).models == {}
    decreases |bs|
  {
    if bs != [] {
      NoScoreThresholdSelectsNothing(ops, z, cfg, bs[..|bs| - 1]);
    }
  }

  function ContributionsOf(ops: FloatOps, z: real, cfg: Config, bs: seq<Block>): seq<HitTuple>
    requires forall k :: 0 <= k < |bs| ==> Consistent(bs[k])
    decreases |bs|
  {
    if bs == [] then [] else ContributionsOf(ops, z, cfg, bs[..|bs| - 1]) + Contribution(ops, z, cfg, bs[|bs| - 1])
  }

  /** Record order: the output is the contributions of the blocks, in block
      order, up to the block at which the cap stopped the scan. */
  lemma {:induction false} SelectInRecordOrder(ops: FloatOps, z: real, cfg: Config, bs: seq<Block>)
    requires forall k :: 0 <= k < |bs| ==> Consistent(bs[k])
    ensures exists m :: 0 <= m <= |bs| && Select(ops, z, cfg, bs).hits == ContributionsOf(ops, z, cfg, bs[..m])
                        && (m < |bs| ==> Select(ops, z, cfg, bs).stopped)
  {
    SelectPrefix(ops, z, cfg, bs);
  }

  /** How many blocks the selection looks at: all of them, or those up to
      the one that reached the cap. */
  function Consumed(ops: FloatOps, z: real, cfg: Config, bs: seq<Block>): (m: nat)
    requires forall k :: 0 <= k < |bs| ==> Consistent(bs[k])
    ensures m <= |bs|
    decreases |bs|
  {
    if bs == [] then 0
    else if Select(ops, z, cfg, bs[..|bs| - 1]).stopped then Consumed(ops, z, cfg, bs[..|bs| - 1])
    else |bs|
  }

  lemma {:induction false} SelectPrefix(ops: FloatOps, z: real, cfg: Config, bs: seq<Block>)
    requires forall k :: 0 <= k < |bs| ==> Consistent(bs[k])
    ensures var m := Consumed(ops, z, cfg, bs);
      Select(ops, z, cfg, bs).hits == ContributionsOf(ops, z, cfg, bs[..m])
      && (m < |bs| ==> Select(ops, z, cfg, bs).stopped)
    decreases |bs|
  {
    if bs == [] {
      assert bs[..0] == [];
    } else {
      var init := bs[..|bs| - 1];
      SelectPrefix(ops, z, cfg, init);
      if Select(ops, z, cfg, init).stopped {
        var m := Consumed(ops, z, cfg, init);
        assert init[..m] == bs[..m];
      } else {
        assert init[..|init|] == init;
        SelectOpenSnoc(ops, z, cfg, bs);
        assert bs[..|bs|] == bs;
      }
    }
  }

  /** While the cap is not reached, the selection is every block's contribution. */
  lemma SelectOpenSnoc(ops: FloatOps, z: real, cfg: Config, bs: seq<Block>)
    requires bs != [] && forall k :: 0 <= k < |bs| ==> Consistent(bs[k])
    requires !Select(ops, z, cfg, bs[..|bs| - 1]).stopped
    requires Select(ops, z, cfg, bs[..|bs| - 1]).hits == ContributionsOf(ops, z, cfg, bs[..|bs| - 1])
    ensures Select(ops, z, cfg, bs).hits == ContributionsOf(ops, z, cfg, bs)
  {
  }

  /** A non-zero status fails the call whatever the body holds. */
  lemma StatusErrorIgnoresBody(ops: FloatOps, cfg: Config, request: string, header: seq<Byte>, body1: seq<Byte>, body2: seq<Byte>)
    requires |header| == 16 && U32At(header, 0) != 0
    ensures ScanResponse(ops, cfg, request, header, body1) == ScanResponse(ops, cfg, request, header, body2)
    ensures ScanResponse(ops, cfg, request, header, body1).Failure?
    ensures ScanResponse(ops, cfg, request, header, body1).error.requestPrefix == request[..Min(50, |request|)]
    ensures |request| <= 50 ==> ScanResponse(ops, cfg, request, header, body1).error.requestPrefix == request
  {
  }

  /** The hit counts `xrange` accepts: 120 + 152 * n stays within a
      signed 64-bit long exactly for these. */
  const MinHitCount: int := -60680079189834052
  const MaxHitCount: int := 60680079189834050

  lemma RangeOverflowsBounds(s: StatsFields)
    ensures RangeOverflows(s) <==> s.nhits < MinHitCount || s.nhits > MaxHitCount
  {
  }

  /** `xrange` refuses a hit count outside those bounds, whatever follows
      the statistics record; a count within them never trips it. */
  lemma HugeCountOverflows(ops: FloatOps, cfg: Config, body: seq<Byte>)
    requires StatsSize <= |body|
    ensures var n := ReadStats(body, 0).nhits;
      n < MinHitCount || n > MaxHitCount ==> DecodeBody(ops, cfg, body) == Failure(RangeOverflow)
    ensures var n := ReadStats(body, 0).nhits;
      MinHitCount <= n <= MaxHitCount ==> DecodeBody(ops, cfg, body) != Failure(RangeOverflow)
  {
    RangeOverflowsBounds(ReadStats(body, 0));
  }

  /** With no cap (`max_hits` None, 0 or negative) the scan never stops
      early: the output is every block's contribution, in block order. */
  lemma {:induction false} NoCapSelectsAll(ops: FloatOps, z: real, cfg: Config, bs: seq<Block>)
    requires forall k :: 0 <= k < |bs| ==> Consistent(bs[k])
    requires cfg.maxHits.None? || cfg.maxHits.value <= 0
    ensures !Select(ops, z, cfg, bs).stopped
    ensures Select(ops, z, cfg, bs).hits == ContributionsOf(ops, z, cfg, bs)
    decreases |bs|
  {
    if bs != [] {
      NoCapSelectsAll(ops, z, cfg, bs[..|bs| - 1]);
    }
  }
}
