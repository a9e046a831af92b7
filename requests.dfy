/** The query side of the daemon backend and the backend selection:
    cleaning a sequence and framing it as a daemon request, the per-record
    decisions of `iter_seq_hits` (skip list, length cut, empty sequences),
    and the `iter_hits` dispatch on query type, database type and scan
    mode. The daemon itself is a parameter: the reply header and body it
    sends back for a request. */
module Requests {
  import opened Wrappers
  import opened Bytes
  import opened Records
  import opened DaemonScan
  import opened PyValues
  import DomTable

  // ---- re.sub("-.", "", seq) ----

  /** Scanning left to right, a `-` followed by any character other than a
      newline is deleted together with that character (`.` does not match
      a newline); everything else is kept. */
  function Clean(s: string): (r: string)
    ensures |r| <= |s|
    decreases |s|
  {
    if s == [] then []
    else if s[0] == '-' && |s| >= 2 && s[1] != '\n' then Clean(s[2..])
    else [s[0]] + Clean(s[1..])
  }

  /** No `-` is followed by anything but a newline. */
  predicate NoDashPair(t: string) {
    forall i :: 0 <= i < |t| - 1 && t[i] == '-' ==> t[i + 1] == '\n'
  }

  /** After cleaning, every remaining `-` ends the string or precedes a newline. */
  lemma {:induction false} CleanLeavesNoPair(s: string)
    ensures NoDashPair(Clean(s))
    decreases |s|
  {
    if s != [] {
      if s[0] == '-' && |s| >= 2 && s[1] != '\n' {
        CleanLeavesNoPair(s[2..]);
      } else {
        var rest := Clean(s[1..]);
        CleanLeavesNoPair(s[1..]);
        var r := [s[0]] + rest;
        if s[0] == '-' && |s| >= 2 {
          assert s[1] == '\n';
          assert rest == [s[1]] + Clean(s[2..]);
        }
        forall i | 0 <= i < |r| - 1 && r[i] == '-' ensures r[i + 1] == '\n' {
          if i > 0 {
            assert r[i] == rest[i - 1] && r[i + 1] == rest[i];
          }
        }
      }
    }
  }

  /** A string without such a pair is left as it is. */
  lemma {:induction false} CleanKeepsClean(s: string)
    requires NoDashPair(s)
    ensures Clean(s) == s
    decreases |s|
  {
    if s != [] {
      assert NoDashPair(s[1..]) by {
        forall i | 0 <= i < |s[1..]| - 1 && s[1..][i] == '-' ensures s[1..][i + 1] == '\n' {
          assert s[i + 1] == '-';
        }
      }
      CleanKeepsClean(s[1..]);
      assert s == [s[0]] + s[1..];
    }
  }

  /** Cleaning twice is cleaning once. */
  lemma CleanIdempotent(s: string)
    ensures Clean(Clean(s)) == Clean(s)
  {
    CleanLeavesNoPair(s);
    CleanKeepsClean(Clean(s));
  }

  /** Characters are deleted in pairs. */
  lemma {:induction false} CleanRemovesPairs(s: string)
    ensures (|s| - |Clean(s)|) % 2 == 0
    decreases |s|
  {
    if s != [] {
      if s[0] == '-' && |s| >= 2 && s[1] != '\n' {
        CleanRemovesPairs(s[2..]);
      } else {
        CleanRemovesPairs(s[1..]);
      }
    }
  }

  // ---- request framing ----

  /** `'@--%s 1\n>%s\n%s\n//' % (dbtype, name, seq)`: database type and one
      thread, the FASTA record, the end marker. */
  function Request(dbtype: string, name: string, sequence: string): string {
    "@--" + dbtype + " 1\n>" + name + "\n" + sequence + "\n//"
  }

  predicate NoNewline(s: string) {
    forall i :: 0 <= i < |s| ==> s[i] != '\n'
  }

  /** `s.split('\n')`. */
  function SplitLines(s: string): (r: seq<string>)
    ensures |r| >= 1
    decreases |s|
  {
    if s == [] then [""]
    else
      var rest := SplitLines(s[1..]);
      if s[0] == '\n' then [""] + rest else [[s[0]] + rest[0]] + rest[1..]
  }

  lemma {:induction false} SplitLinesAppend(a: string, b: string)
    requires NoNewline(a)
    ensures SplitLines(a + "\n" + b) == [a] + SplitLines(b)
    decreases |a|
  {
    if a == [] {
      assert a + "\n" + b == ['\n'] + b;
      assert (['\n'] + b)[1..] == b;
    } else {
      assert (a + "\n" + b)[1..] == a[1..] + "\n" + b;
      SplitLinesAppend(a[1..], b);
      assert [a[0]] + a[1..] == a;
    }
  }

  lemma {:induction false} SplitLinesSingle(a: string)
    requires NoNewline(a)
    ensures SplitLines(a) == [a]
    decreases |a|
  {
    if a != [] {
      SplitLinesSingle(a[1..]);
      assert [a[0]] + a[1..] == a;
    }
  }

  /** What the daemon reads back from a request: the database type, the
      sequence name and the sequence, or nothing for a malformed request. */
  function ParseRequest(req: string): Option<(string, string, string)> {
    var ls := SplitLines(req);
    if |ls| == 4 && |ls[0]| >= 5 && ls[0][..3] == "@--" && ls[0][|ls[0]| - 2..] == " 1"
       && |ls[1]| >= 1 && ls[1][0] == '>' && ls[3] == "//"
    then Some((ls[0][3..|ls[0]| - 2], ls[1][1..], ls[2]))
    else None
  }

  /** The framing can be undone: a request made of a database type, a name
      and a sequence without newlines reads back as exactly those three. */
  lemma RequestRoundTrip(dbtype: string, name: string, sequence: string)
    requires NoNewline(dbtype) && NoNewline(name) && NoNewline(sequence)
    ensures ParseRequest(Request(dbtype, name, sequence)) == Some((dbtype, name, sequence))
  {
    var l0, l1 := "@--" + dbtype + " 1", ">" + name;
    assert NoNewline(l0) && NoNewline(l1);
    assert Request(dbtype, name, sequence) == l0 + "\n" + (l1 + "\n" + (sequence + "\n" + "//"));
    SplitLinesAppend(l0, l1 + "\n" + (sequence + "\n" + "//"));
    SplitLinesAppend(l1, sequence + "\n" + "//");
    SplitLinesAppend(sequence, "//");
    SplitLinesSingle("//");
    assert l0[3..|l0| - 2] == dbtype;
    assert l1[1..] == name;
  }

  // ---- iter_seq_hits ----

  /** One yielded tuple `(name, elapsed, hits, length, None)`. */
  datatype QueryResult = QueryResult(name: string, elapsed: real, hits: seq<HitTuple>, qlen: int)

  /** `dbtype`, the daemon options, `skip` and `maxseqlen`. */
  datatype SeqOptions = SeqOptions(dbtype: string, cfg: Config, skip: set<string>, maxSeqLen: Option<int>)

  /** The daemon as the client sees it: for each request, the 16-byte
      status header and the body it sends back. */
  type Daemon = string -> (seq<Byte>, seq<Byte>)

  /** `maxseqlen and len(seq) > maxseqlen`, judged on the raw sequence. */
  predicate TooLong(opts: SeqOptions, sequence: string) {
    opts.maxSeqLen.Some? && opts.maxSeqLen.value != 0 && |sequence| > opts.maxSeqLen.value
  }

  /** What one FASTA record yields: nothing (skipped or empty), a result,
      or the exception of `scan_hits`. A sequence over the length limit
      yields `(name, -1, [], len(seq), None)` without a request; a scanned
      one reports the length of its cleaned sequence. */
  function SeqOutcome(ops: FloatOps, opts: SeqOptions, daemon: Daemon, name: string, sequence: string)
    : (r: Option<Result<QueryResult, ScanError>>)
    ensures r.None? <==> name in opts.skip || (!TooLong(opts, sequence) && sequence == [])
    ensures name !in opts.skip && TooLong(opts, sequence) ==> r == Some(Success(QueryResult(name, -1.0, [], |sequence|)))
    ensures r.Some? && r.value.Success? ==> r.value.value.name == name
    ensures r.Some? && !TooLong(opts, sequence) && r.value.Success? ==> r.value.value.qlen == |Clean(sequence)|
    ensures name !in opts.skip && !TooLong(opts, sequence) && sequence != [] ==>
      var request := Request(opts.dbtype, name, Clean(sequence));
      var reply := ScanResponse(ops, opts.cfg, request, daemon(request).0, daemon(request).1);
      && r.Some? && (r.value.Failure? <==> reply.Failure?)
      && (reply.Failure? ==> r.value.error == reply.error)
      && (reply.Success? ==> r.value.value == QueryResult(name, reply.value.0, reply.value.1, |Clean(sequence)|))
  {
    if name in opts.skip then None
    else if TooLong(opts, sequence) then Some(Success(QueryResult(name, -1.0, [], |sequence|)))
    else if sequence == [] then None
    else
      var cleaned := Clean(sequence);
      var request := Request(opts.dbtype, name, cleaned);
      var (header, body) := daemon(request);
      match ScanResponse(ops, opts.cfg, request, header, body)
      case Failure(e) => Some(Failure(e))
      case Success((etime, hits)) => Some(Success(QueryResult(name, etime, hits, |cleaned|)))
  }

  /** The generator over the FASTA records, up to the first exception.
      The k-th result is the outcome of the k-th yielding record; without
      an exception every yielding record has its result, and after one the
      results are exactly those of the yielding records before the one
      that raised it. */
  function IterSeqHits(ops: FloatOps, opts: SeqOptions, daemon: Daemon, records: seq<(string, string)>)
    : (r: (seq<QueryResult>, Option<ScanError>))
    ensures |r.0| <= |YieldingRecords(opts, records)| <= |records|
    ensures r.1.None? ==> |r.0| == |YieldingRecords(opts, records)|
    ensures r.1.Some? ==> var ys := YieldingRecords(opts, records);
      |r.0| < |ys| && SeqOutcome(ops, opts, daemon, ys[|r.0|].0, ys[|r.0|].1) == Some(Failure(r.1.value))
    ensures var ys := YieldingRecords(opts, records);
      forall k :: 0 <= k < |r.0| ==> SeqOutcome(ops, opts, daemon, ys[k].0, ys[k].1) == Some(Success(r.0[k]))
    decreases |records|
  {
    if records == [] then ([], None)
    else
      var init, rec := records[..|records| - 1], records[|records| - 1];
      var prev := IterSeqHits(ops, opts, daemon, init);
      var yi, ys := YieldingRecords(opts, init), YieldingRecords(opts, records);
      assert SeqOutcome(ops, opts, daemon, rec.0, rec.1).None? <==> !Yields(opts, rec);
      assert ys == yi + (if Yields(opts, rec) then [rec] else []);
      assert forall k :: 0 <= k < |yi| ==> ys[k] == yi[k];
      if prev.1.Some? then prev
      else
        match SeqOutcome(ops, opts, daemon, rec.0, rec.1)
        case None => prev
        case Some(Failure(e)) => (prev.0, Some(e))
        case Some(Success(q)) => (prev.0 + [q], None)
  }

  /** A record over the length limit never reaches the daemon: what it
      yields does not depend on the daemon's replies. */
  lemma TooLongSendsNothing(ops: FloatOps, opts: SeqOptions, d1: Daemon, d2: Daemon, name: string, sequence: string)
    requires TooLong(opts, sequence)
    ensures SeqOutcome(ops, opts, d1, name, sequence) == SeqOutcome(ops, opts, d2, name, sequence)
  {
  }

  predicate Yields(opts: SeqOptions, rec: (string, string)) {
    rec.0 !in opts.skip && (TooLong(opts, rec.1) || rec.1 != [])
  }

  /** The names of the records that yield a result, in order. */
  function YieldingNames(opts: SeqOptions, records: seq<(string, string)>): seq<string>
    decreases |records|
  {
    if records == [] then []
    else
      YieldingNames(opts, records[..|records| - 1])
      + (if Yields(opts, records[|records| - 1]) then [records[|records| - 1].0] else [])
  }

  /** The records that yield something (a result or an exception), in order. */
  function YieldingRecords(opts: SeqOptions, records: seq<(string, string)>): (r: seq<(string, string)>)
    ensures |r| <= |records|
    decreases |records|
  {
    if records == [] then []
    else
      YieldingRecords(opts, records[..|records| - 1])
      + (if Yields(opts, records[|records| - 1]) then [records[|records| - 1]] else [])
  }

  function ResultNames(qs: seq<QueryResult>): (r: seq<string>)
    ensures |r| == |qs| && forall k :: 0 <= k < |qs| ==> r[k] == qs[k].name
  {
    seq(|qs|, k requires 0 <= k < |qs| => qs[k].name)
  }

  /** Without an exception there is one result per record that is neither
      skipped nor empty (or is over the length limit), in record order. */
  lemma {:induction false} ResultsFollowRecords(ops: FloatOps, opts: SeqOptions, daemon: Daemon, records: seq<(string, string)>)
    requires IterSeqHits(ops, opts, daemon, records).1.None?
    ensures ResultNames(IterSeqHits(ops, opts, daemon, records).0) == YieldingNames(opts, records)
    decreases |records|
  {
    if records != [] {
      var init := records[..|records| - 1];
      var prev := IterSeqHits(ops, opts, daemon, init);
      assert prev.1.None?;
      ResultsFollowRecords(ops, opts, daemon, init);
      var (name, sequence) := records[|records| - 1];
      match SeqOutcome(ops, opts, daemon, name, sequence)
      case None =>
        assert YieldingNames(opts, records) == YieldingNames(opts, init) + [];
      case Some(Success(q)) =>
        assert ResultNames(prev.0 + [q]) == ResultNames(prev.0) + [name];
    }
  }

  /** The hits of a successful reply are what the selection picked from
      its blocks. */
  lemma ScanResponseHits(ops: FloatOps, cfg: Config, request: string, header: seq<Byte>, body: seq<Byte>)
    requires ScanResponse(ops, cfg, request, header, body).Success?
    ensures StatsSize <= |body|
    ensures var stats := ReadStats(body, 0);
      var n := HitCount(stats);
      var bs := ParseBlocks(body, 0, n, HitOffset(n)).0;
      (forall k :: 0 <= k < |bs| ==> Consistent(bs[k]))
      && ScanResponse(ops, cfg, request, header, body).value.1 == Select(ops, EffectiveZ(ops, stats, cfg.fixedZ), cfg, bs).hits
  {
    var stats := ReadStats(body, 0);
    var n := HitCount(stats);
    ParseBlocksConsistent(body, 0, n, HitOffset(n));
  }

  /** With no score threshold every query comes back without hits. */
  lemma {:induction false} SeqNoScoreThreshold(ops: FloatOps, opts: SeqOptions, daemon: Daemon, records: seq<(string, string)>)
    requires opts.cfg.scoreThr.None?
    ensures forall q :: q in IterSeqHits(ops, opts, daemon, records).0 ==> q.hits == []
    decreases |records|
  {
    if records != [] {
      var init := records[..|records| - 1];
      SeqNoScoreThreshold(ops, opts, daemon, init);
      var (name, sequence) := records[|records| - 1];
      if name !in opts.skip && !TooLong(opts, sequence) && sequence != [] {
        var request := Request(opts.dbtype, name, Clean(sequence));
        var (header, body) := daemon(request);
        if ScanResponse(ops, opts.cfg, request, header, body).Success? {
          ScanResponseHits(ops, opts.cfg, request, header, body);
          var stats := ReadStats(body, 0);
          var n := HitCount(stats);
          NoScoreThresholdSelectsNothing(ops, EffectiveZ(ops, stats, opts.cfg.fixedZ), opts.cfg,
                                         ParseBlocks(body, 0, n, HitOffset(n)).0);
        }
      }
    }
  }

  /** With `max_hits >= 1` every query's hits name at most `max_hits`
      distinct targets. */
  lemma {:induction false} SeqDistinctCap(ops: FloatOps, opts: SeqOptions, daemon: Daemon, records: seq<(string, string)>)
    requires opts.cfg.maxHits.Some? && opts.cfg.maxHits.value >= 1
    ensures forall q :: q in IterSeqHits(ops, opts, daemon, records).0 ==> |NamesOf(q.hits)| <= opts.cfg.maxHits.value
    decreases |records|
  {
    if records != [] {
      var init := records[..|records| - 1];
      SeqDistinctCap(ops, opts, daemon, init);
      var (name, sequence) := records[|records| - 1];
      if name !in opts.skip && !TooLong(opts, sequence) && sequence != [] {
        var request := Request(opts.dbtype, name, Clean(sequence));
        var (header, body) := daemon(request);
        if ScanResponse(ops, opts.cfg, request, header, body).Success? {
          DistinctTargetCap(ops, opts.cfg, request, header, body);
        }
      } else if name !in opts.skip && TooLong(opts, sequence) {
        assert NamesOf([]) == {};
      }
    }
  }

  // ---- get_hits ----

  /** `get_hits`: one sequence, cleaned and framed as for `iter_seq_hits`,
      scanned with an e-value threshold and `max_hits` only; no score
      threshold is passed on, so the filter's quirk applies. */
  function GetHits(ops: FloatOps, daemon: Daemon, name: string, sequence: string, dbtype: string,
                   evalueThr: Option<real>, maxHits: Option<int>)
    : Result<(string, real, seq<HitTuple>), ScanError>
  {
    var request := Request(dbtype, name, Clean(sequence));
    var (header, body) := daemon(request);
    match ScanResponse(ops, Config(evalueThr, None, maxHits, None), request, header, body)
    case Failure(e) => Failure(e)
    case Success((etime, hits)) => Success((name, etime, hits))
  }

  /** `get_hits` never returns a hit, whatever the daemon replies. */
  lemma GetHitsFindsNothing(ops: FloatOps, daemon: Daemon, name: string, sequence: string, dbtype: string,
                            evalueThr: Option<real>, maxHits: Option<int>)
    ensures var r := GetHits(ops, daemon, name, sequence, dbtype, evalueThr, maxHits);
      r.Success? ==> r.value.0 == name && r.value.2 == []
  {
    var cfg := Config(evalueThr, None, maxHits, None);
    var request := Request(dbtype, name, Clean(sequence));
    var (header, body) := daemon(request);
    if ScanResponse(ops, cfg, request, header, body).Success? {
      ScanResponseHits(ops, cfg, request, header, body);
      var stats := ReadStats(body, 0);
      var n := HitCount(stats);
      NoScoreThresholdSelectsNothing(ops, EffectiveZ(ops, stats, None), cfg, ParseBlocks(body, 0, n, HitOffset(n)).0);
    }
  }

  // ---- iter_hits ----

  /** The generator `iter_hits` hands back: the daemon scan of each
      sequence, or one batch run over the whole query file. */
  datatype Backend =
    | SeqDaemon(host: string, port: int, opts: SeqOptions)
    | DiskBackend(dbPath: string, th: DomTable.Thresholds)

  /** The profile-query mode names a variable that does not exist
      (NameError); any other combination is rejected as not supported. */
  datatype DispatchError = UndefinedSource | NotSupported

  /** The mode decision. `max_hits` goes through `int()` first (None when
      that raises). Only the thresholds and `max_hits` are passed on: the
      daemon scan runs with no skip list, no length limit and no fixed Z,
      and the batch run uses `host` as the database path. */
  function IterHits(queryType: string, dbtype: string, scantype: string, host: string, port: int,
                    evalueThr: Option<real>, scoreThr: Option<real>, maxHits: PyArg)
    : (r: Result<Backend, DispatchError>)
    ensures (r.Success? && r.value.SeqDaemon?) <==> scantype == "mem" && queryType == "seq"
    ensures r == Failure(UndefinedSource) <==> scantype == "mem" && queryType == "hmm" && dbtype == "seqdb"
    ensures (r.Success? && r.value.DiskBackend?) <==> scantype == "disk" && queryType == "seq"
    ensures r == Failure(NotSupported) <==>
      !(scantype == "mem" && queryType == "seq") && !(scantype == "mem" && queryType == "hmm" && dbtype == "seqdb")
      && !(scantype == "disk" && queryType == "seq")
    ensures r.Success? && r.value.SeqDaemon? ==>
      r.value.opts == SeqOptions(dbtype, Config(evalueThr, scoreThr, CoerceInt(maxHits), None), {}, None)
    ensures r.Success? && r.value.DiskBackend? ==>
      r.value.dbPath == host && r.value.th == DomTable.Thresholds(evalueThr, scoreThr, CoerceInt(maxHits))
  {
    var max := CoerceInt(maxHits);
    if scantype == "mem" && queryType == "seq" then
      Success(SeqDaemon(host, port, SeqOptions(dbtype, Config(evalueThr, scoreThr, max, None), {}, None)))
    else if scantype == "mem" && queryType == "hmm" && dbtype == "seqdb" then
      Failure(UndefinedSource)
    else if scantype == "disk" && queryType == "seq" then
      Success(DiskBackend(host, DomTable.Thresholds(evalueThr, scoreThr, max)))
    else Failure(NotSupported)
  }

  /** Through `iter_hits` the daemon path skips nothing and cuts nothing:
      without an exception it yields one result per non-empty sequence,
      in order. */
  lemma DispatchedDaemonYieldsEveryRecord(ops: FloatOps, dbtype: string, host: string, port: int,
                                          evalueThr: Option<real>, scoreThr: Option<real>, maxHits: PyArg,
                                          daemon: Daemon, records: seq<(string, string)>)
    requires IterHits("seq", dbtype, "mem", host, port, evalueThr, scoreThr, maxHits).Success?
    requires var opts := IterHits("seq", dbtype, "mem", host, port, evalueThr, scoreThr, maxHits).value.opts;
      IterSeqHits(ops, opts, daemon, records).1.None?
    ensures var opts := IterHits("seq", dbtype, "mem", host, port, evalueThr, scoreThr, maxHits).value.opts;
      ResultNames(IterSeqHits(ops, opts, daemon, records).0) == NonEmptyNames(records)
  {
    var opts := IterHits("seq", dbtype, "mem", host, port, evalueThr, scoreThr, maxHits).value.opts;
    ResultsFollowRecords(ops, opts, daemon, records);
    YieldingNonEmpty(opts, records);
  }

  function NonEmptyNames(records: seq<(string, string)>): seq<string>
    decreases |records|
  {
    if records == [] then []
    else
      NonEmptyNames(records[..|records| - 1])
      + (if records[|records| - 1].1 != [] then [records[|records| - 1].0] else [])
  }

  lemma {:induction false} YieldingNonEmpty(opts: SeqOptions, records: seq<(string, string)>)
    requires opts.skip == {} && opts.maxSeqLen.None?
    ensures YieldingNames(opts, records) == NonEmptyNames(records)
    decreases |records|
  {
    if records != [] {
      YieldingNonEmpty(opts, records[..|records| - 1]);
    }
  }

  /** The score-threshold quirk on both backends: when `iter_hits` is
      given no score threshold, every result of either backend is empty. */
  lemma NoScoreThresholdEitherBackend(ops: FloatOps, queryType: string, dbtype: string, scantype: string,
                                      host: string, port: int, evalueThr: Option<real>, maxHits: PyArg,
                                      daemon: Daemon, records: seq<(string, string)>,
                                      parseFloat: string -> Option<real>, status: int, lines: seq<string>)
    requires IterHits(queryType, dbtype, scantype, host, port, evalueThr, None, maxHits).Success?
    ensures var b := IterHits(queryType, dbtype, scantype, host, port, evalueThr, None, maxHits).value;
      && (b.SeqDaemon? ==> forall q :: q in IterSeqHits(ops, b.opts, daemon, records).0 ==> q.hits == [])
      && (b.DiskBackend? ==> forall g :: g in DomTable.DiskScan(parseFloat, b.th, status, lines).0 ==> g.hits == [])
  {
    var b := IterHits(queryType, dbtype, scantype, host, port, evalueThr, None, maxHits).value;
    if b.SeqDaemon? {
      SeqNoScoreThreshold(ops, b.opts, daemon, records);
    } else {
      DomTable.NoScoreThresholdNoHits(parseFloat, b.th, status, lines);
    }
  }
}
