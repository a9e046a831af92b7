/** The per-target tables of the batch search tools: `hmmsearch`, which
    indexes the rows of a report by their query column, and
    `get_best_hit`/`refine_hit`, which keep only the first row of a
    report. The external tool runs are inputs here: its exit status and
    the lines of its report. */
module TblOut {
  import opened Wrappers
  import opened Text

  // ---- hmmsearch ----

  /** `[query, evalue, score]`. */
  datatype Entry = Entry(query: string, evalue: real, score: real)

  /** Fewer than ten fields fail the unpacking of `fields[0:10]`; a numeric
      column that `float()` rejects fails the conversion. Both are
      ValueErrors in the source. */
  datatype SearchError = TooFewFields | NotANumber

  /** The six numeric columns 4..9 after `float()`, or nothing when one of
      them is not a number. */
  function Floats(parseFloat: string -> Option<real>, fields: seq<string>): (r: Option<seq<real>>)
    requires |fields| >= 10
    ensures r.Some? <==> forall k :: 4 <= k < 10 ==> parseFloat(fields[k]).Some?
    ensures r.Some? ==> |r.value| == 6 && forall k :: 4 <= k < 10 ==> r.value[k - 4] == parseFloat(fields[k]).value
  {
    if forall k :: 4 <= k < 10 ==> parseFloat(fields[k]).Some? then
      Some(seq(6, j requires 0 <= j < 6 => parseFloat(fields[j + 4]).value))
    else None
  }

  /** A data row of the report: its query column (`fields[2]`) and the
      entry made of it, the full-sequence e-value and the score. */
  function ParseTblRow(parseFloat: string -> Option<real>, line: string): (r: Result<(string, Entry), SearchError>)
    ensures r.Success? ==> |Split(line)| >= 10 && r.value.0 == Split(line)[2] && r.value.1.query == r.value.0
    ensures r.Success? ==> parseFloat(Split(line)[4]) == Some(r.value.1.evalue)
                           && parseFloat(Split(line)[5]) == Some(r.value.1.score)
    ensures r == Failure(TooFewFields) <==> |Split(line)| < 10
    ensures r.Success? <==> |Split(line)| >= 10 && forall k :: 4 <= k < 10 ==> parseFloat(Split(line)[k]).Some?
    ensures r == Failure(NotANumber) <==>
      |Split(line)| >= 10 && exists k :: 4 <= k < 10 && parseFloat(Split(line)[k]).None?
  {
    var fields := Split(line);
    if |fields| < 10 then Failure(TooFewFields)
    else match Floats(parseFloat, fields)
      case None => Failure(NotANumber)
      case Some(xs) => Success((fields[2], Entry(fields[2], xs[0], xs[1])))
  }

  /** `byquery[query].append([query, evalue, score])` of a defaultdict. */
  function Append(m: map<string, seq<Entry>>, q: string, e: Entry): (r: map<string, seq<Entry>>)
    ensures r.Keys == m.Keys + {q}
    ensures r[q] == (if q in m then m[q] else []) + [e]
    ensures forall k :: k in m && k != q ==> r[k] == m[k]
  {
    if q in m then m[q := m[q] + [e]] else m[q := [e]]
  }

  /** The table built from the lines, stopping at the first exception. */
  function ByQuery(parseFloat: string -> Option<real>, lines: seq<string>): Result<map<string, seq<Entry>>, SearchError>
    decreases |lines|
  {
    if lines == [] then Success(map[])
    else
      match ByQuery(parseFloat, lines[..|lines| - 1])
      case Failure(e) => Failure(e)
      case Success(m) =>
        var line := lines[|lines| - 1];
        if IsComment(line) then Success(m)
        else match ParseTblRow(parseFloat, line)
          case Failure(e) => Failure(e)
          case Success((q, e)) => Success(Append(m, q, e))
  }

  /** A failed tool run gives the empty table, silently. */
  function HmmSearchSpec(parseFloat: string -> Option<real>, status: int, lines: seq<string>)
    : Result<map<string, seq<Entry>>, SearchError>
  {
    if status != 0 then Success(map[]) else ByQuery(parseFloat, lines)
  }

  method HmmSearch(parseFloat: string -> Option<real>, status: int, lines: seq<string>)
    returns (r: Result<map<string, seq<Entry>>, SearchError>)
    ensures r == HmmSearchSpec(parseFloat, status, lines)
  {
    var byquery: map<string, seq<Entry>> := map[];
    if status != 0 {
      return Success(byquery);
    }
    var i := 0;
    while i < |lines|
      invariant 0 <= i <= |lines|
      invariant ByQuery(parseFloat, lines[..i]) == Success(byquery)
    {
      var line := lines[i];
      assert lines[..i + 1][..i] == lines[..i];
      i := i + 1;
      if IsComment(line) {
        continue;
      }
      var fields := Split(line);
      if |fields| < 10 {
        ByQueryStopped(parseFloat, lines, i);
        return Failure(TooFewFields);
      }
      var xs := Floats(parseFloat, fields);
      if xs.None? {
        ByQueryStopped(parseFloat, lines, i);
        return Failure(NotANumber);
      }
      var query := fields[2];
      var entry := Entry(query, xs.value[0], xs.value[1]);
      if query in byquery {
        byquery := byquery[query := byquery[query] + [entry]];
      } else {
        byquery := byquery[query := [entry]];
      }
    }
    assert lines[..i] == lines;
    return Success(byquery);
  }

  /** An exception ends the loop: later lines change nothing. */
  lemma {:induction false} ByQueryStopped(parseFloat: string -> Option<real>, lines: seq<string>, i: nat)
    requires i <= |lines| && ByQuery(parseFloat, lines[..i]).Failure?
    ensures ByQuery(parseFloat, lines) == ByQuery(parseFloat, lines[..i])
    decreases |lines| - i
  {
    if i < |lines| {
      assert lines[..i + 1][..i] == lines[..i];
      ByQueryStopped(parseFloat, lines, i + 1);
    } else {
      assert lines[..i] == lines;
    }
  }

  /** The entries of the data rows whose query column is `q`, in row order
      (rows that do not parse contribute nothing). */
  function EntriesFor(parseFloat: string -> Option<real>, lines: seq<string>, q: string): seq<Entry>
    decreases |lines|
  {
    if lines == [] then []
    else
      var line := lines[|lines| - 1];
      var r := ParseTblRow(parseFloat, line);
      EntriesFor(parseFloat, lines[..|lines| - 1], q)
      + (if !IsComment(line) && r.Success? && r.value.0 == q then [r.value.1] else [])
  }

  /** The table holds a key exactly for each query that has a row, and
      under it the entries of that query's rows, in row order. */
  lemma {:induction false} ByQueryIsPerQueryFilter(parseFloat: string -> Option<real>, lines: seq<string>)
    requires ByQuery(parseFloat, lines).Success?
    ensures forall q :: q in ByQuery(parseFloat, lines).value <==> EntriesFor(parseFloat, lines, q) != []
    ensures forall q :: q in ByQuery(parseFloat, lines).value ==> ByQuery(parseFloat, lines).value[q] == EntriesFor(parseFloat, lines, q)
    decreases |lines|
  {
    if lines != [] {
      var init, line := lines[..|lines| - 1], lines[|lines| - 1];
      ByQueryIsPerQueryFilter(parseFloat, init);
      var m := ByQuery(parseFloat, init).value;
      if !IsComment(line) {
        var (q0, e) := ParseTblRow(parseFloat, line).value;
        var m' := Append(m, q0, e);
        assert ByQuery(parseFloat, lines).value == m';
        forall q ensures (q in m' <==> EntriesFor(parseFloat, lines, q) != [])
          && (q in m' ==> m'[q] == EntriesFor(parseFloat, lines, q))
        {
          if q == q0 {
            assert EntriesFor(parseFloat, lines, q) == EntriesFor(parseFloat, init, q) + [e];
          } else {
            assert EntriesFor(parseFloat, lines, q) == EntriesFor(parseFloat, init, q) + [];
          }
        }
      } else {
        forall q ensures EntriesFor(parseFloat, lines, q) == EntriesFor(parseFloat, init, q) {
          assert EntriesFor(parseFloat, lines, q) == EntriesFor(parseFloat, init, q) + [];
        }
      }
    }
  }

  // ---- get_best_hit / refine_hit ----

  /** The tool exited with a non-zero status (ValueError), or the first data
      row has fewer than six fields, so `best_hit[4]` or `best_hit[5]` is
      out of range (IndexError). */
  datatype BestHitError = PhmmerFailed | FieldMissing

  const Dashes: seq<string> := ["-", "-", "-"]

  /** The index of the first line that is not a comment. */
  function FirstDataLine(lines: seq<string>): (r: Option<nat>)
    ensures r.Some? ==> r.value < |lines| && !IsComment(lines[r.value])
    ensures r.Some? ==> forall k :: 0 <= k < r.value ==> IsComment(lines[k])
    ensures r.None? ==> forall k :: 0 <= k < |lines| ==> IsComment(lines[k])
    decreases |lines|
  {
    if lines == [] then None
    else if !IsComment(lines[0]) then Some(0)
    else match FirstDataLine(lines[1..])
      case None => None
      case Some(k) => Some(k + 1)
  }

  /** `[name, evalue, score]` of the best hit: fields 0, 4 and 5 of the
      first data row; the dashes when there is no data row or the first
      one splits into nothing. */
  function BestHit(status: int, lines: seq<string>): (r: Result<seq<string>, BestHitError>)
    ensures r == Failure(PhmmerFailed) <==> status != 0
    ensures r.Success? ==> |r.value| == 3
    ensures status == 0 && FirstDataLine(lines).Some? && |Split(lines[FirstDataLine(lines).value])| >= 6 ==>
      var f := Split(lines[FirstDataLine(lines).value]);
      r == Success([f[0], f[4], f[5]])
    ensures r == Failure(FieldMissing) <==>
      status == 0 && FirstDataLine(lines).Some? && 1 <= |Split(lines[FirstDataLine(lines).value])| < 6
    ensures r == Success(Dashes) <==>
      status == 0 && (FirstDataLine(lines).None? || Split(lines[FirstDataLine(lines).value]) == []
                      || (var f := Split(lines[FirstDataLine(lines).value]);
                          |f| >= 6 && f[0] == "-" && f[4] == "-" && f[5] == "-"))
    ensures status == 0 && (forall k :: 0 <= k < |lines| ==> IsComment(lines[k])) ==> r == Success(Dashes)
    ensures r.Success? && r.value != Dashes ==>
      exists k :: 0 <= k < |lines| && !IsComment(lines[k]) && (forall j :: 0 <= j < k ==> IsComment(lines[j]))
                  && |Split(lines[k])| >= 6
                  && r.value == [Split(lines[k])[0], Split(lines[k])[4], Split(lines[k])[5]]
  {
    if status != 0 then Failure(PhmmerFailed)
    else match FirstDataLine(lines)
      case None => Success(Dashes)
      case Some(k) =>
        var f := Split(lines[k]);
        if f == [] then Success(Dashes)
        else if |f| < 6 then Failure(FieldMissing)
        else Success([f[0], f[4], f[5]])
  }

  /** The loop with its `break`: the first data line is split and the rest
      of the report is not read. */
  method GetBestHit(status: int, lines: seq<string>) returns (r: Result<seq<string>, BestHitError>)
    ensures r == BestHit(status, lines)
  {
    if status != 0 {
      return Failure(PhmmerFailed);
    }
    var bestHit: Option<seq<string>> := None;
    var i := 0;
    while i < |lines|
      invariant 0 <= i <= |lines|
      invariant bestHit.None? ==> forall k :: 0 <= k < i ==> IsComment(lines[k])
      invariant bestHit.Some? ==> 0 < i && FirstDataLine(lines) == Some(i - 1) && bestHit.value == Split(lines[i - 1])
    {
      if IsComment(lines[i]) {
        i := i + 1;
        continue;
      }
      bestHit := Some(Split(lines[i]));
      i := i + 1;
      break;
    }
    if bestHit.Some? && bestHit.value != [] {
      var f := bestHit.value;
      if |f| < 6 {
        return Failure(FieldMissing);
      }
      return Success([f[0], f[4], f[5]]);
    }
    return Success(Dashes);
  }

  /** `[seqname] + best_hit`, or the exception of `get_best_hit`. */
  function RefineHit(seqname: string, status: int, lines: seq<string>): (r: Result<seq<string>, BestHitError>)
    ensures r.Success? <==> BestHit(status, lines).Success?
    ensures r.Success? ==> |r.value| == 4 && r.value[0] == seqname && r.value[1..] == BestHit(status, lines).value
    ensures r.Failure? ==> r.error == BestHit(status, lines).error
  {
    match BestHit(status, lines)
    case Failure(e) => Failure(e)
    case Success(best) => Success([seqname] + best)
  }

  /** A report without a data row, or whose first data row is blank, gives
      `[seqname, '-', '-', '-']`, whatever follows that row. */
  lemma NoHitGivesDashes(seqname: string, pre: seq<string>, line: string, post: seq<string>)
    requires forall k :: 0 <= k < |pre| ==> IsComment(pre[k])
    requires !IsComment(line) && Split(line) == []
    ensures RefineHit(seqname, 0, pre + [line] + post) == Success([seqname, "-", "-", "-"])
  {
    var lines := pre + [line] + post;
    assert lines[|pre|] == line;
    assert forall k :: 0 <= k < |pre| ==> lines[k] == pre[k];
    assert FirstDataLine(lines) == Some(|pre|);
    assert BestHit(0, lines) == Success(Dashes);
    assert [seqname] + Dashes == [seqname, "-", "-", "-"];
  }

  /** The first data row decides `get_best_hit`, whatever follows it:
      six or more fields give fields 0, 4 and 5; one to five fields raise
      IndexError; no field gives the dashes. */
  lemma FirstRowDecides(pre: seq<string>, line: string, post: seq<string>)
    requires forall k :: 0 <= k < |pre| ==> IsComment(pre[k])
    requires !IsComment(line)
    ensures var f, r := Split(line), BestHit(0, pre + [line] + post);
      && (|f| >= 6 ==> r == Success([f[0], f[4], f[5]]))
      && (r == Failure(FieldMissing) <==> 1 <= |f| < 6)
      && (f == [] ==> r == Success(Dashes))
  {
    var lines := pre + [line] + post;
    assert lines[|pre|] == line;
    assert forall k :: 0 <= k < |pre| ==> lines[k] == pre[k];
    assert FirstDataLine(lines) == Some(|pre|);
  }
}
