/** The disk backend (`hmmscan` without the external process): the lines of
    a domain table report, grouped into one result per run of rows with
    the same query name.

    Each data row is split into whitespace fields and the first 22 go
    through `safe_cast`. Rows of one query are collected with the
    threshold filter and the distinct-target cap; a change of query name
    emits the previous group as `(qname, 0, hit_list, qlen, None)` (the
    elapsed time of the disk path is the constant 0 and is not stored
    below). `Run` is the specification, a fold of `Step` over the lines;
    `HmmScan` is the imperative loop with the source's mutable state. */
module DomTable {
  import opened Wrappers
  import opened Text
  import opened PyValues

  /** Columns of a domain table row that `hmmscan` unpacks. */
  const RowFields: nat := 22

  // column indices in the 22 unpacked fields
  const HitNameCol: nat := 0
  const QueryNameCol: nat := 3
  const QueryLenCol: nat := 5
  const EvalueCol: nat := 6
  const ScoreCol: nat := 7
  const DomScoreCol: nat := 13
  const HmmFromCol: nat := 15
  const HmmToCol: nat := 16
  const SeqFromCol: nat := 17
  const SeqToCol: nat := 18

  /** `evalue_thr`, `score_thr` and `max_hits` as `hmmscan` receives them. */
  datatype Thresholds = Thresholds(evalueThr: Option<real>, scoreThr: Option<real>, maxHits: Option<int>)

  /** `[hitname, evalue, score, hmmfrom, hmmto, seqfrom, seqto, d_score]`. */
  datatype DiskHit = DiskHit(hitName: Field, evalue: Field, score: Field, hmmFrom: Field, hmmTo: Field,
                             seqFrom: Field, seqTo: Field, domScore: Field)

  /** One emitted result: the query name, its hits and its length. */
  datatype Group = Group(query: Field, hits: seq<DiskHit>, qlen: Field)

  /** A row with fewer than 22 fields fails the tuple unpacking
      (ValueError); a length mismatch inside a group raises (the source
      names an undefined exception class, so a NameError is what escapes). */
  datatype DiskError = RowTooShort | InconsistentQlen

  /** `last_query`, `last_hitname`, `hit_list`, `hit_ids`, `last_query_len`. */
  datatype State = State(lastQuery: Option<Field>, lastHit: Option<Field>, hits: seq<DiskHit>,
                         ids: set<Field>, lastLen: Option<Field>)

  /** The groups emitted so far, the state, and the exception that ended
      the scan if any (groups emitted before it stay emitted). */
  datatype Scan = Scan(out: seq<Group>, st: State, err: Option<DiskError>)

  const Init: State := State(None, None, [], {}, None)

  /** Once a query name has been seen its length has been recorded. */
  predicate Inv(st: State) {
    st.lastQuery.Some? ==> st.lastLen.Some?
  }

  /** `map(safe_cast, fields[:22])`, or nothing when the row is too short
      to unpack. */
  function ParseRow(parseFloat: string -> Option<real>, line: string): (r: Option<seq<Field>>)
    ensures r.Some? <==> |Split(line)| >= RowFields
    ensures r.Some? ==> |r.value| == RowFields
    ensures r.Some? ==> forall k :: 0 <= k < RowFields ==> r.value[k] == SafeCast(parseFloat, Split(line)[k])
  {
    var fields := Split(line);
    if |fields| < RowFields then None
    else Some(seq(RowFields, k requires 0 <= k < RowFields => SafeCast(parseFloat, fields[k])))
  }

  /** The three admission conditions of a row, the score quirk included:
      with no score threshold no row is admitted. */
  predicate Admits(th: Thresholds, st: State, row: seq<Field>)
    requires |row| == RowFields
  {
    && (th.evalueThr.None? || AtMost(row[EvalueCol], th.evalueThr.value))
    && (th.scoreThr.Some? && AtLeast(row[ScoreCol], th.scoreThr.value))
    && (th.maxHits.None? || st.lastHit == Some(row[HitNameCol]) || |st.ids| < th.maxHits.value)
  }

  function HitOf(row: seq<Field>): DiskHit
    requires |row| == RowFields
  {
    DiskHit(row[HitNameCol], row[EvalueCol], row[ScoreCol], row[HmmFromCol], row[HmmToCol],
            row[SeqFromCol], row[SeqToCol], row[DomScoreCol])
  }

  /** A new query name flushes the previous group when `last_query` is truthy. */
  function Flush(sc: Scan, qname: Field): (r: Scan)
    requires Inv(sc.st)
    ensures r.err == sc.err && r.st.lastQuery == sc.st.lastQuery && r.st.lastHit == sc.st.lastHit
  {
    var st := sc.st;
    if OptTruthy(st.lastQuery) && qname != st.lastQuery.value then
      Scan(sc.out + [Group(st.lastQuery.value, st.hits, st.lastLen.value)],
           st.(hits := [], ids := {}, lastLen := None), sc.err)
    else sc
  }

  /** One data row. */
  function StepRow(th: Thresholds, sc: Scan, row: seq<Field>): (r: Scan)
    requires sc.err.None? && Inv(sc.st) && |row| == RowFields
    ensures r.err.None? ==> Inv(r.st)
  {
    var qname, qlen := row[QueryNameCol], row[QueryLenCol];
    var f := Flush(sc, qname);
    var st := f.st.(lastQuery := Some(qname));
    if OptTruthy(st.lastLen) && st.lastLen.value != qlen then Scan(f.out, st, Some(InconsistentQlen))
    else
      var st := st.(lastLen := Some(qlen));
      if Admits(th, st, row) then
        Scan(f.out, st.(hits := st.hits + [HitOf(row)], ids := st.ids + {row[HitNameCol]},
                        lastHit := Some(row[HitNameCol])), None)
      else Scan(f.out, st, None)
  }

  /** One line of the report: comments are skipped. */
  function Step(parseFloat: string -> Option<real>, th: Thresholds, sc: Scan, line: string): (r: Scan)
    requires sc.err.None? && Inv(sc.st)
    ensures r.err.None? ==> Inv(r.st)
  {
    if IsComment(line) then sc
    else match ParseRow(parseFloat, line)
      case None => sc.(err := Some(RowTooShort))
      case Some(row) => StepRow(th, sc, row)
  }

  /** The loop over the lines, stopping at the first exception. */
  function Run(parseFloat: string -> Option<real>, th: Thresholds, lines: seq<string>): (r: Scan)
    ensures r.err.None? ==> Inv(r.st)
    decreases |lines|
  {
    if lines == [] then Scan([], Init, None)
    else
      var prev := Run(parseFloat, th, lines[..|lines| - 1]);
      if prev.err.Some? then prev else Step(parseFloat, th, prev, lines[|lines| - 1])
  }

  /** What the caller sees: nothing at all when the tool failed; otherwise
      the groups of the loop, then the last group when `last_query` is
      truthy and no exception ended the loop. */
  function DiskScan(parseFloat: string -> Option<real>, th: Thresholds, status: int, lines: seq<string>)
    : (seq<Group>, Option<DiskError>)
  {
    if status != 0 then ([], None)
    else
      var r := Run(parseFloat, th, lines);
      if r.err.Some? then (r.out, r.err)
      else if OptTruthy(r.st.lastQuery) then (r.out + [Group(r.st.lastQuery.value, r.st.hits, r.st.lastLen.value)], None)
      else (r.out, None)
  }

  // ---- the imperative scanner ----

  method HmmScan(parseFloat: string -> Option<real>, th: Thresholds, status: int, lines: seq<string>)
    returns (groups: seq<Group>, err: Option<DiskError>)
    ensures (groups, err) == DiskScan(parseFloat, th, status, lines)
  {
    groups, err := [], None;
    if status != 0 {
      return;
    }
    var lastQuery: Option<Field> := None;
    var lastHit: Option<Field> := None;
    var hitList: seq<DiskHit> := [];
    var hitIds: set<Field> := {};
    var lastLen: Option<Field> := None;
    var i := 0;
    while i < |lines|
      invariant 0 <= i <= |lines|
      invariant Run(parseFloat, th, lines[..i]) == Scan(groups, State(lastQuery, lastHit, hitList, hitIds, lastLen), None)
    {
      var line := lines[i];
      assert lines[..i + 1][..i] == lines[..i];
      i := i + 1;
      if IsComment(line) {
        continue;
      }
      var fields := Split(line);
      if |fields| < RowFields {
        RunStopped(parseFloat, th, lines, i);
        return groups, Some(RowTooShort);
      }
      var row := seq(RowFields, k requires 0 <= k < RowFields => SafeCast(parseFloat, fields[k]));
      assert ParseRow(parseFloat, line) == Some(row);
      var qname, qlen := row[QueryNameCol], row[QueryLenCol];
      if OptTruthy(lastQuery) && qname != lastQuery.value {
        groups := groups + [Group(lastQuery.value, hitList, lastLen.value)];
        hitList, hitIds, lastLen := [], {}, None;
      }
      lastQuery := Some(qname);
      if OptTruthy(lastLen) && lastLen.value != qlen {
        RunStopped(parseFloat, th, lines, i);
        return groups, Some(InconsistentQlen);
      }
      lastLen := Some(qlen);
      if && (th.evalueThr.None? || AtMost(row[EvalueCol], th.evalueThr.value))
         && (th.scoreThr.Some? && AtLeast(row[ScoreCol], th.scoreThr.value))
         && (th.maxHits.None? || lastHit == Some(row[HitNameCol]) || |hitIds| < th.maxHits.value)
      {
        hitList := hitList + [HitOf(row)];
        hitIds := hitIds + {row[HitNameCol]};
        lastHit := Some(row[HitNameCol]);
      }
    }
    assert lines[..i] == lines;
    if OptTruthy(lastQuery) {
      groups := groups + [Group(lastQuery.value, hitList, lastLen.value)];
    }
  }

  /** An exception ends the scan: later lines change nothing. */
  lemma {:induction false} RunStopped(parseFloat: string -> Option<real>, th: Thresholds, lines: seq<string>, i: nat)
    requires i <= |lines| && Run(parseFloat, th, lines[..i]).err.Some?
    ensures Run(parseFloat, th, lines) == Run(parseFloat, th, lines[..i])
    decreases |lines| - i
  {
    if i < |lines| {
      assert lines[..i + 1][..i] == lines[..i];
      RunStopped(parseFloat, th, lines, i + 1);
    } else {
      assert lines[..i] == lines;
    }
  }

  // ---- comment lines ----

  function DataLines(lines: seq<string>): (r: seq<string>)
    ensures forall k :: 0 <= k < |r| ==> !IsComment(r[k])
    decreases |lines|
  {
    if lines == [] then []
    else DataLines(lines[..|lines| - 1]) + (if IsComment(lines[|lines| - 1]) then [] else [lines[|lines| - 1]])
  }

  /** `#` lines are ignored: the scan of the report equals the scan of its
      data rows alone. */
  lemma {:induction false} CommentsIgnored(parseFloat: string -> Option<real>, th: Thresholds, lines: seq<string>)
    ensures Run(parseFloat, th, DataLines(lines)) == Run(parseFloat, th, lines)
    decreases |lines|
  {
    if lines != [] {
      var init, last := lines[..|lines| - 1], lines[|lines| - 1];
      CommentsIgnored(parseFloat, th, init);
      assert lines[..|lines| - 1] == init;
      if IsComment(last) {
        assert DataLines(lines) == DataLines(init) + [] == DataLines(init);
      } else {
        var d := DataLines(init) + [last];
        assert DataLines(lines) == d;
        assert d[..|d| - 1] == DataLines(init);
      }
    }
  }

  // ---- distinct-target cap ----

  function HitNames(hits: seq<DiskHit>): set<Field> {
    set h | h in hits :: h.hitName
  }

  /** What the cap keeps true of the state with `max_hits >= 1`: `hit_ids`
      holds the names of `hit_list`, at most `max_hits` of them, and once
      it is non-empty the last admitted name is among them. */
  predicate CapInv(max: int, sc: Scan) {
    && sc.st.ids == HitNames(sc.st.hits)
    && |sc.st.ids| <= max
    && (sc.st.ids == {} || (sc.st.lastHit.Some? && sc.st.lastHit.value in sc.st.ids))
    && forall g :: g in sc.out ==> |HitNames(g.hits)| <= max
  }

  lemma StepRowCap(th: Thresholds, sc: Scan, row: seq<Field>)
    requires th.maxHits.Some? && th.maxHits.value >= 1
    requires sc.err.None? && Inv(sc.st) && |row| == RowFields
    requires CapInv(th.maxHits.value, sc)
    ensures CapInv(th.maxHits.value, StepRow(th, sc, row))
  {
    var max, q := th.maxHits.value, row[QueryNameCol];
    var f := Flush(sc, q);
    FlushCap(max, sc, q);
    var st0 := f.st.(lastQuery := Some(q));
    if OptTruthy(st0.lastLen) && st0.lastLen.value != row[QueryLenCol] {
      assert StepRow(th, sc, row) == Scan(f.out, st0, Some(InconsistentQlen));
    } else {
      var st := st0.(lastLen := Some(row[QueryLenCol]));
      assert CapInv(max, Scan(f.out, st, None));
      if Admits(th, st, row) {
        AdmitCap(th, Scan(f.out, st, None), row);
      } else {
        assert StepRow(th, sc, row) == Scan(f.out, st, None);
      }
    }
  }

  /** Closing the current group keeps the bound. */
  lemma FlushCap(max: int, sc: Scan, qname: Field)
    requires Inv(sc.st) && CapInv(max, sc) && max >= 0
    ensures CapInv(max, Flush(sc, qname))
  {
    var f := Flush(sc, qname);
    if f != sc {
      assert HitNames([]) == {};
      forall g | g in f.out ensures |HitNames(g.hits)| <= max {
        if g !in sc.out {
          assert g.hits == sc.st.hits;
        }
      }
    }
  }

  /** Admitting a row keeps the bound: a new target is admitted only below it. */
  lemma AdmitCap(th: Thresholds, sc: Scan, row: seq<Field>)
    requires th.maxHits.Some? && th.maxHits.value >= 1 && |row| == RowFields
    requires CapInv(th.maxHits.value, sc) && Admits(th, sc.st, row)
    ensures CapInv(th.maxHits.value, sc.(st := sc.st.(hits := sc.st.hits + [HitOf(row)],
                                                      ids := sc.st.ids + {row[HitNameCol]},
                                                      lastHit := Some(row[HitNameCol]))))
  {
    var st, h := sc.st, HitOf(row);
    assert HitNames(st.hits + [h]) == HitNames(st.hits) + {h.hitName};
    var name := row[HitNameCol];
    if name in st.ids {
      assert st.ids + {name} == st.ids;
    } else if st.ids != {} {
      assert st.lastHit != Some(name);
      assert |st.ids + {name}| == |st.ids| + 1;
    } else {
      assert st.ids + {name} == {name};
    }
  }


  lemma {:induction false} RunCap(parseFloat: string -> Option<real>, th: Thresholds, lines: seq<string>)
    requires th.maxHits.Some? && th.maxHits.value >= 1
    ensures CapInv(th.maxHits.value, Run(parseFloat, th, lines))
    decreases |lines|
  {
    if lines == [] {
      assert HitNames([]) == {};
    } else {
      var prev := Run(parseFloat, th, lines[..|lines| - 1]);
      RunCap(parseFloat, th, lines[..|lines| - 1]);
      if prev.err.None? && !IsComment(lines[|lines| - 1]) {
        match ParseRow(parseFloat, lines[|lines| - 1])
        case None =>
        case Some(row) => StepRowCap(th, prev, row);
      }
    }
  }

  /** With `max_hits >= 1` every emitted group holds at most `max_hits`
      distinct hit names, even though `last_hitname` carries over from one
      group to the next. */
  lemma DiskCap(parseFloat: string -> Option<real>, th: Thresholds, status: int, lines: seq<string>)
    requires th.maxHits.Some? && th.maxHits.value >= 1
    ensures forall g :: g in DiskScan(parseFloat, th, status, lines).0 ==> |HitNames(g.hits)| <= th.maxHits.value
  {
    RunCap(parseFloat, th, lines);
  }

  // ---- the score-threshold quirk ----

  lemma {:induction false} RunNoScoreThreshold(parseFloat: string -> Option<real>, th: Thresholds, lines: seq<string>)
    requires th.scoreThr.None?
    ensures var r := Run(parseFloat, th, lines);
      r.st.hits == [] && forall g :: g in r.out ==> g.hits == []
    decreases |lines|
  {
    if lines != [] {
      RunNoScoreThreshold(parseFloat, th, lines[..|lines| - 1]);
    }
  }

  /** With no score threshold every group comes out empty, whatever the
      e-values and scores. */
  lemma NoScoreThresholdNoHits(parseFloat: string -> Option<real>, th: Thresholds, status: int, lines: seq<string>)
    requires th.scoreThr.None?
    ensures forall g :: g in DiskScan(parseFloat, th, status, lines).0 ==> g.hits == []
  {
    RunNoScoreThreshold(parseFloat, th, lines);
  }

  // ---- grouping ----

  /** The query names of the data rows, in order (rows too short to
      unpack contribute nothing). */
  function QueryNames(parseFloat: string -> Option<real>, lines: seq<string>): seq<Field>
    decreases |lines|
  {
    if lines == [] then []
    else
      var last := lines[|lines| - 1];
      QueryNames(parseFloat, lines[..|lines| - 1])
      + (if IsComment(last) || ParseRow(parseFloat, last).None? then [] else [ParseRow(parseFloat, last).value[QueryNameCol]])
  }

  /** A sequence with each run of equal adjacent elements collapsed to one. */
  function Runs(s: seq<Field>): (r: seq<Field>)
    ensures |r| <= |s| && (r == [] <==> s == [])
    ensures r != [] ==> r[|r| - 1] == s[|s| - 1]
    decreases |s|
  {
    if s == [] then []
    else
      var r := Runs(s[..|s| - 1]);
      if r != [] && r[|r| - 1] == s[|s| - 1] then r else r + [s[|s| - 1]]
  }

  /** Adjacent runs have different names. */
  lemma {:induction false} RunsAdjacentDistinct(s: seq<Field>)
    ensures forall k :: 0 <= k < |Runs(s)| - 1 ==> Runs(s)[k] != Runs(s)[k + 1]
    decreases |s|
  {
    if s != [] {
      RunsAdjacentDistinct(s[..|s| - 1]);
    }
  }

  function Names(gs: seq<Group>): (r: seq<Field>)
    ensures |r| == |gs| && forall k :: 0 <= k < |gs| ==> r[k] == gs[k].query
  {
    seq(|gs|, k requires 0 <= k < |gs| => gs[k].query)
  }

  predicate AllTruthy(names: seq<Field>) {
    forall k :: 0 <= k < |names| ==> Truthy(names[k])
  }

  /** Grouping invariant: the emitted names followed by the current query
      are the runs of the query names seen so far. */
  predicate GroupInv(names: seq<Field>, sc: Scan) {
    if names == [] then sc.out == [] && sc.st.lastQuery.None?
    else sc.st.lastQuery.Some? && Names(sc.out) + [sc.st.lastQuery.value] == Runs(names)
  }

  /** One data row keeps the grouping invariant. */
  lemma StepRowGroups(th: Thresholds, names: seq<Field>, sc: Scan, row: seq<Field>)
    requires sc.err.None? && Inv(sc.st) && |row| == RowFields
    requires GroupInv(names, sc) && AllTruthy(names) && Truthy(row[QueryNameCol])
    requires StepRow(th, sc, row).err.None?
    ensures GroupInv(names + [row[QueryNameCol]], StepRow(th, sc, row))
  {
    StepRowShape(th, sc, row);
    GroupsAfter(th, names, sc, row, StepRow(th, sc, row));
  }

  lemma GroupsAfter(th: Thresholds, names: seq<Field>, sc: Scan, row: seq<Field>, r: Scan)
    requires Inv(sc.st) && |row| == RowFields
    requires GroupInv(names, sc) && AllTruthy(names) && Truthy(row[QueryNameCol])
    requires StepShape(th, sc, row, r)
    ensures GroupInv(names + [row[QueryNameCol]], r)
  {
    var q := row[QueryNameCol];
    var all := names + [q];
    assert all[..|all| - 1] == names;
    if names != [] && sc.st.lastQuery.value != q {
      assert Truthy(sc.st.lastQuery.value) by {
        var rs := Runs(names);
        assert rs[|rs| - 1] == names[|names| - 1];
      }
      NamesSnoc(sc.out, Group(sc.st.lastQuery.value, sc.st.hits, sc.st.lastLen.value));
    }
  }

  lemma NamesSnoc(gs: seq<Group>, g: Group)
    ensures Names(gs + [g]) == Names(gs) + [g.query]
  {
    assert forall k :: 0 <= k < |gs| ==> (gs + [g])[k] == gs[k];
  }

  lemma {:induction false} RunGroups(parseFloat: string -> Option<real>, th: Thresholds, lines: seq<string>)
    requires Run(parseFloat, th, lines).err.None?
    requires AllTruthy(QueryNames(parseFloat, lines))
    ensures GroupInv(QueryNames(parseFloat, lines), Run(parseFloat, th, lines))
    decreases |lines|
  {
    if lines != [] {
      var init, last := lines[..|lines| - 1], lines[|lines| - 1];
      var prev := Run(parseFloat, th, init);
      var names := QueryNames(parseFloat, init);
      var all := QueryNames(parseFloat, lines);
      assert prev.err.None?;
      assert AllTruthy(names) by {
        assert forall k :: 0 <= k < |names| ==> names[k] == all[k];
      }
      RunGroups(parseFloat, th, init);
      if !IsComment(last) {
        var row := ParseRow(parseFloat, last).value;
        assert all == names + [row[QueryNameCol]];
        assert Truthy(row[QueryNameCol]) by { assert all[|all| - 1] == row[QueryNameCol]; }
        StepRowGroups(th, names, prev, row);
      } else {
        assert all == names + [] == names;
      }
    }
  }

  /** Grouping: when every query name is truthy and no exception occurs,
      the emitted groups are named after the runs of equal adjacent query
      names, in order. So a change of name starts a new group, the last
      group is emitted exactly when a data row was seen, and a name that
      reappears after another one gets a group of its own. */
  lemma DiskGroups(parseFloat: string -> Option<real>, th: Thresholds, lines: seq<string>)
    requires DiskScan(parseFloat, th, 0, lines).1.None?
    requires AllTruthy(QueryNames(parseFloat, lines))
    ensures Names(DiskScan(parseFloat, th, 0, lines).0) == Runs(QueryNames(parseFloat, lines))
    ensures forall k :: 0 <= k < |DiskScan(parseFloat, th, 0, lines).0| - 1 ==>
      DiskScan(parseFloat, th, 0, lines).0[k].query != DiskScan(parseFloat, th, 0, lines).0[k + 1].query
  {
    var names := QueryNames(parseFloat, lines);
    RunGroups(parseFloat, th, lines);
    var r := Run(parseFloat, th, lines);
    if names != [] {
      assert Truthy(r.st.lastQuery.value) by {
        var rs := Runs(names);
        assert rs[|rs| - 1] == names[|names| - 1];
      }
      NamesSnoc(r.out, Group(r.st.lastQuery.value, r.st.hits, r.st.lastLen.value));
    }
    RunsAdjacentDistinct(names);
  }

  // ---- what a group holds ----

  /** The unpacked data rows, in order. */
  function RowsOf(parseFloat: string -> Option<real>, lines: seq<string>): (r: seq<seq<Field>>)
    ensures forall k :: 0 <= k < |r| ==> |r[k]| == RowFields
    decreases |lines|
  {
    if lines == [] then []
    else
      var last := lines[|lines| - 1];
      RowsOf(parseFloat, lines[..|lines| - 1])
      + (if IsComment(last) || ParseRow(parseFloat, last).None? then [] else [ParseRow(parseFloat, last).value])
  }

  function QName(row: seq<Field>): Field {
    if |row| == RowFields then row[QueryNameCol] else Str("")
  }

  /** The query name of a run of rows. */
  function RunName(seg: seq<seq<Field>>): Field {
    if seg == [] then Str("") else QName(seg[0])
  }

  function Concat(segs: seq<seq<seq<Field>>>): seq<seq<Field>>
    decreases |segs|
  {
    if segs == [] then [] else Concat(segs[..|segs| - 1]) + segs[|segs| - 1]
  }

  /** The rows cut into runs of one query name, a new run starting
      wherever the name changes (the lemmas below show the runs are
      maximal and cover the rows). */
  function Segments(rows: seq<seq<Field>>): (r: seq<seq<seq<Field>>>)
    ensures r == [] <==> rows == []
    decreases |rows|
  {
    if rows == [] then [] else AddRow(Segments(rows[..|rows| - 1]), rows[|rows| - 1])
  }

  /** One more row: it extends the last run when it has that run's name,
      otherwise it starts a run of its own. */
  function AddRow(segs: seq<seq<seq<Field>>>, row: seq<Field>): (r: seq<seq<seq<Field>>>)
    ensures r != []
  {
    if segs != [] && RunName(segs[|segs| - 1]) == QName(row) then segs[..|segs| - 1] + [segs[|segs| - 1] + [row]]
    else segs + [[row]]
  }

  /** Every run is non-empty and of one name, and adjacent runs differ in
      name. */
  predicate RunsOfOneName(segs: seq<seq<seq<Field>>>) {
    && (forall k :: 0 <= k < |segs| ==> segs[k] != [])
    && (forall k, j :: 0 <= k < |segs| && 0 <= j < |segs[k]| ==> QName(segs[k][j]) == RunName(segs[k]))
    && (forall k :: 0 <= k < |segs| - 1 ==> RunName(segs[k]) != RunName(segs[k + 1]))
  }

  lemma AddRowMaximal(segs: seq<seq<seq<Field>>>, row: seq<Field>)
    requires RunsOfOneName(segs)
    ensures RunsOfOneName(AddRow(segs, row))
  {
    var r := AddRow(segs, row);
    if segs != [] && RunName(segs[|segs| - 1]) == QName(row) {
      assert forall k :: 0 <= k < |segs| - 1 ==> r[k] == segs[k];
      assert r[|segs| - 1] == segs[|segs| - 1] + [row];
    } else {
      assert forall k :: 0 <= k < |segs| ==> r[k] == segs[k];
    }
  }

  lemma {:induction false} SegmentsMaximal(rows: seq<seq<Field>>)
    ensures RunsOfOneName(Segments(rows))
    decreases |rows|
  {
    if rows != [] {
      SegmentsMaximal(rows[..|rows| - 1]);
      AddRowMaximal(Segments(rows[..|rows| - 1]), rows[|rows| - 1]);
    }
  }

  lemma ConcatSnoc(segs: seq<seq<seq<Field>>>, seg: seq<seq<Field>>)
    ensures Concat(segs + [seg]) == Concat(segs) + seg
  {
    assert (segs + [seg])[..|segs|] == segs;
  }

  lemma AddRowCover(segs: seq<seq<seq<Field>>>, row: seq<Field>)
    ensures Concat(AddRow(segs, row)) == Concat(segs) + [row]
  {
    if segs != [] && RunName(segs[|segs| - 1]) == QName(row) {
      var front, last := segs[..|segs| - 1], segs[|segs| - 1];
      assert segs == front + [last];
      ConcatSnoc(front, last);
      ConcatSnoc(front, last + [row]);
    } else {
      ConcatSnoc(segs, [row]);
    }
  }

  lemma {:induction false} SegmentsCover(rows: seq<seq<Field>>)
    ensures Concat(Segments(rows)) == rows
    decreases |rows|
  {
    if rows != [] {
      var init := rows[..|rows| - 1];
      SegmentsCover(init);
      AddRowCover(Segments(init), rows[|rows| - 1]);
      assert rows == init + [rows[|rows| - 1]];
    }
  }

  /** The two row tests of `hmmscan` other than the cap. */
  predicate Passes(th: Thresholds, row: seq<Field>) {
    && |row| == RowFields
    && (th.evalueThr.None? || AtMost(row[EvalueCol], th.evalueThr.value))
    && (th.scoreThr.Some? && AtLeast(row[ScoreCol], th.scoreThr.value))
  }

  /** The hits of the rows of `seg` that pass both tests, in row order. */
  function Passing(th: Thresholds, seg: seq<seq<Field>>): (r: seq<DiskHit>)
    ensures forall h :: h in r ==> exists row :: row in seg && Passes(th, row) && h == HitOf(row)
    decreases |seg|
  {
    if seg == [] then []
    else
      var init, row := seg[..|seg| - 1], seg[|seg| - 1];
      var r := Passing(th, init) + (if Passes(th, row) then [HitOf(row)] else []);
      assert forall x :: x in init ==> x in seg;
      r
  }

  /** What a group's hits are with respect to its run of rows: each one is
      the hit of a row that passes both tests, and with no cap they are all
      of them, in row order. */
  predicate Fits(th: Thresholds, hits: seq<DiskHit>, seg: seq<seq<Field>>) {
    && (forall h :: h in hits ==> h in Passing(th, seg))
    && (th.maxHits.None? ==> hits == Passing(th, seg))
  }

  /** One more row of the current run keeps `Fits`: its hit is appended
      only when the row passes, and with no cap exactly then. */
  lemma FitsSnoc(th: Thresholds, hits: seq<DiskHit>, hits': seq<DiskHit>, seg: seq<seq<Field>>, row: seq<Field>)
    requires Fits(th, hits, seg) && |row| == RowFields
    requires hits' == hits || (hits' == hits + [HitOf(row)] && Passes(th, row))
    requires th.maxHits.None? ==> hits' == hits + (if Passes(th, row) then [HitOf(row)] else [])
    ensures Fits(th, hits', seg + [row])
  {
    var s := seg + [row];
    assert s[..|s| - 1] == seg;
  }

  /** What one data row does to the groups, to `last_query` and to the
      current hits, when it raises nothing. */
  predicate StepShape(th: Thresholds, sc: Scan, row: seq<Field>, r: Scan)
    requires Inv(sc.st) && |row| == RowFields
  {
    var q := row[QueryNameCol];
    var flush := OptTruthy(sc.st.lastQuery) && q != sc.st.lastQuery.value;
    var base := if flush then [] else sc.st.hits;
    && r.st.lastQuery == Some(q)
    && r.out == (if flush then sc.out + [Group(sc.st.lastQuery.value, sc.st.hits, sc.st.lastLen.value)] else sc.out)
    && (r.st.hits == base || (r.st.hits == base + [HitOf(row)] && Passes(th, row)))
    && (th.maxHits.None? ==> r.st.hits == base + (if Passes(th, row) then [HitOf(row)] else []))
  }

  lemma StepRowShape(th: Thresholds, sc: Scan, row: seq<Field>)
    requires sc.err.None? && Inv(sc.st) && |row| == RowFields
    requires StepRow(th, sc, row).err.None?
    ensures StepShape(th, sc, row, StepRow(th, sc, row))
  {
  }

  /** The emitted groups match the first runs, name and hits. */
  predicate OutFits(th: Thresholds, out: seq<Group>, segs: seq<seq<seq<Field>>>) {
    && |out| <= |segs|
    && forall k :: 0 <= k < |out| ==> out[k].query == RunName(segs[k]) && Fits(th, out[k].hits, segs[k])
  }

  /** Content invariant: one emitted group per finished run, and the
      current hits fitting the current run, whose name is `last_query`. */
  predicate ContentInv(th: Thresholds, rows: seq<seq<Field>>, sc: Scan) {
    ContentOf(th, Segments(rows), sc)
  }

  predicate ContentOf(th: Thresholds, segs: seq<seq<seq<Field>>>, sc: Scan) {
    if segs == [] then sc.out == [] && sc.st.lastQuery.None? && sc.st.hits == []
    else
      && |sc.out| == |segs| - 1 && OutFits(th, sc.out, segs)
      && sc.st.lastQuery == Some(RunName(segs[|segs| - 1])) && OptTruthy(sc.st.lastQuery)
      && Fits(th, sc.st.hits, segs[|segs| - 1])
  }

  lemma StepRowContent(th: Thresholds, rows: seq<seq<Field>>, sc: Scan, row: seq<Field>)
    requires sc.err.None? && Inv(sc.st) && |row| == RowFields
    requires ContentInv(th, rows, sc) && Truthy(row[QueryNameCol])
    requires StepRow(th, sc, row).err.None?
    ensures ContentInv(th, rows + [row], StepRow(th, sc, row))
  {
    var all := rows + [row];
    assert all[..|all| - 1] == rows;
    assert Segments(all) == AddRow(Segments(rows), row);
    StepRowShape(th, sc, row);
    ContentAfter(th, Segments(rows), sc, row, StepRow(th, sc, row));
  }

  lemma ContentAfter(th: Thresholds, segs: seq<seq<seq<Field>>>, sc: Scan, row: seq<Field>, r: Scan)
    requires Inv(sc.st) && |row| == RowFields
    requires ContentOf(th, segs, sc) && Truthy(row[QueryNameCol])
    requires StepShape(th, sc, row, r)
    ensures ContentOf(th, AddRow(segs, row), r)
  {
    if segs == [] {
      FitsSnoc(th, [], r.st.hits, [], row);
    } else if RunName(segs[|segs| - 1]) == QName(row) {
      FitsSnoc(th, sc.st.hits, r.st.hits, segs[|segs| - 1], row);
      SameRunFits(th, segs, sc.out, row);
    } else {
      FitsSnoc(th, [], r.st.hits, [], row);
      NewRunFits(th, segs, sc.out, Group(sc.st.lastQuery.value, sc.st.hits, sc.st.lastLen.value), row);
    }
  }

  lemma SameRunFits(th: Thresholds, segs: seq<seq<seq<Field>>>, out: seq<Group>, row: seq<Field>)
    requires segs != [] && |out| == |segs| - 1 && OutFits(th, out, segs)
    ensures OutFits(th, out, segs[..|segs| - 1] + [segs[|segs| - 1] + [row]])
  {
    var r := segs[..|segs| - 1] + [segs[|segs| - 1] + [row]];
    assert forall k :: 0 <= k < |out| ==> r[k] == segs[k];
  }

  lemma NewRunFits(th: Thresholds, segs: seq<seq<seq<Field>>>, out: seq<Group>, g: Group, row: seq<Field>)
    requires segs != [] && |out| == |segs| - 1 && OutFits(th, out, segs)
    requires g.query == RunName(segs[|segs| - 1]) && Fits(th, g.hits, segs[|segs| - 1])
    ensures OutFits(th, out + [g], segs + [[row]])
  {
    var r, o := segs + [[row]], out + [g];
    assert forall k :: 0 <= k < |out| ==> r[k] == segs[k] && o[k] == out[k];
  }

  lemma {:induction false} RunContent(parseFloat: string -> Option<real>, th: Thresholds, lines: seq<string>)
    requires Run(parseFloat, th, lines).err.None?
    requires AllTruthy(QueryNames(parseFloat, lines))
    ensures ContentInv(th, RowsOf(parseFloat, lines), Run(parseFloat, th, lines))
    decreases |lines|
  {
    if lines != [] {
      var init, last := lines[..|lines| - 1], lines[|lines| - 1];
      var prev := Run(parseFloat, th, init);
      var names, all := QueryNames(parseFloat, init), QueryNames(parseFloat, lines);
      assert prev.err.None?;
      assert AllTruthy(names) by {
        assert forall k :: 0 <= k < |names| ==> names[k] == all[k];
      }
      RunContent(parseFloat, th, init);
      var rows := RowsOf(parseFloat, init);
      if !IsComment(last) {
        var row := ParseRow(parseFloat, last).value;
        assert all == names + [row[QueryNameCol]];
        assert Truthy(row[QueryNameCol]) by { assert all[|all| - 1] == row[QueryNameCol]; }
        assert RowsOf(parseFloat, lines) == rows + [row];
        StepRowContent(th, rows, prev, row);
      } else {
        assert RowsOf(parseFloat, lines) == rows;
      }
    }
  }

  /** What a group holds: with every query name truthy and no exception,
      there is one group per maximal run of rows of one query name, named
      after it; each hit of a group is the hit of a row of its run that
      passes the e-value and score tests, and with no cap (`max_hits`
      None) a group's hits are those of all such rows, in row order. */
  lemma DiskGroupHits(parseFloat: string -> Option<real>, th: Thresholds, lines: seq<string>)
    requires DiskScan(parseFloat, th, 0, lines).1.None?
    requires AllTruthy(QueryNames(parseFloat, lines))
    ensures var gs, segs := DiskScan(parseFloat, th, 0, lines).0, Segments(RowsOf(parseFloat, lines));
      && |gs| == |segs|
      && forall k :: 0 <= k < |gs| ==> gs[k].query == RunName(segs[k]) && Fits(th, gs[k].hits, segs[k])
  {
    RunContent(parseFloat, th, lines);
    var r := Run(parseFloat, th, lines);
    var segs := Segments(RowsOf(parseFloat, lines));
    if segs != [] {
      var gs := DiskScan(parseFloat, th, 0, lines).0;
      var g := Group(r.st.lastQuery.value, r.st.hits, r.st.lastLen.value);
      assert gs == r.out + [g];
      assert forall k :: 0 <= k < |r.out| ==> gs[k] == r.out[k];
    }
  }

  // ---- inconsistent query length ----

  /** Two consecutive data rows of the same query name (truthy or not)
      whose lengths differ, the first one truthy, raise. */
  lemma InconsistentLengthRaises(parseFloat: string -> Option<real>, th: Thresholds, pre: seq<string>,
                                 a: string, b: string)
    requires Run(parseFloat, th, pre + [a]).err.None?
    requires !IsComment(a) && !IsComment(b)
    requires ParseRow(parseFloat, a).Some? && ParseRow(parseFloat, b).Some?
    requires var ra, rb := ParseRow(parseFloat, a).value, ParseRow(parseFloat, b).value;
      ra[QueryNameCol] == rb[QueryNameCol]
      && Truthy(ra[QueryLenCol]) && ra[QueryLenCol] != rb[QueryLenCol]
    ensures Run(parseFloat, th, pre + [a, b]).err == Some(InconsistentQlen)
    ensures DiskScan(parseFloat, th, 0, pre + [a, b]).1 == Some(InconsistentQlen)
  {
    var lines := pre + [a, b];
    assert lines[..|lines| - 1] == pre + [a];
    var p := pre + [a];
    assert p[..|p| - 1] == pre;
    var prev := Run(parseFloat, th, pre);
    assert prev.err.None?;
  }
}
