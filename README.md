# eggNOG-mapper search layer in Dafny

A verified model of the search-result side of eggNOG-mapper's
`eggnogmapper/search.py`. This is the client code that turns the output of
the HMMER tools into hit lists. It has four parts:

- **Daemon reply decoder** (`scan_hits`, `unpack_stats`, `unpack_hit`).
  It reads the binary reply of the `hmmpgmd` search daemon. The reply is a
  16-byte status header, then a 120-byte statistics record, then `nhits`
  hit records of 152 bytes. After those come, for each hit with domains,
  its 72-byte domain records and then its alignment records (a 168-byte
  header plus `memsize` bytes each). The decoder applies the e-value and
  score thresholds and the distinct-target cap `max_hits`.
- **Domain table parser** (`hmmscan`). It reads the `--domtblout` report of
  a batch `hmmscan` run and groups its rows into one result per run of
  rows with the same query name.
- **Target table helpers**. `hmmsearch` indexes a `--tblout` report by
  query. `get_best_hit` and `refine_hit` keep the first row of a `phmmer`
  report.
- **Requests and dispatch**. `iter_seq_hits` and `get_hits` clean a
  sequence and frame it as a daemon request. `iter_hits` picks the backend.

Module layout (one file each): `Bytes` (little-endian fields, as
`struct` reads them), `Records` (record layouts, their encoders and round
trips), `DaemonScan` (the reply decoder), `Text` (`split`, `strip`,
`startswith`), `PyValues` (`safe_cast`, truthiness, Python 2 mixed-type
ordering, `int()`), `DomTable` (`hmmscan`), `TblOut` (`hmmsearch`,
`get_best_hit`, `refine_hit`), `Requests` (cleaning, framing,
`iter_seq_hits`, `get_hits`, `iter_hits`) and `Wrappers` (Option, Result).

Where the source changes state step by step, the model is a method with
loops and invariants. There are four such methods: `DaemonScan.ScanHits`
with its cursors, `DomTable.HmmScan` with its mutable group state,
`TblOut.HmmSearch` filling its dictionary, and `TblOut.GetBestHit` with
its `break`. Each method is proved equal to a specification function, and
the properties are proved about those functions.

Inputs that the source gets from outside are parameters here:

- the daemon is a function from a request string to the reply header and
  body;
- each external tool run is its exit status plus the lines of its report;
- `float()` on a string is a function that may fail;
- IEEE decoding, `exp` and floating-point multiplication are a `FloatOps`
  value.

Exceptions are `Result` failures. A generator that raises keeps what it
had already yielded: the model returns the yielded items together with
the error.

Quirks kept as written:

- With no score threshold, nothing passes the filter, on both paths. So
  `get_hits`, which never passes a score threshold, never returns a hit
  (`Requests.GetHitsFindsNothing`).
- The daemon reply is decoded using the statistics field `nhits`, not
  `nreported`.
- `last_hitname` is not reset between groups of the domain table.
- A group is flushed only when `last_query` is truthy. `safe_cast` turns a
  query named `0` into the number 0.0, which is falsy, so such a group is
  never flushed on its own.
- `hmmsearch` files each row under its query column and stores the query
  name, not the target name.
- `get_best_hit` stops at the first non-comment line, even when that line
  is blank.
- A scanned sequence reports its length after cleaning. A sequence cut by
  `maxseqlen` reports its raw length.

## Model

| member | source | states |
|---|---|---|
| `Records.ReadStats` | eggnogmapper/search.py:43-47 | statistics record "5d 2I 9q": Z at 24, elapsed at 0, `nhits` as the signed 64-bit counter at 96, within the signed 64-bit range |
| `Records.UnpackSlice` | eggnogmapper/search.py:68-77 | the slice `buf[at:at+size]` has the full record size exactly when the record lies inside the buffer, and is then those bytes; otherwise it is shorter and unpacking raises |
| `Records.ReadInPlace` | eggnogmapper/search.py:77-104 | for each record kind that lies inside the reply (statistics 120, hit 152, domain 72, alignment header 168 bytes), reading it from its own slice gives the same fields as reading it in place |
| `Records.StatsRoundTrip` | eggnogmapper/search.py:43-47 | a statistics record written anywhere in a buffer reads back as the same elapsed/Z/domZ/nhits fields |
| `Records.HitRoundTrip` | eggnogmapper/search.py:34-41 | a hit record ("3Q I 4x d 3f 4x 3d f 9I 4Q") reads back name, sum_score, log p-value and ndom at 0, 48, 56, 100 |
| `Records.DomainRoundTrip` | eggnogmapper/search.py:81-95 | the bitscore (fifth float, offset 32 of a 72-byte domain record) reads back |
| `Records.AlignmentRoundTrip` | eggnogmapper/search.py:100-106 | an alignment header reads back hmmfrom/hmmto at 88/92, sqfrom/sqto at 128/136 and memsize at 152 |
| `Bytes.I64At` | eggnogmapper/search.py:45 | a "q" field lies in the signed 64-bit range and is negative exactly when its unsigned reading is at least 2^63 |
| `Bytes.SignedRoundTrip` | eggnogmapper/search.py:45 | a signed 64-bit value written as eight little-endian bytes reads back unchanged |
| `Bytes.LEOfToLE` | eggnogmapper/search.py:38 | little-endian encoding of a value that fits, decoded again, gives the value |
| `Bytes.ToLEOfLE` | eggnogmapper/search.py:38 | decoding bytes and encoding the value again gives the bytes |
| `Bytes.U64AtIsLE` | eggnogmapper/search.py:61 | the 64-bit field read in place is the little-endian value of its eight bytes |
| `DaemonScan.EffectiveZ` | eggnogmapper/search.py:68-70 | a truthy `fixed_Z` replaces Z; a missing or zero one leaves the record's Z |
| `DaemonScan.Tuples` | eggnogmapper/search.py:86-111 | one tuple per alignment record, the j-th pairing domain j's bitscore with alignment j's coordinates |
| `DaemonScan.Contribution` | eggnogmapper/search.py:78-111 | an accepted hit contributes exactly `ndom` tuples in domain order, each carrying the hit's name, evalue and score, its own alignment's coordinates and its own domain's bitscore; a rejected hit contributes nothing |
| `DaemonScan.ScanAlignments` | eggnogmapper/search.py:83-111 | the chained alignment loop: each header is followed by its `memsize` bytes, the loop fails exactly when a header runs past the body, and the tuples are appended in order when the hit passes |
| `DaemonScan.ScanTrailer` | eggnogmapper/search.py:78-111 | a hit's trailer: nothing for `ndom = 0`, else `ndom` domain records then `ndom` alignment records, ending where the specification's trailer ends |
| `DaemonScan.ScanBlock` | eggnogmapper/search.py:76-111 | one hit record at its fixed offset plus its trailer read from the cursor, with the hit's contribution and model name added |
| `DaemonScan.ScanHits` | eggnogmapper/search.py:60-120 | the imperative decoder with its cursors, early `break` and error paths equals the reply specification `ScanResponse` |
| `DaemonScan.AlignmentsLayout` | eggnogmapper/search.py:99-107 | alignment record j lies after the headers and trailing bytes of records 0..j-1, and the chain ends after all of them |
| `DaemonScan.ParseBlockFacts` | eggnogmapper/search.py:76-107 | hit i is read at 120 + 152 i, and the next cursor lies exactly the block's trailer size further (0 for `ndom = 0`, else 72 ndom plus its alignment records) |
| `DaemonScan.BlocksLayout` | eggnogmapper/search.py:72-107 | cursor layout of a whole reply: hit i at 120 + 152 i, the first trailer at 120 + 152 n, each trailer starting where the previous one ended, domain j at 72 j past its trailer's start |
| `DaemonScan.TrailerDomains` | eggnogmapper/search.py:79-95 | the j-th domain record of a trailer is the 72 bytes at 72 j past its start |
| `DaemonScan.SelectCap` | eggnogmapper/search.py:109-114 | the names of the selected tuples are exactly the accepted model names; with `max_hits >= 1` there are at most `max_hits`, and fewer while the scan goes on |
| `DaemonScan.DistinctTargetCap` | eggnogmapper/search.py:51-114 | a decoded reply never names more than `max_hits` distinct targets |
| `DaemonScan.NoScoreThresholdSelectsNothing` | eggnogmapper/search.py:109 | with no score threshold no hit passes, whatever its e-value |
| `DaemonScan.SelectInRecordOrder` | eggnogmapper/search.py:76-114 | the output is the hits' contributions in record order, never re-sorted, up to the hit at which the cap stopped the scan |
| `DaemonScan.NoCapSelectsAll` | eggnogmapper/search.py:76-114 | with `max_hits` None, 0 or negative the scan never stops early and the output is every hit's contribution, in record order |
| `DaemonScan.RangeOverflowsBounds` | eggnogmapper/search.py:72-76 | `xrange(120, 120 + 152 * nhits, 152)` overflows a 64-bit C long exactly when `nhits` lies outside -60680079189834052 .. 60680079189834050 |
| `DaemonScan.HugeCountOverflows` | eggnogmapper/search.py:68-76 | a reply whose hit count is outside those bounds fails with the OverflowError of `xrange`, whatever follows the statistics record; a count within them never does |
| `DaemonScan.SelectStaysStopped` | eggnogmapper/search.py:113-114 | once the cap has stopped the scan, later hit records change nothing |
| `DaemonScan.StatusErrorIgnoresBody` | eggnogmapper/search.py:63-117 | a non-zero status fails with exactly `request[:50]` (the whole request when it is at most 50 characters long), whatever the body holds |
| `PyValues.SafeCastField` | eggnogmapper/search.py:27-31 | a non-numeric split field comes out of `safe_cast` unchanged as text |
| `PyValues.TextAgainstThreshold` | eggnogmapper/search.py:243 | under Python 2 ordering a text field is never at most a numeric threshold and always at least one |
| `PyValues.LessIsTotalOrder` | eggnogmapper/search.py:243 | the mixed number/text ordering used by the threshold tests is a strict total order |
| `PyValues.CoerceInt` | eggnogmapper/search.py:169-172 | `int(max_hits)`: integers kept, None for a missing value, a float gives its truncation toward zero (`Trunc`: the integer between 0 and x within distance 1 of x), text its decimal parse (`ParseDecimal`) or None |
| `PyValues.SignSpaceDigits` | eggnogmapper/search.py:169-172 | text of a sign, whitespace, then digits parses to the signed value of the digits, as Python 2 `int()` does (`int("+ 5") == 5`) |
| `PyValues.SignAloneFails` | eggnogmapper/search.py:169-172 | a sign followed by nothing but whitespace is not a number |
| `PyValues.CoerceShownInt` | eggnogmapper/search.py:170 | an integer given as its decimal text coerces to the same integer |
| `Text.SplitKeepsText` | eggnogmapper/search.py:227 | `split()` loses exactly the whitespace: its fields, concatenated, are the non-whitespace characters in order |
| `Text.SplitFields` | eggnogmapper/search.py:227 | every field of `split()` is non-empty and holds no whitespace |
| `Text.SplitJoin` | eggnogmapper/search.py:268 | fields without whitespace joined by spaces split back into the same fields |
| `Text.StripRemovesOnlySpace` | eggnogmapper/search.py:31 | `strip()` removes whitespace at both ends and nothing else |
| `DomTable.ParseRow` | eggnogmapper/search.py:227-229 | a row unpacks exactly when it has at least 22 fields, giving `safe_cast` of each of the first 22 |
| `DomTable.HmmScan` | eggnogmapper/search.py:203-249 | the imperative line loop with `last_query`, `last_hitname`, `hit_list`, `hit_ids` and `last_query_len` equals the specification `DiskScan`: nothing at all on a non-zero exit, the flushed groups, then the last group when `last_query` is truthy |
| `DomTable.CommentsIgnored` | eggnogmapper/search.py:225-226 | the scan of a report equals the scan of its non-`#` lines alone |
| `DomTable.StepRowCap` | eggnogmapper/search.py:231-246 | one row keeps `hit_ids` equal to the names in `hit_list`, within `max_hits`, with `last_hitname` among them once non-empty |
| `DomTable.DiskCap` | eggnogmapper/search.py:243-249 | with `max_hits >= 1` every emitted group holds at most `max_hits` distinct hit names, although `last_hitname` carries over between groups |
| `DomTable.NoScoreThresholdNoHits` | eggnogmapper/search.py:243 | with no score threshold every emitted group is empty |
| `DomTable.DiskGroups` | eggnogmapper/search.py:231-249 | with truthy query names and no exception, the groups are named after the runs of equal adjacent query names, in order; adjacent groups differ, a non-contiguous repeat gets its own group, the last group is emitted iff a data row was seen |
| `DomTable.InconsistentLengthRaises` | eggnogmapper/search.py:231-240 | two consecutive rows of the same query name, truthy or not, whose lengths differ, the first truthy, end the scan with the length error |
| `DomTable.Runs` | eggnogmapper/search.py:231-238 | collapsing runs of equal names gives at most as many names, is empty only for the empty input, and ends with the input's last name |
| `DomTable.SegmentsMaximal` | eggnogmapper/search.py:231-238 | the rows cut at each change of query name form non-empty runs of one name, adjacent runs differing in name |
| `DomTable.SegmentsCover` | eggnogmapper/search.py:225-238 | those runs put back together are exactly the data rows, in order |
| `DomTable.Passing` | eggnogmapper/search.py:243-245 | every hit listed for a run is `HitOf` a row of that run that passes the e-value and score tests |
| `DomTable.DiskGroupHits` | eggnogmapper/search.py:225-249 | with truthy query names and no exception, one group per run, named after it; each hit of a group comes from a passing row of its run, and with `max_hits` None the group's hits are those of all passing rows of its run, in row order |
| `TblOut.ParseTblRow` | eggnogmapper/search.py:268-271 | a row is accepted iff it has at least ten fields and fields 4 to 9 all convert with `float()`; fewer fields give the unpacking error, a field among 4 to 9 that does not convert gives the float error; an accepted row is keyed by field 2 and carries the `float()` of fields 4 and 5 |
| `TblOut.Append` | eggnogmapper/search.py:271 | appending to a `defaultdict(list)`: the key is added, its list grows by the entry, other keys are untouched |
| `TblOut.HmmSearch` | eggnogmapper/search.py:255-274 | the imperative loop equals the fold `HmmSearchSpec`: an empty table on a non-zero exit, else rows filed in order, stopping at the first bad row |
| `TblOut.ByQueryIsPerQueryFilter` | eggnogmapper/search.py:261-274 | the table has a key exactly for each query with a row, and under it that query's entries in row order |
| `TblOut.FirstDataLine` | eggnogmapper/search.py:298-304 | the index found is a non-comment line preceded only by comment lines; none is found only when every line is a comment |
| `TblOut.BestHit` | eggnogmapper/search.py:296-319 | a non-zero exit raises; otherwise fields 0, 4 and 5 of the first data line when it has six or more fields, the IndexError iff it has one to five, and the dashes iff there is no data line, it splits to nothing, or its fields 0, 4, 5 are themselves dashes |
| `TblOut.GetBestHit` | eggnogmapper/search.py:294-319 | the loop with its `break` equals `BestHit` |
| `TblOut.RefineHit` | eggnogmapper/search.py:279-288 | the sequence name prepended to the best hit, or the best hit's error |
| `TblOut.NoHitGivesDashes` | eggnogmapper/search.py:296-319 | no data row before a blank one gives `[name, '-', '-', '-']`, whatever follows |
| `TblOut.FirstRowDecides` | eggnogmapper/search.py:298-319 | after comment lines only, the first data line decides the result whatever follows: its fields 0, 4, 5 with six or more fields, the IndexError iff one to five, the dashes when it is blank |
| `Requests.CleanLeavesNoPair` | eggnogmapper/search.py:160 | after `re.sub("-.", "", seq)` every remaining `-` ends the string or precedes a newline |
| `Requests.CleanKeepsClean` | eggnogmapper/search.py:160 | a sequence without such a pair is left unchanged |
| `Requests.CleanIdempotent` | eggnogmapper/search.py:160 | cleaning twice is cleaning once |
| `Requests.CleanRemovesPairs` | eggnogmapper/search.py:160 | characters are deleted two at a time |
| `Requests.RequestRoundTrip` | eggnogmapper/search.py:161 | the framed request `@--<dbtype> 1\n><name>\n<seq>\n//` splits back into its database type, name and sequence |
| `Requests.SeqOutcome` | eggnogmapper/search.py:149-165 | a record yields nothing iff skipped or empty; an over-long one yields `(name, -1, [], raw length)`; any other one is the daemon's reply to `Request(dbtype, name, Clean(seq))` decoded by `ScanResponse`: its error, or its elapsed time and hits under the record's name with the cleaned length |
| `Requests.IterSeqHits` | eggnogmapper/search.py:146-165 | result k is the outcome of the k-th yielding record; without an exception every yielding record has its result; after one, the results are exactly those of the yielding records before the one whose scan raised it |
| `Requests.TooLongSendsNothing` | eggnogmapper/search.py:153-155 | an over-long record's outcome does not depend on the daemon |
| `Requests.ResultsFollowRecords` | eggnogmapper/search.py:149-165 | without an exception, one result per yielding record, in record order |
| `Requests.SeqNoScoreThreshold` | eggnogmapper/search.py:162 | with no score threshold every yielded query has no hits |
| `Requests.SeqDistinctCap` | eggnogmapper/search.py:162 | with `max_hits >= 1` every query names at most `max_hits` targets |
| `Requests.GetHitsFindsNothing` | eggnogmapper/search.py:183-187 | `get_hits` passes no score threshold, so it never returns a hit |
| `Requests.IterHits` | eggnogmapper/search.py:167-181 | the daemon path iff mode `mem` and query `seq`; the name error iff `mem`/`hmm`/`seqdb`; the batch path iff `disk`/`seq`; otherwise not supported; `max_hits` coerced by `int()`, only thresholds and cap passed on |
| `Requests.DispatchedDaemonYieldsEveryRecord` | eggnogmapper/search.py:174-175 | through `iter_hits` the daemon path skips nothing and cuts nothing: one result per non-empty sequence, in order |
| `Requests.NoScoreThresholdEitherBackend` | eggnogmapper/search.py:174-179 | without a score threshold every result of either backend is empty |

## Left out

- Sockets: connecting, `sendall`, `recv(16)` and the `recv(4096)`
  accumulation loop are transport. The reply header and body are inputs,
  and the body-length field is not used. The accumulation loop, which
  can spin forever if the peer closes, is not modelled.
- External processes and files: `subprocess.call`, `os.system`, temporary
  files, uuid names, translation of the query file and the prints are
  I/O. A tool run is its exit status and its report lines. The
  `>name\nseq` query file that `refine_hit` writes for `phmmer` is such a
  file and is not modelled.
- The FASTA reader that `iter_seq_hits` iterates over is not part of this
  model, and neither is its `translate` option. The records are given as
  (name, sequence) pairs.
- Floating point: IEEE decoding of f32/f64 fields, `math.exp` and the
  product `exp(pvalue) * Z` are uninterpreted functions of `FloatOps`, and
  `float()` on text is a parameter returning a real or nothing. NaN and
  infinities are therefore not modelled: a NaN query name or length that
  compares unequal to itself is outside the model.
- `iter_hmm_hits`: it is driven by file offsets and always fails on its
  misspelt `fixed_X` keyword. Only the dispatch decision that reaches it
  is modelled: `iter_hits` calls it with an undefined variable, which
  raises.
- The parallel fan-out of `refine_hit` over a worker pool is concurrency.
  Only one unit of work is modelled.
- `B62_IDENTITIES` is unused.
- `download_eggnog_data.py` is shell commands and prompts and is not part
  of this model.
- The elapsed value that `hmmscan` yields is the constant 0. `DomTable.Group`
  does not store it.
- `Requests.SeqOutcome`: the -1 elapsed value of an over-long sequence is
  the integer -1 in the source. Here it is the real -1.0, so that the
  field has a single type.
- `DaemonScan.ScanHits`: the OverflowError of `xrange` is modelled for a
  64-bit C long, the usual build; on a 32-bit build the bounds are smaller.
- `DomTable.HmmScan`: the source raises the misspelt `ValuerError`, which
  escapes as a NameError. The model has a single error value for it,
  `InconsistentQlen`.
