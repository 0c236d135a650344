/** The chunk-splitting rule of `extract_chunk`: the lines whose index lies in
    `[begin, end]` are written, in order, to a sequence of output files (the
    chunks).  `count` counts every line read (the lines before `begin`
    included, and it is reset to 0 when a new chunk is started); a window
    line starts a new chunk when its first field differs from that of the
    previous written line and a period is given with `count >= period`.  The
    first line past `end` stops the scan. */
module Chunks {
  import opened Seqs
  import opened Tokenizer

  /** Python's `IndexError` on `data[0]`: the window line at index `line`
      has no field. */
  datatype ChunkError = NoFields(line: nat)

  /** The loop's state: the chunks written so far (the last one is the open
      output file), `count`, and the first field of the last written line. */
  datatype Writer = Writer(chunks: seq<seq<string>>, count: int, last: Option<string>)

  const Initial: Writer := Writer([[]], 0, None)

  /** The leading field of a line (`extract_fields(line)[0]`), or `None`
      when the line has no field. */
  function Lead(line: string): Option<string> {
    var fs := Fields(line);
    if |fs| == 0 then None else Some(fs[0])
  }

  /** The leading field of every line, in order. */
  function Leads(lines: seq<string>): (r: seq<Option<string>>)
    ensures |r| == |lines|
  {
    if |lines| == 0 then [] else Leads(lines[..|lines| - 1]) + [Lead(lines[|lines| - 1])]
  }

  lemma {:induction false} LeadsAt(lines: seq<string>, i: nat)
    requires i < |lines|
    ensures Leads(lines)[i] == Lead(lines[i])
    decreases |lines|
  {
    if i < |lines| - 1 {
      var p := lines[..|lines| - 1];
      LeadsAt(p, i);
      assert p[i] == lines[i];
    }
  }

  function Last<T>(s: seq<T>): T
    requires s != []
  {
    s[|s| - 1]
  }

  /** `ofile.write(line)`: the line is added to the open chunk. */
  function Write(chunks: seq<seq<string>>, line: string): seq<seq<string>>
    requires chunks != []
  {
    chunks[..|chunks| - 1] + [Last(chunks) + [line]]
  }

  /** Writing extends the open chunk by the line and leaves the others. */
  lemma WriteParts(chunks: seq<seq<string>>, line: string)
    requires chunks != []
    ensures var r := Write(chunks, line);
            |r| == |chunks| && Last(r) == Last(chunks) + [line]
            && forall k :: 0 <= k < |chunks| - 1 ==> r[k] == chunks[k]
  {
  }

  /** The condition under which a window line opens a new output file. */
  predicate Splits(w: Writer, lead: Option<string>, period: Option<int>) {
    lead != w.last && period.Some? && w.count >= period.value
  }

  /** One iteration of the line loop, for the line at index `i` whose
      leading field is `lead`. */
  function Feed(w: Writer, i: nat, line: string, lead: Option<string>, begin: int, end: int, period: Option<int>): (r: Result<Writer, ChunkError>)
    requires w.chunks != []
    ensures r.Ok? ==> r.value.chunks != []
  {
    if begin <= i <= end then
      if lead.None? then Err(NoFields(i))
      else
        var w' := if Splits(w, lead, period) then Writer(w.chunks + [[]], 0, w.last) else w;
        Ok(Writer(Write(w'.chunks, line), w'.count + 1, lead))
    else if end < i then Ok(w)
    else Ok(w.(count := w.count + 1))
  }

  /** The state after the first `n` lines (later lines past `end` change
      nothing, standing for the `break`).  The leading field is read from
      `Leads(lines)` rather than as `Lead(lines[n - 1])`; the two are equal
      (`LeadsAt`), and this form keeps the tokenizer out of the proofs
      about the loop. */
  function FeedTo(lines: seq<string>, n: nat, begin: int, end: int, period: Option<int>): (r: Result<Writer, ChunkError>)
    requires n <= |lines|
    ensures r.Ok? ==> r.value.chunks != []
  {
    if n == 0 then Ok(Initial)
    else
      match FeedTo(lines, n - 1, begin, end, period)
      case Err(e) => Err(e)
      case Ok(w) => Feed(w, n - 1, lines[n - 1], Leads(lines)[n - 1], begin, end, period)
  }

  /** The chunks `extract_chunk` writes, or the index error. */
  function Chunks(lines: seq<string>, begin: int, end: int, period: Option<int>): Result<seq<seq<string>>, ChunkError> {
    match FeedTo(lines, |lines|, begin, end, period)
    case Ok(w) => Ok(w.chunks)
    case Err(e) => Err(e)
  }

  // ---------------------------------------------------------------------
  // The loop.

  /** One more line, case by case. */
  lemma FeedToNext(lines: seq<string>, i: nat, w: Writer, begin: int, end: int, period: Option<int>)
    requires i < |lines| && FeedTo(lines, i, begin, end, period) == Ok(w)
    ensures begin <= i <= end && Lead(lines[i]).None? ==>
              FeedTo(lines, i + 1, begin, end, period) == Err(NoFields(i))
    ensures begin <= i <= end && Lead(lines[i]).Some? ==>
              FeedTo(lines, i + 1, begin, end, period) == Ok(Written(w, lines[i], Splits(w, Lead(lines[i]), period)))
    ensures end < i ==> FeedTo(lines, i + 1, begin, end, period) == Ok(w)
    ensures i < begin && i <= end ==> FeedTo(lines, i + 1, begin, end, period) == Ok(w.(count := w.count + 1))
  {
    FeedToStep(lines, i, w, begin, end, period);
    if begin <= i <= end && Lead(lines[i]).Some? {
      FeedWindow(w, i, lines[i], begin, end, period);
    }
  }

  /** The next line is fed with its own leading field. */
  lemma FeedToStep(lines: seq<string>, i: nat, w: Writer, begin: int, end: int, period: Option<int>)
    requires i < |lines| && FeedTo(lines, i, begin, end, period) == Ok(w)
    ensures FeedTo(lines, i + 1, begin, end, period) == Feed(w, i, lines[i], Lead(lines[i]), begin, end, period)
  {
    LeadsAt(lines, i);
  }

  /** After an error nothing more happens. */
  lemma {:induction false} ErrSticks(lines: seq<string>, n: nat, m: nat, begin: int, end: int, period: Option<int>)
    requires n <= m <= |lines| && FeedTo(lines, n, begin, end, period).Err?
    ensures FeedTo(lines, m, begin, end, period) == FeedTo(lines, n, begin, end, period)
    decreases m
  {
    if m > n {
      ErrSticks(lines, n, m - 1, begin, end, period);
    }
  }

  /** Lines past `end` change nothing. */
  lemma {:induction false} TailIgnored(lines: seq<string>, n: nat, m: nat, begin: int, end: int, period: Option<int>)
    requires end < n <= m <= |lines|
    ensures FeedTo(lines, m, begin, end, period) == FeedTo(lines, n, begin, end, period)
    decreases m
  {
    if m > n {
      TailIgnored(lines, n, m - 1, begin, end, period);
    }
  }

  /** The state after a window line, with `split` saying whether it opened
      a new chunk. */
  function Written(w: Writer, line: string, split: bool): Writer
    requires w.chunks != []
  {
    if split then Writer(w.chunks + [[line]], 1, Lead(line))
    else Writer(Write(w.chunks, line), w.count + 1, Lead(line))
  }

  lemma FeedWindow(w: Writer, i: nat, line: string, begin: int, end: int, period: Option<int>)
    requires w.chunks != [] && begin <= i <= end && Lead(line).Some?
    ensures Feed(w, i, line, Lead(line), begin, end, period) == Ok(Written(w, line, Splits(w, Lead(line), period)))
  {
    WriteAfterSplit(w.chunks, line);
  }

  /** Writing to a freshly opened chunk. */
  lemma WriteAfterSplit(chunks: seq<seq<string>>, line: string)
    ensures Write(chunks + [[]], line) == chunks + [[line]]
  {
    var c := chunks + [[]];
    assert c[..|c| - 1] == chunks;
    assert Last(c) + [line] == [line];
  }

  /** The body of the line loop for a line inside the window: split off a
      new output file when the rule says so, then write the line.  `ok` is
      false when the line has no field, where `data[0]` fails. */
  method WriteWindowLine(chunks: seq<seq<string>>, count: int, last: Option<string>, line: string,
                         period: Option<int>)
    returns (ok: bool, chunks': seq<seq<string>>, count': int, last': Option<string>)
    requires chunks != []
    ensures ok <==> Lead(line).Some?
    ensures ok ==> var w := Writer(chunks, count, last);
                   Writer(chunks', count' + 1, last') == Written(w, line, Splits(w, Lead(line), period))
  {
    var data := ExtractFields(line);
    if |data| == 0 {
      return false, chunks, count, last;
    }
    ok, chunks', count', last' := true, chunks, count, last;
    if Some(data[0]) != last' && period.Some? && count' >= period.value {
      count' := 0;
      chunks' := chunks' + [[]];
      WriteAfterSplit(chunks, line);
    }
    chunks' := Write(chunks', line);
    last' := Some(data[0]);
  }

  lemma FeedToStart(lines: seq<string>, begin: int, end: int, period: Option<int>)
    ensures FeedTo(lines, 0, begin, end, period) == Ok(Writer([[]], 0, None))
  {
  }

  lemma FailedChunks(lines: seq<string>, i: nat, begin: int, end: int, period: Option<int>)
    requires i < |lines| && FeedTo(lines, i + 1, begin, end, period) == Err(NoFields(i))
    ensures Chunks(lines, begin, end, period) == Err(NoFields(i))
  {
    ErrSticks(lines, i + 1, |lines|, begin, end, period);
  }

  lemma StoppedChunks(lines: seq<string>, i: nat, w: Writer, begin: int, end: int, period: Option<int>)
    requires i <= |lines| && FeedTo(lines, i, begin, end, period) == Ok(w)
    requires i == |lines| || end < i
    ensures Chunks(lines, begin, end, period) == Ok(w.chunks)
  {
    if i < |lines| {
      TailIgnored(lines, i, |lines|, begin, end, period);
    }
  }

  /** What one iteration of the line loop did. */
  datatype Outcome = Continued | Stopped | Failed

  /** The body of the line loop for the line at index `i`: a window line is
      written (`Failed` when `data[0]` fails), the first line past `end`
      breaks out of the loop, and otherwise `count` goes up. */
  method ReadLine(lines: seq<string>, i: nat, chunks: seq<seq<string>>, count: int, last: Option<string>,
                  begin: int, end: int, period: Option<int>)
    returns (outcome: Outcome, chunks': seq<seq<string>>, count': int, last': Option<string>)
    requires i < |lines| && FeedTo(lines, i, begin, end, period) == Ok(Writer(chunks, count, last))
    ensures outcome == Failed ==> FeedTo(lines, i + 1, begin, end, period) == Err(NoFields(i))
    ensures outcome == Stopped ==> end < i && chunks' == chunks && count' == count && last' == last
    ensures outcome == Continued ==> FeedTo(lines, i + 1, begin, end, period) == Ok(Writer(chunks', count', last'))
  {
    FeedToNext(lines, i, Writer(chunks, count, last), begin, end, period);
    outcome, chunks', count', last' := Continued, chunks, count, last;
    if begin <= i <= end {
      var ok;
      ok, chunks', count', last' := WriteWindowLine(chunks, count, last, lines[i], period);
      if !ok {
        return Failed, chunks, count, last;
      }
    } else if end < i {
      return Stopped, chunks, count, last;
    }
    count' := count' + 1;
  }

  /** `extract_chunk` as the source writes it, with the output files as the
      returned chunks. */
  method ExtractChunk(lines: seq<string>, begin: int, end: int, period: Option<int>)
    returns (r: Result<seq<seq<string>>, ChunkError>)
    ensures r == Chunks(lines, begin, end, period)
  {
    FeedToStart(lines, begin, end, period);
    var chunks: seq<seq<string>> := [[]];
    var i := 0;
    var count := 0;
    var last: Option<string> := None;
    while i < |lines|
      invariant i <= |lines|
      invariant FeedTo(lines, i, begin, end, period) == Ok(Writer(chunks, count, last))
    {
      var outcome;
      outcome, chunks, count, last := ReadLine(lines, i, chunks, count, last, begin, end, period);
      if outcome == Failed {
        FailedChunks(lines, i, begin, end, period);
        return Err(NoFields(i));
      } else if outcome == Stopped {
        break;
      }
      i := i + 1;
    }
    StoppedChunks(lines, i, Writer(chunks, count, last), begin, end, period);
    r := Ok(chunks);
  }

  // ---------------------------------------------------------------------
  // Every window line is written once, in order.

  function Clamp(x: int, lo: int, hi: int): (r: int)
    requires lo <= hi
    ensures lo <= r <= hi
  {
    if x < lo then lo else if x > hi then hi else x
  }

  /** The first window index among `n` lines, and one past the last. */
  function WindowLo(n: nat, begin: int): nat {
    Clamp(begin, 0, n)
  }

  function WindowHi(n: nat, begin: int, end: int): (r: nat)
    ensures WindowLo(n, begin) <= r <= n
  {
    Clamp(end + 1, WindowLo(n, begin), n)
  }

  lemma FlattenWrite(chunks: seq<seq<string>>, line: string)
    requires chunks != []
    ensures Flatten(Write(chunks, line)) == Flatten(chunks) + [line]
  {
    var p := chunks[..|chunks| - 1];
    assert chunks == p + [Last(chunks)];
    assert Write(chunks, line) == p + [Last(chunks) + [line]];
    FlattenSnoc(p, Last(chunks));
    FlattenSnoc(p, Last(chunks) + [line]);
  }

  lemma SliceSnoc<T>(s: seq<T>, lo: nat, n: nat)
    requires lo < n <= |s|
    ensures s[lo..n] == s[lo..n - 1] + [s[n - 1]]
  {
  }

  /** How the window bounds move from `n` lines to `n + 1`. */
  lemma WindowStep(n: nat, begin: int, end: int)
    ensures begin <= n <= end ==>
              WindowLo(n + 1, begin) == WindowLo(n, begin) && WindowHi(n, begin, end) == n
              && WindowHi(n + 1, begin, end) == n + 1
    ensures !(begin <= n <= end) ==>
              (WindowLo(n + 1, begin) == WindowLo(n, begin) && WindowHi(n + 1, begin, end) == WindowHi(n, begin, end))
              || (WindowLo(n, begin) == WindowHi(n, begin, end) && WindowLo(n + 1, begin) == WindowHi(n + 1, begin, end))
  {
  }

  /** One more line extends the written lines by the line when it lies in
      the window, and leaves them alone otherwise. */
  lemma WindowNext(lines: seq<string>, i: nat, w: Writer, r: Result<Writer, ChunkError>, split: bool,
                   begin: int, end: int)
    requires i < |lines| && w.chunks != [] && r.Ok?
    requires Flatten(w.chunks) == lines[WindowLo(i, begin)..WindowHi(i, begin, end)]
    requires begin <= i <= end ==>
               r.value.chunks == if split then w.chunks + [[lines[i]]] else Write(w.chunks, lines[i])
    requires !(begin <= i <= end) ==> r.value.chunks == w.chunks
    ensures Flatten(r.value.chunks) == lines[WindowLo(i + 1, begin)..WindowHi(i + 1, begin, end)]
  {
    WindowStep(i, begin, end);
    var lo := WindowLo(i, begin);
    if begin <= i <= end {
      if split {
        FlattenSnoc(w.chunks, [lines[i]]);
      } else {
        FlattenWrite(w.chunks, lines[i]);
      }
      SliceSnoc(lines, lo, i + 1);
    }
  }

  lemma {:induction false} WindowPrefix(lines: seq<string>, n: nat, begin: int, end: int, period: Option<int>)
    requires n <= |lines| && FeedTo(lines, n, begin, end, period).Ok?
    ensures Flatten(FeedTo(lines, n, begin, end, period).value.chunks)
            == lines[WindowLo(n, begin)..WindowHi(n, begin, end)]
    decreases n
  {
    if n > 0 {
      var i := n - 1;
      var w := FeedTo(lines, i, begin, end, period).value;
      WindowPrefix(lines, i, begin, end, period);
      FeedToNext(lines, i, w, begin, end, period);
      WindowNext(lines, i, w, FeedTo(lines, n, begin, end, period), Splits(w, Lead(lines[i]), period), begin, end);
    }
  }

  /** Concatenated in order, the chunks are exactly the lines with index in
      `[begin, end]`. */
  lemma ChunksWindow(lines: seq<string>, begin: int, end: int, period: Option<int>)
    requires Chunks(lines, begin, end, period).Ok?
    ensures Flatten(Chunks(lines, begin, end, period).value)
            == lines[WindowLo(|lines|, begin)..WindowHi(|lines|, begin, end)]
  {
    WindowPrefix(lines, |lines|, begin, end, period);
  }

  // ---------------------------------------------------------------------
  // When the index error happens.

  /** A window line without a field. */
  predicate Blank(lines: seq<string>, i: nat, begin: int, end: int)
    requires i < |lines|
  {
    begin <= i <= end && |Fields(lines[i])| == 0
  }

  /** What the error of the first `n` lines tells: it happens exactly when
      one of them is blank, and then names the first blank one. */
  ghost predicate ErrFacts(lines: seq<string>, n: nat, r: Result<Writer, ChunkError>, begin: int, end: int)
    requires n <= |lines|
  {
    && (r.Ok? <==> forall i :: 0 <= i < n ==> !Blank(lines, i, begin, end))
    && (r.Err? ==> r.error.line < n && Blank(lines, r.error.line, begin, end)
                   && forall i :: 0 <= i < r.error.line ==> !Blank(lines, i, begin, end))
  }

  lemma ErrNext(lines: seq<string>, i: nat, r0: Result<Writer, ChunkError>, r1: Result<Writer, ChunkError>,
                begin: int, end: int)
    requires i < |lines| && ErrFacts(lines, i, r0, begin, end)
    requires r0.Err? ==> r1 == r0
    requires r0.Ok? && Blank(lines, i, begin, end) ==> r1 == Err(NoFields(i))
    requires r0.Ok? && !Blank(lines, i, begin, end) ==> r1.Ok?
    ensures ErrFacts(lines, i + 1, r1, begin, end)
  {
  }

  lemma {:induction false} ErrPrefix(lines: seq<string>, n: nat, begin: int, end: int, period: Option<int>)
    requires n <= |lines|
    ensures ErrFacts(lines, n, FeedTo(lines, n, begin, end, period), begin, end)
    decreases n
  {
    if n > 0 {
      var i := n - 1;
      ErrPrefix(lines, i, begin, end, period);
      var r := FeedTo(lines, i, begin, end, period);
      if r.Ok? {
        FeedToNext(lines, i, r.value, begin, end, period);
      }
      ErrNext(lines, i, r, FeedTo(lines, n, begin, end, period), begin, end);
    }
  }

  /** The index error happens exactly when some window line has no field,
      and it names the first such line. */
  lemma ChunksError(lines: seq<string>, begin: int, end: int, period: Option<int>)
    ensures var r := Chunks(lines, begin, end, period);
            && (r.Err? <==> exists i :: 0 <= i < |lines| && Blank(lines, i, begin, end))
            && (r.Err? ==> r.error.line < |lines| && Blank(lines, r.error.line, begin, end)
                           && forall i :: 0 <= i < r.error.line ==> !Blank(lines, i, begin, end))
  {
    ErrPrefix(lines, |lines|, begin, end, period);
  }

  // ---------------------------------------------------------------------
  // The split rule.

  /** The lines counted before the first window line: those with index below
      both `begin` and `end + 1`. */
  function Before(n: nat, begin: int, end: int): nat {
    var x := if begin < end + 1 then begin else end + 1;
    if x < 0 then 0 else if x < n then x else n
  }

  /** How far `count` had got when chunk `k` was opened. */
  function Offset(k: nat, lo: nat): nat {
    if k == 0 then lo else 0
  }

  /** Only the first chunk can be empty. */
  ghost predicate Opened(chunks: seq<seq<string>>) {
    chunks != [] && forall k :: 1 <= k < |chunks| ==> chunks[k] != []
  }

  /** A chunk boundary lies where the leading field changes and `count` had
      reached the period. */
  ghost predicate SplitsJustified(chunks: seq<seq<string>>, lo: nat, period: Option<int>) {
    && (|chunks| > 1 ==> period.Some?)
    && forall k :: 0 <= k < |chunks| - 1 ==>
      && Offset(k, lo) + |chunks[k]| >= period.value
      && (chunks[k] != [] && chunks[k + 1] != [] ==> Lead(chunks[k + 1][0]) != Lead(Last(chunks[k])))
  }

  /** Inside a chunk whose `count` started at `off`, a line whose leading
      field differs from that of the line before it came while `count` was
      still below the period. */
  ghost predicate TakenIn(a: seq<string>, off: nat, period: int) {
    forall j :: 1 <= j < |a| && Lead(a[j]) != Lead(a[j - 1]) ==> off + j < period
  }

  /** Where a written line does not open a chunk although its leading field
      differs from the line before it, or although it is the first written
      line, `count` was below the period. */
  ghost predicate SplitsTaken(chunks: seq<seq<string>>, lo: nat, period: Option<int>) {
    && (chunks != [] && chunks[0] != [] && period.Some? ==> lo < period.value)
    && forall k :: 0 <= k < |chunks| && period.Some? ==> TakenIn(chunks[k], Offset(k, lo), period.value)
  }

  /** What `count` and `last` hold between iterations. */
  ghost predicate Tracks(w: Writer, lo: nat) {
    && w.chunks != []
    && w.count == Offset(|w.chunks| - 1, lo) + |Last(w.chunks)|
    && w.last == (if Last(w.chunks) == [] then None else Lead(Last(Last(w.chunks))))
  }

  ghost predicate Shaped(w: Writer, lo: nat, period: Option<int>) {
    Opened(w.chunks) && Tracks(w, lo) && SplitsJustified(w.chunks, lo, period) && SplitsTaken(w.chunks, lo, period)
  }

  /** Before the window nothing is written and every line is counted. */
  lemma {:induction false} Prelude(lines: seq<string>, n: nat, begin: int, end: int, period: Option<int>)
    requires n <= |lines| && n <= begin && n <= end + 1
    ensures FeedTo(lines, n, begin, end, period) == Ok(Writer([[]], n, None))
    decreases n
  {
    if n > 0 {
      Prelude(lines, n - 1, begin, end, period);
    }
  }

  lemma WriteOpened(c: seq<seq<string>>, line: string)
    requires Opened(c)
    ensures Opened(Write(c, line))
  {
    var c' := Write(c, line);
    WriteParts(c, line);
    forall k | 1 <= k < |c'| ensures c'[k] != [] {
      if k < |c| - 1 {
        assert c'[k] == c[k];
      }
    }
  }

  lemma WriteJustified(c: seq<seq<string>>, line: string, lo: nat, period: Option<int>)
    requires Opened(c) && SplitsJustified(c, lo, period)
    ensures SplitsJustified(Write(c, line), lo, period)
  {
    var c' := Write(c, line);
    WriteParts(c, line);
    var K := |c| - 1;
    forall k | 0 <= k < |c'| - 1
      ensures Offset(k, lo) + |c'[k]| >= period.value
      ensures c'[k] != [] && c'[k + 1] != [] ==> Lead(c'[k + 1][0]) != Lead(Last(c'[k]))
    {
      assert c'[k] == c[k];
      if k + 1 == K {
        assert c'[k + 1] == c[K] + [line];
        assert c'[k + 1][0] == c[k + 1][0];
      } else {
        assert c'[k + 1] == c[k + 1];
      }
    }
  }

  /** A written line whose leading field differs from the last one did not
      open a chunk only because `count` was below the period. */
  lemma NoSplitBelow(w: Writer, line: string, lo: nat, period: Option<int>)
    requires Tracks(w, lo) && !Splits(w, Lead(line), period) && period.Some?
    requires if Last(w.chunks) == [] then Lead(line).Some? else Lead(line) != Lead(Last(Last(w.chunks)))
    ensures w.count < period.value
  {
  }

  lemma TakenSnoc(a: seq<string>, line: string, off: nat, period: int)
    requires TakenIn(a, off, period)
    requires a != [] && Lead(line) != Lead(Last(a)) ==> off + |a| < period
    ensures TakenIn(a + [line], off, period)
  {
    var a' := a + [line];
    forall j | 1 <= j < |a'| && Lead(a'[j]) != Lead(a'[j - 1]) ensures off + j < period {
      if j < |a| {
        assert a'[j] == a[j] && a'[j - 1] == a[j - 1];
      } else {
        assert a'[j - 1] == Last(a);
      }
    }
  }

  /** The open chunk, extended by a line written without a split. */
  lemma WriteTakenLast(w: Writer, line: string, lo: nat, period: Option<int>)
    requires Tracks(w, lo) && SplitsTaken(w.chunks, lo, period)
    requires !Splits(w, Lead(line), period) && period.Some?
    ensures TakenIn(Last(w.chunks) + [line], Offset(|w.chunks| - 1, lo), period.value)
  {
    var a := Last(w.chunks);
    assert TakenIn(w.chunks[|w.chunks| - 1], Offset(|w.chunks| - 1, lo), period.value);
    if a != [] && Lead(line) != Lead(Last(a)) {
      NoSplitBelow(w, line, lo, period);
    }
    TakenSnoc(a, line, Offset(|w.chunks| - 1, lo), period.value);
  }

  lemma WriteTakenPairs(w: Writer, line: string, lo: nat, period: Option<int>)
    requires Opened(w.chunks) && Tracks(w, lo) && SplitsTaken(w.chunks, lo, period)
    requires !Splits(w, Lead(line), period) && period.Some?
    ensures var c' := Write(w.chunks, line);
            forall k :: 0 <= k < |c'| ==> TakenIn(c'[k], Offset(k, lo), period.value)
  {
    var c := w.chunks;
    var c' := Write(c, line);
    WriteParts(c, line);
    WriteTakenLast(w, line, lo, period);
    forall k | 0 <= k < |c'| ensures TakenIn(c'[k], Offset(k, lo), period.value) {
      if k < |c| - 1 {
        assert c'[k] == c[k];
      } else {
        assert c'[k] == Last(c');
      }
    }
  }

  lemma WriteTaken(w: Writer, line: string, lo: nat, period: Option<int>)
    requires Opened(w.chunks) && Tracks(w, lo) && SplitsTaken(w.chunks, lo, period)
    requires !Splits(w, Lead(line), period) && Lead(line).Some?
    ensures SplitsTaken(Write(w.chunks, line), lo, period)
  {
    var c := w.chunks;
    var c' := Write(c, line);
    WriteParts(c, line);
    if |c| == 1 && c[0] == [] && period.Some? {
      NoSplitBelow(w, line, lo, period);
    } else if |c| > 1 {
      assert c'[0] == c[0];
    }
    if period.Some? {
      WriteTakenPairs(w, line, lo, period);
    }
  }

  /** A window line written without a split keeps the shape. */
  lemma WriteShaped(w: Writer, line: string, lo: nat, period: Option<int>)
    requires Shaped(w, lo, period) && !Splits(w, Lead(line), period) && Lead(line).Some?
    ensures Shaped(Writer(Write(w.chunks, line), w.count + 1, Lead(line)), lo, period)
  {
    WriteOpened(w.chunks, line);
    WriteJustified(w.chunks, line, lo, period);
    WriteTaken(w, line, lo, period);
  }

  lemma SplitJustified(w: Writer, line: string, lo: nat, period: Option<int>)
    requires Opened(w.chunks) && Tracks(w, lo) && SplitsJustified(w.chunks, lo, period)
    requires Splits(w, Lead(line), period)
    ensures SplitsJustified(w.chunks + [[line]], lo, period)
  {
    var c := w.chunks;
    var c' := c + [[line]];
    forall k | 0 <= k < |c'| - 1
      ensures Offset(k, lo) + |c'[k]| >= period.value
      ensures c'[k] != [] && c'[k + 1] != [] ==> Lead(c'[k + 1][0]) != Lead(Last(c'[k]))
    {
      assert c'[k] == c[k];
      if k + 1 < |c| {
        assert c'[k + 1] == c[k + 1];
      }
    }
  }

  lemma SplitTaken(c: seq<seq<string>>, line: string, lo: nat, period: Option<int>)
    requires c != [] && SplitsTaken(c, lo, period)
    ensures SplitsTaken(c + [[line]], lo, period)
  {
    var c' := c + [[line]];
    assert c'[0] == c[0];
    forall k | 0 <= k < |c'| && period.Some? ensures TakenIn(c'[k], Offset(k, lo), period.value) {
      if k < |c| {
        assert c'[k] == c[k];
      }
    }
  }

  /** A window line that opens a new chunk keeps the shape. */
  lemma SplitShaped(w: Writer, line: string, lo: nat, period: Option<int>)
    requires Shaped(w, lo, period) && Splits(w, Lead(line), period)
    ensures Shaped(Writer(w.chunks + [[line]], 1, Lead(line)), lo, period)
  {
    SplitJustified(w, line, lo, period);
    SplitTaken(w.chunks, line, lo, period);
    var c' := w.chunks + [[line]];
    assert Last(c') == [line];
    forall k | 1 <= k < |c'| ensures c'[k] != [] {
      if k < |w.chunks| {
        assert c'[k] == w.chunks[k];
      }
    }
  }

  /** One iteration keeps the shape, with `lo` the lines counted before the
      window. */
  lemma FeedShaped(w: Writer, i: nat, line: string, begin: int, end: int, period: Option<int>)
    requires Shaped(w, Before(i, begin, end), period)
    requires i < begin && i <= end ==> w == Writer([[]], i, None)
    requires Feed(w, i, line, Lead(line), begin, end, period).Ok?
    ensures Shaped(Feed(w, i, line, Lead(line), begin, end, period).value, Before(i + 1, begin, end), period)
  {
    var lo := Before(i, begin, end);
    if begin <= i <= end {
      assert Before(i + 1, begin, end) == lo;
      if Splits(w, Lead(line), period) {
        SplitShaped(w, line, lo, period);
        WriteAfterSplit(w.chunks, line);
      } else {
        WriteShaped(w, line, lo, period);
      }
    } else if end < i {
      assert Before(i + 1, begin, end) == lo;
    } else {
      var w' := Writer([[]], i + 1, None);
      assert Before(i + 1, begin, end) == i + 1;
      assert Tracks(w', i + 1);
    }
  }

  lemma {:induction false} ShapedPrefix(lines: seq<string>, n: nat, begin: int, end: int, period: Option<int>)
    requires n <= |lines| && FeedTo(lines, n, begin, end, period).Ok?
    ensures Shaped(FeedTo(lines, n, begin, end, period).value, Before(n, begin, end), period)
    decreases n
  {
    if n == 0 {
      assert Tracks(Initial, 0);
    } else {
      var i := n - 1;
      ShapedPrefix(lines, i, begin, end, period);
      if i < begin && i <= end {
        Prelude(lines, i, begin, end, period);
      }
      LeadsAt(lines, i);
      FeedShaped(FeedTo(lines, i, begin, end, period).value, i, lines[i], begin, end, period);
    }
  }

  /** The split rule, both ways: chunk `k` is started exactly at a written
      line whose leading field differs from that of the line before it,
      when `count` (which for the first chunk also counted the lines before
      the window) has reached the period; every other chunk boundary is
      absent.  Only the first chunk can be empty, which happens when the
      very first window line already starts a new chunk. */
  lemma ChunksSplitRule(lines: seq<string>, begin: int, end: int, period: Option<int>)
    requires Chunks(lines, begin, end, period).Ok?
    ensures var chunks, lo := Chunks(lines, begin, end, period).value, Before(|lines|, begin, end);
            Opened(chunks) && SplitsJustified(chunks, lo, period) && SplitsTaken(chunks, lo, period)
  {
    ShapedPrefix(lines, |lines|, begin, end, period);
  }

  /** Without a period everything goes to one file. */
  lemma ChunksSingle(lines: seq<string>, begin: int, end: int)
    requires Chunks(lines, begin, end, None).Ok?
    ensures |Chunks(lines, begin, end, None).value| == 1
  {
    ChunksSplitRule(lines, begin, end, None);
  }

  // ---------------------------------------------------------------------
  // A worked example.

  lemma LeadOfLetter(c: char)
    requires !IsQuote(c) && c != ','
    ensures Fields([c]) == [[c]] && Lead([c]) == Some([c])
  {
    RunSnoc([], c);
    assert [] + [c] == [c];
    assert Run([c]) == Scan(None, [c], []);
  }

  /** With lines `a`, `a`, `b`, window `[1, 2]` and period 1, the line before
      the window already brings `count` to the period, so the first window
      line opens a new file and file 000 stays empty; `b` opens a third. */
  lemma EmptyFirstChunkExample()
    ensures Chunks(["a", "a", "b"], 1, 2, Some(1)) == Ok([[], ["a"], ["b"]])
  {
    ExampleThirdLine();
  }

  lemma ExampleFirstLine()
    ensures FeedTo(["a", "a", "b"], 1, 1, 2, Some(1)) == Ok(Writer([[]], 1, None))
  {
    FeedToStep(["a", "a", "b"], 0, Initial, 1, 2, Some(1));
  }

  lemma ExampleSecondLine()
    ensures FeedTo(["a", "a", "b"], 2, 1, 2, Some(1)) == Ok(Writer([[], ["a"]], 1, Some("a")))
  {
    var lines := ["a", "a", "b"];
    ExampleFirstLine();
    LeadOfLetter('a');
    assert lines[1] == ['a'];
    var w := Writer([[]], 1, None);
    FeedToStep(lines, 1, w, 1, 2, Some(1));
    FeedWindow(w, 1, lines[1], 1, 2, Some(1));
    assert Splits(w, Lead(lines[1]), Some(1));
    assert Written(w, lines[1], true) == Writer([[], ["a"]], 1, Some("a"));
  }

  lemma ExampleThirdLine()
    ensures FeedTo(["a", "a", "b"], 3, 1, 2, Some(1)) == Ok(Writer([[], ["a"], ["b"]], 1, Some("b")))
  {
    var lines := ["a", "a", "b"];
    ExampleSecondLine();
    LeadOfLetter('b');
    assert lines[2] == ['b'];
    var w := Writer([[], ["a"]], 1, Some("a"));
    FeedToStep(lines, 2, w, 1, 2, Some(1));
    FeedWindow(w, 2, lines[2], 1, 2, Some(1));
    assert Splits(w, Lead(lines[2]), Some(1));
    assert Written(w, lines[2], true) == Writer([[], ["a"], ["b"]], 1, Some("b"));
  }
}
