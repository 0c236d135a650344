/** Header resolution of `get_headers` and `get_csv_columns`: the column
    names are gathered from a separate header file (all of its rows, or every
    line of a plain text file put through the tokenizer) or from the first row
    of the input, every name is stripped of surrounding whitespace, and the
    first empty name, if there is one, is dropped. */
module Headers {
  import opened Seqs
  import opened Tokenizer

  // ---------------------------------------------------------------------
  // Python's `str.strip()` on ASCII text.

  /** The ASCII characters for which Python's `str.isspace()` holds:
      tab, line feed, vertical tab, form feed, carriage return, the four
      information separators 0x1C-0x1F and space. */
  predicate IsSpace(c: char) {
    var n := c as int;
    n == 32 || 9 <= n <= 13 || 28 <= n <= 31
  }

  /** `s` without its leading whitespace. */
  function TrimStart(s: string): (r: string)
    ensures |r| <= |s|
    decreases |s|
  {
    if s != [] && IsSpace(s[0]) then TrimStart(s[1..]) else s
  }

  /** `s` without its trailing whitespace. */
  function TrimEnd(s: string): (r: string)
    ensures |r| <= |s|
    decreases |s|
  {
    if s != [] && IsSpace(s[|s| - 1]) then TrimEnd(s[..|s| - 1]) else s
  }

  /** Trimming the front leaves a suffix that does not start with whitespace,
      everything cut off being whitespace. */
  lemma {:induction false} TrimStartSuffix(s: string)
    ensures var r := TrimStart(s);
            |r| <= |s| && r == s[|s| - |r|..]
            && (forall k :: 0 <= k < |s| - |r| ==> IsSpace(s[k]))
            && (r != [] ==> !IsSpace(r[0]))
    decreases |s|
  {
    if s != [] && IsSpace(s[0]) {
      TrimStartSuffix(s[1..]);
    }
  }

  /** Trimming the back leaves a prefix that does not end with whitespace,
      everything cut off being whitespace. */
  lemma {:induction false} TrimEndPrefix(s: string)
    ensures var r := TrimEnd(s);
            |r| <= |s| && r == s[..|r|]
            && (forall k :: |r| <= k < |s| ==> IsSpace(s[k]))
            && (r != [] ==> !IsSpace(r[|r| - 1]))
    decreases |s|
  {
    if s != [] && IsSpace(s[|s| - 1]) {
      TrimEndPrefix(s[..|s| - 1]);
    }
  }

  /** Python's `s.strip()`. */
  function Strip(s: string): string {
    TrimEnd(TrimStart(s))
  }

  /** The stripped name is the longest middle part of `s` that neither starts
      nor ends with whitespace, everything around it being whitespace. */
  lemma StripMiddle(s: string)
    ensures var r, lo := Strip(s), |s| - |TrimStart(s)|;
            lo + |r| <= |s| && r == s[lo..lo + |r|]
            && (forall k :: 0 <= k < lo ==> IsSpace(s[k]))
            && (forall k :: lo + |r| <= k < |s| ==> IsSpace(s[k]))
            && (r != [] ==> !IsSpace(r[0]) && !IsSpace(r[|r| - 1]))
  {
    var t := TrimStart(s);
    var r := TrimEnd(t);
    var lo := |s| - |t|;
    TrimStartSuffix(s);
    TrimEndPrefix(t);
    assert r == s[lo..][..|r|];
    forall k | lo + |r| <= k < |s| ensures IsSpace(s[k]) {
      assert s[k] == t[k - lo];
    }
    if r != [] {
      assert r[0] == t[0];
    }
  }

  lemma {:induction false} TrimStartClean(s: string)
    requires s == [] || !IsSpace(s[0])
    ensures TrimStart(s) == s
  {
  }

  lemma {:induction false} TrimEndClean(s: string)
    requires s == [] || !IsSpace(s[|s| - 1])
    ensures TrimEnd(s) == s
  {
  }

  /** Stripping a stripped name changes nothing. */
  lemma StripIdempotent(s: string)
    ensures Strip(Strip(s)) == Strip(s)
  {
    var r := Strip(s);
    StripMiddle(s);
    TrimStartClean(r);
    TrimEndClean(r);
  }

  // ---------------------------------------------------------------------
  // Where the names come from.

  /** The header source: no header file (the first row of the input), a
      header file with the `.csv` extension (its rows as the `csv` reader
      gives them) or any other header file (its lines as text). */
  datatype HeaderSource =
    | FirstInputRow
    | CsvHeaderFile(rows: seq<seq<string>>)
    | TextHeaderFile(lines: seq<string>)

  /** The tokenized lines of a text header file. */
  function LineFields(lines: seq<string>): (r: seq<seq<string>>)
    ensures |r| == |lines|
    ensures forall k :: 0 <= k < |lines| ==> r[k] == Fields(lines[k])
  {
    seq(|lines|, k requires 0 <= k < |lines| => Fields(lines[k]))
  }

  /** The names before cleanup: all header rows concatenated in order, or the
      first input row alone (none when the input is empty). */
  function RawHeaders(source: HeaderSource, input: seq<seq<string>>): seq<string> {
    match source
    case FirstInputRow => if input == [] then [] else input[0]
    case CsvHeaderFile(rows) => Flatten(rows)
    case TextHeaderFile(lines) => Flatten(LineFields(lines))
  }

  /** The input rows left for the table: all of them when a header file is
      used, all but the first one otherwise. */
  function DataRows(source: HeaderSource, input: seq<seq<string>>): seq<seq<string>> {
    if source.FirstInputRow? && input != [] then input[1..] else input
  }

  lemma LineFieldsSnoc(lines: seq<string>, i: nat)
    requires i < |lines|
    ensures LineFields(lines[..i + 1]) == LineFields(lines[..i]) + [Fields(lines[i])]
  {
  }

  lemma RowsSnoc(rows: seq<seq<string>>, i: nat)
    requires i < |rows|
    ensures Flatten(rows[..i + 1]) == Flatten(rows[..i]) + rows[i]
  {
    assert rows[..i + 1] == rows[..i] + [rows[i]];
    FlattenSnoc(rows[..i], rows[i]);
  }

  /** The gathering loops: `headers += line` over the header rows, or over
      `extract_fields(line)` for each line of a text header file, or once
      for the first row of the input. */
  method GatherHeaders(source: HeaderSource, input: seq<seq<string>>)
    returns (raw: seq<string>, dataRows: seq<seq<string>>)
    ensures raw == RawHeaders(source, input)
    ensures dataRows == DataRows(source, input)
  {
    raw := [];
    dataRows := input;
    match source {
      case FirstInputRow =>
        if input != [] {
          raw := raw + input[0];
          dataRows := input[1..];
        }
      case CsvHeaderFile(rows) =>
        for i := 0 to |rows|
          invariant raw == Flatten(rows[..i])
        {
          RowsSnoc(rows, i);
          raw := raw + rows[i];
        }
        assert rows[..|rows|] == rows;
      case TextHeaderFile(lines) =>
        for i := 0 to |lines|
          invariant raw == Flatten(LineFields(lines[..i]))
        {
          var fields := ExtractFields(lines[i]);
          LineFieldsSnoc(lines, i);
          FlattenSnoc(LineFields(lines[..i]), fields);
          raw := raw + fields;
        }
        assert lines[..|lines|] == lines;
    }
  }

  // ---------------------------------------------------------------------
  // Cleanup.

  /** Every name stripped, in place and in order. */
  function StripAll(names: seq<string>): (r: seq<string>)
    ensures |r| == |names|
    ensures forall k :: 0 <= k < |names| ==> r[k] == Strip(names[k])
  {
    seq(|names|, k requires 0 <= k < |names| => Strip(names[k]))
  }

  /** The stripped names with the first empty one removed. */
  function Cleaned(raw: seq<string>): seq<string> {
    var stripped := StripAll(raw);
    if "" in stripped then RemoveAt(stripped, IndexOf(stripped, "")) else stripped
  }

  /** The cleanup loop: `headers[i] = headers[i].strip()` for every `i`, then
      `headers.pop(headers.index(''))` when some name is empty. */
  method CleanHeaders(raw: seq<string>) returns (headers: seq<string>)
    ensures headers == Cleaned(raw)
  {
    headers := raw;
    for i := 0 to |headers|
      invariant |headers| == |raw|
      invariant forall k :: 0 <= k < i ==> headers[k] == Strip(raw[k])
      invariant forall k :: i <= k < |headers| ==> headers[k] == raw[k]
    {
      headers := headers[i := Strip(headers[i])];
    }
    assert headers == StripAll(raw);
    if "" in headers {
      headers := RemoveAt(headers, IndexOf(headers, ""));
    }
  }

  /** Cleanup removes exactly one name when some stripped name is empty,
      and none otherwise. */
  lemma CleanedLength(raw: seq<string>)
    ensures |Cleaned(raw)| == if "" in StripAll(raw) then |raw| - 1 else |raw|
  {
  }

  /** Cleanup takes exactly one empty name out of the stripped names: later
      empty names survive, and every other name is kept. */
  lemma CleanedMultiset(raw: seq<string>)
    ensures multiset(Cleaned(raw)) == multiset(StripAll(raw)) - multiset{""}
  {
    var stripped := StripAll(raw);
    if "" in stripped {
      RemoveAtMultiset(stripped, IndexOf(stripped, ""));
    } else {
      assert multiset(stripped)[""] == 0;
    }
  }

  /** Every name cleanup keeps is already stripped. */
  lemma CleanedStripped(raw: seq<string>)
    ensures forall h :: h in Cleaned(raw) ==> Strip(h) == h
  {
    var stripped := StripAll(raw);
    forall h | h in Cleaned(raw) ensures Strip(h) == h {
      assert h in stripped;
      var k :| 0 <= k < |stripped| && stripped[k] == h;
      StripIdempotent(raw[k]);
    }
  }

  /** `get_headers`: gather the names, clean them, and hand on the input rows
      that are data. */
  method GetHeaders(source: HeaderSource, input: seq<seq<string>>)
    returns (headers: seq<string>, dataRows: seq<seq<string>>)
    ensures headers == Cleaned(RawHeaders(source, input))
    ensures dataRows == DataRows(source, input)
  {
    var raw;
    raw, dataRows := GatherHeaders(source, input);
    headers := CleanHeaders(raw);
  }

  /** Header rows spread over several lines of a header file are joined in
      order before cleanup. */
  lemma TwoLineHeaderExample()
    ensures Cleaned(RawHeaders(CsvHeaderFile([["id", " name"], ["score\n"]]), [])) == ["id", "name", "score"]
  {
    TwoLineRawExample();
    StripAllExample();
  }

  lemma TwoLineRawExample()
    ensures RawHeaders(CsvHeaderFile([["id", " name"], ["score\n"]]), []) == ["id", " name", "score\n"]
  {
    var first, second := ["id", " name"], ["score\n"];
    FlattenSnoc([], first);
    FlattenSnoc([first], second);
    assert [first, second] == [first] + [second];
  }

  lemma StripAllExample()
    ensures StripAll(["id", " name", "score\n"]) == ["id", "name", "score"]
    ensures "" !in StripAll(["id", " name", "score\n"])
  {
    StripExamples();
    assert "id" != "" && "name" != "" && "score" != "";
  }

  lemma StripExamples()
    ensures Strip("id") == "id" && Strip(" name") == "name" && Strip("score\n") == "score"
  {
  }
}
