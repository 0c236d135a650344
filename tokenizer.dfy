/** The quote-aware field tokenizer `extract_fields`: a left-to-right scan
    with two states, no quote open or a quote (`"` or `'`) open.  A comma
    separates fields only while no quote is open, the quote that opened a
    quoted stretch is the only one that closes it, the other quote character
    is copied literally, and a final empty field is not emitted.  There is no
    doubled-quote escape. */
module Tokenizer {
  import opened Seqs

  predicate IsQuote(c: char) {
    c == '"' || c == '\''
  }

  /** Scanner state after a prefix of the line: the quote character that is
      open (if any), the field being accumulated and the fields emitted. */
  datatype Scan = Scan(quote: Option<char>, field: string, fields: seq<string>)

  const Start := Scan(None, "", [])

  /** One character of the scan. */
  function Step(st: Scan, c: char): Scan {
    if IsQuote(c) then
      if st.quote == None then st.(quote := Some(c))
      else if st.quote == Some(c) then st.(quote := None)
      else st.(field := st.field + [c])
    else if st.quote == None && c == ',' then
      st.(field := "", fields := st.fields + [st.field])
    else
      st.(field := st.field + [c])
  }

  /** The state after scanning all of `line`. */
  function Run(line: string): Scan {
    if |line| == 0 then Start else Step(Run(line[..|line| - 1]), line[|line| - 1])
  }

  /** The list `extract_fields(line)` returns: the emitted fields, and the last
      accumulated field only if it is not empty. */
  function Fields(line: string): seq<string> {
    var st := Run(line);
    if |st.field| != 0 then st.fields + [st.field] else st.fields
  }

  /** `extract_fields` as the source writes it: a loop over the characters
      updating `quote`, `field` and `fields`. */
  method ExtractFields(line: string) returns (fields: seq<string>)
    ensures fields == Fields(line)
  {
    fields := [];
    var field := "";
    var quote: Option<char> := None;
    for i := 0 to |line|
      invariant Run(line[..i]) == Scan(quote, field, fields)
    {
      var c := line[i];
      assert line[..i + 1][..i] == line[..i];
      if c == '"' || c == '\'' {
        if quote == None {
          quote := Some(c);
        } else if quote == Some(c) {
          quote := None;
        } else {
          field := field + [c];
        }
        continue;
      }
      if quote == None && c == ',' {
        fields := fields + [field];
        field := "";
      } else {
        field := field + [c];
      }
    }
    assert line[..|line|] == line;
    if field != "" {
      fields := fields + [field];
    }
  }

  // ---------------------------------------------------------------------
  // Nothing is lost and nothing is reordered.

  /** Whether reading `c` while `q` is open consumes it: a quote character
      that opens or closes a quoted stretch, or a comma outside quotes. */
  predicate Consumed(q: Option<char>, c: char) {
    (IsQuote(c) && (q == None || q == Some(c))) || (q == None && c == ',')
  }

  /** The characters of `line` that are not consumed, in their order. */
  function Kept(line: string): string {
    if line == [] then []
    else
      var p := line[..|line| - 1];
      var c := line[|line| - 1];
      Kept(p) + (if Consumed(Run(p).quote, c) then [] else [c])
  }

  lemma {:induction false} RunKept(line: string)
    ensures Flatten(Run(line).fields) + Run(line).field == Kept(line)
    decreases |line|
  {
    if line != [] {
      var p := line[..|line| - 1];
      RunKept(p);
      FlattenSnoc(Run(p).fields, Run(p).field);
    }
  }

  /** Concatenating the fields gives back the line without the consumed quote
      characters and separating commas, in order. */
  lemma NoLoss(line: string)
    ensures Flatten(Fields(line)) == Kept(line)
  {
    RunKept(line);
    var st := Run(line);
    if st.field != "" {
      FlattenSnoc(st.fields, st.field);
    } else {
      assert Flatten(st.fields) + st.field == Flatten(st.fields);
    }
  }

  // ---------------------------------------------------------------------
  // Lines without quote characters.

  /** Plain splitting at every comma (Python's `line.split(",")`). */
  function SplitOnComma(s: string): (r: seq<string>)
    ensures |r| >= 1
    decreases |s|
  {
    if ',' in s then
      var k := IndexOf(s, ',');
      [s[..k]] + SplitOnComma(s[k + 1..])
    else [s]
  }

  /** Drops the last piece when it is empty. */
  function DropTrailingEmpty(pieces: seq<string>): seq<string> {
    if |pieces| != 0 && |pieces[|pieces| - 1]| == 0 then pieces[..|pieces| - 1] else pieces
  }

  /** What appending one character does to the comma-separated pieces. */
  function SnocPieces(s: seq<string>, c: char): seq<string>
    requires |s| >= 1
  {
    if c == ',' then s + [""] else s[..|s| - 1] + [s[|s| - 1] + [c]]
  }

  lemma SnocPiecesCons(x: string, s: seq<string>, c: char)
    requires |s| >= 1
    ensures [x] + SnocPieces(s, c) == SnocPieces([x] + s, c)
  {
    if c != ',' {
      assert ([x] + s)[..|s|] == [x] + s[..|s| - 1];
    }
  }

  lemma SplitFirstComma(p: string, c: char)
    requires ',' in p
    ensures var k := IndexOf(p, ',');
            SplitOnComma(p + [c]) == [p[..k]] + SplitOnComma(p[k + 1..] + [c])
  {
    var k := IndexOf(p, ',');
    IndexOfPrefix(p, [c], ',');
    assert (p + [c])[..k] == p[..k];
    assert (p + [c])[k + 1..] == p[k + 1..] + [c];
  }

  lemma SplitNoComma(p: string, c: char)
    requires ',' !in p
    ensures SplitOnComma(p + [c]) == SnocPieces(SplitOnComma(p), c)
  {
    if c == ',' {
      IndexOfAfter(p, [c], ',');
      assert (p + [c])[..|p|] == p;
      assert (p + [c])[|p| + 1..] == [];
    } else {
      assert ',' !in p + [c];
    }
  }

  lemma {:induction false} SplitSnoc(p: string, c: char)
    ensures SplitOnComma(p + [c]) == SnocPieces(SplitOnComma(p), c)
    decreases |p|
  {
    if ',' in p {
      var k := IndexOf(p, ',');
      SplitFirstComma(p, c);
      SplitSnoc(p[k + 1..], c);
      SnocPiecesCons(p[..k], SplitOnComma(p[k + 1..]), c);
    } else {
      SplitNoComma(p, c);
    }
  }

  lemma {:induction false} QuoteFreeRun(line: string)
    requires forall k :: 0 <= k < |line| ==> !IsQuote(line[k])
    ensures Run(line).quote == None
    ensures Run(line).fields + [Run(line).field] == SplitOnComma(line)
    decreases |line|
  {
    if line != [] {
      var p := line[..|line| - 1];
      QuoteFreeRun(p);
      SplitSnoc(p, line[|line| - 1]);
      assert line == p + [line[|line| - 1]];
    }
  }

  /** Without quote characters, the fields are the comma-separated pieces with
      a trailing empty piece dropped; the empty line gives no field. */
  lemma QuoteFreeFields(line: string)
    requires forall k :: 0 <= k < |line| ==> !IsQuote(line[k])
    ensures Fields(line) == DropTrailingEmpty(SplitOnComma(line))
  {
    QuoteFreeRun(line);
    var st := Run(line);
    assert (st.fields + [st.field])[..|st.fields|] == st.fields;
  }

  // ---------------------------------------------------------------------
  // Quoted text.

  lemma {:induction false} QuotedRun(q: char, s: string)
    requires IsQuote(q) && q !in s
    ensures Run([q] + s) == Scan(Some(q), s, [])
    decreases |s|
  {
    if s == [] {
      RunSnoc([], q);
      assert [] + [q] == [q] + s;
    } else {
      var p, c := s[..|s| - 1], s[|s| - 1];
      assert q !in p by { assert forall t :: 0 <= t < |p| ==> p[t] == s[t]; }
      QuotedRun(q, p);
      ConsSnoc(q, s);
      QuotedStep(q, p, c);
    }
  }

  /** Inside a quoted stretch, any character other than the closing quote is
      added to the field. */
  lemma QuotedStep(q: char, p: string, c: char)
    requires Run([q] + p) == Scan(Some(q), p, []) && c != q
    ensures Run([q] + p + [c]) == Scan(Some(q), p + [c], [])
  {
    RunSnoc([q] + p, c);
  }

  /** Text between a pair of the same quote character is one field: commas and
      the other quote character inside it are kept, the quotes are not. */
  lemma QuotedLiteral(q: char, s: string)
    requires IsQuote(q) && q !in s
    ensures Fields([q] + s + [q]) == if s == [] then [] else [s]
  {
    QuotedRun(q, s);
    assert ([q] + s + [q])[..|s| + 1] == [q] + s;
  }

  // ---------------------------------------------------------------------
  // The documented examples.

  lemma RunSnoc(p: string, c: char)
    ensures Run(p + [c]) == Step(Run(p), c)
  {
    assert (p + [c])[..|p|] == p;
  }

  /** A comma inside double quotes is kept; the quotes are dropped. */
  lemma QuotedCommaExample()
    ensures Fields("a,\"b,c\",d") == ["a", "b,c", "d"]
  {
    var s0, s1, s2, s3, s4 := "a", "a,", "a,\"", "a,\"b", "a,\"b,";
    var s5, s6, s7, s8 := "a,\"b,c", "a,\"b,c\"", "a,\"b,c\",", "a,\"b,c\",d";
    RunSnoc("", 'a');  assert [] + ['a'] == s0;
    RunSnoc(s0, ',');  assert s0 + [','] == s1;
    assert Run(s1) == Scan(None, "", ["a"]);
    RunSnoc(s1, '"');  assert s1 + ['"'] == s2;
    RunSnoc(s2, 'b');  assert s2 + ['b'] == s3;
    RunSnoc(s3, ',');  assert s3 + [','] == s4;
    RunSnoc(s4, 'c');  assert s4 + ['c'] == s5;
    assert Run(s5) == Scan(Some('"'), "b,c", ["a"]);
    RunSnoc(s5, '"');  assert s5 + ['"'] == s6;
    RunSnoc(s6, ',');  assert s6 + [','] == s7;
    RunSnoc(s7, 'd');  assert s7 + ['d'] == s8;
    assert Run(s8) == Scan(None, "d", ["a", "b,c"]);
  }

  /** A trailing comma does not produce an empty last field. */
  lemma TrailingCommaExample()
    ensures Fields("a,b,") == ["a", "b"]
  {
    var s0, s1, s2, s3 := "a", "a,", "a,b", "a,b,";
    RunSnoc("", 'a');  assert [] + ['a'] == s0;
    RunSnoc(s0, ',');  assert s0 + [','] == s1;
    assert Run(s1) == Scan(None, "", ["a"]);
    RunSnoc(s1, 'b');  assert s1 + ['b'] == s2;
    assert Run(s2) == Scan(None, "b", ["a"]);
    RunSnoc(s2, ',');  assert s2 + [','] == s3;
    assert ["a"] + ["b"] == ["a", "b"];
    assert Run(s3) == Scan(None, "", ["a", "b"]);
  }

  /** An unquoted comma splits a value in two, even when it is meant to be
      part of the value. */
  lemma UnquotedCommaSplits(a: string, b: string)
    requires forall k :: 0 <= k < |a| ==> !IsQuote(a[k]) && a[k] != ','
    requires forall k :: 0 <= k < |b| ==> !IsQuote(b[k]) && b[k] != ','
    requires b != ""
    ensures Fields(a + [','] + b) == [a, b]
  {
    var s := a + [','] + b;
    assert forall k :: 0 <= k < |s| ==> !IsQuote(s[k]) by {
      forall k | 0 <= k < |s| ensures !IsQuote(s[k]) {
        if k > |a| { assert s[k] == b[k - |a| - 1]; }
      }
    }
    QuoteFreeFields(s);
    SplitTwo(a, b);
  }

  lemma SplitTwo(a: string, b: string)
    requires ',' !in a && ',' !in b
    ensures SplitOnComma(a + [','] + b) == [a, b]
  {
    var s := a + [','] + b;
    assert s == a + ([','] + b);
    IndexOfAfter(a, [','] + b, ',');
    assert s[..|a|] == a && s[|a| + 1..] == b;
  }

  lemma UnquotedCommaExample()
    ensures Fields("Washington, D.C.") == ["Washington", " D.C."]
  {
    UnquotedCommaSplits("Washington", " D.C.");
    assert "Washington" + [','] + " D.C." == "Washington, D.C.";
  }

  lemma EmptyLineExample()
    ensures Fields("") == []
  {
  }
}
