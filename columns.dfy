/** The columnar table builder of `get_csv_columns`: one empty list per
    header name, then, for every data row, field `i` appended to the list of
    `headers[i]`.  Data rows arrive already split into fields.  A row with
    fewer fields than there are headers stops the build with an index error;
    fields beyond the headers are ignored.  When two headers share a name,
    both of their fields go to the same list. */
module Columns {
  import opened Seqs
  import opened Headers

  /** Python's `IndexError` in `values[i]`: data row `row` has only `width`
      fields. */
  datatype BuildError = FieldOutOfRange(row: nat, width: nat)

  /** The column names and the table, as `get_csv_columns` returns them. */
  datatype CsvColumns = CsvColumns(headers: seq<string>, data: map<string, seq<string>>)

  /** Every data row has at least one field per header. */
  predicate Wide(headers: seq<string>, rows: seq<seq<string>>) {
    forall r :: 0 <= r < |rows| ==> |headers| <= |rows[r]|
  }

  /** The entries that one row adds to the list of `h`, given the header
      positions `hs`: the field at every position that holds `h`, in order. */
  function Picked(h: string, hs: seq<string>, row: seq<string>): seq<string>
    requires |hs| <= |row|
  {
    if hs == [] then []
    else Picked(h, hs[..|hs| - 1], row) + (if hs[|hs| - 1] == h then [row[|hs| - 1]] else [])
  }

  /** The list of `h` after all of `rows`. */
  function Column(h: string, headers: seq<string>, rows: seq<seq<string>>): seq<string>
    requires Wide(headers, rows)
  {
    if rows == [] then []
    else Column(h, headers, rows[..|rows| - 1]) + Picked(h, headers, rows[|rows| - 1])
  }

  /** The first row that is too short. */
  function FirstShort(headers: seq<string>, rows: seq<seq<string>>): (r: nat)
    requires !Wide(headers, rows)
    ensures r < |rows| && |rows[r]| < |headers|
    ensures Wide(headers, rows[..r])
  {
    if |rows[0]| < |headers| then 0
    else
      var k := FirstShort(headers, rows[1..]);
      assert rows[..k + 1] == [rows[0]] + rows[1..][..k];
      1 + k
  }

  /** The table built from `headers` and `rows`: every header name mapped to
      its list, or the index error of the first row that is too short. */
  function Build(headers: seq<string>, rows: seq<seq<string>>): Result<map<string, seq<string>>, BuildError> {
    if Wide(headers, rows) then Ok(map h | h in headers :: Column(h, headers, rows))
    else
      var r := FirstShort(headers, rows);
      Err(FieldOutOfRange(r, |rows[r]|))
  }

  /** `for title in headers: data[title] = []`: the keys are exactly the
      header names, each with an empty list. */
  method InitColumns(headers: seq<string>) returns (data: map<string, seq<string>>)
    ensures data.Keys == set h | h in headers
    ensures forall h :: h in data ==> data[h] == []
  {
    data := map[];
    for i := 0 to |headers|
      invariant data.Keys == set h | h in headers[..i]
      invariant forall h :: h in data ==> data[h] == []
    {
      assert headers[..i + 1] == headers[..i] + [headers[i]];
      data := data[headers[i] := []];
    }
    assert headers[..|headers|] == headers;
  }

  /** A too-short row after rows that are all wide enough is the first one. */
  lemma FirstShortAt(headers: seq<string>, rows: seq<seq<string>>, j: nat)
    requires j < |rows| && Wide(headers, rows[..j]) && |rows[j]| < |headers|
    ensures !Wide(headers, rows) && FirstShort(headers, rows) == j
  {
  }

  /** One pass of `for i in range(len(headers)): data[headers[i]].append(values[i])`;
      `ok` is false when `values[i]` is out of range for some `i`. */
  method AppendRow(data: map<string, seq<string>>, headers: seq<string>, values: seq<string>)
    returns (ok: bool, data': map<string, seq<string>>)
    requires forall k :: 0 <= k < |headers| ==> headers[k] in data
    ensures ok <==> |headers| <= |values|
    ensures ok ==> data'.Keys == data.Keys
    ensures ok ==> forall h :: h in data ==> data'[h] == data[h] + Picked(h, headers, values)
  {
    data' := data;
    for i := 0 to |headers|
      invariant data'.Keys == data.Keys
      invariant i <= |values|
      invariant forall h :: h in data ==> data'[h] == data[h] + Picked(h, headers[..i], values)
    {
      if i >= |values| {
        return false, data';
      }
      assert headers[..i + 1][..i] == headers[..i];
      data' := data'[headers[i] := data'[headers[i]] + [values[i]]];
    }
    assert headers[..|headers|] == headers;
    ok := true;
  }

  /** The row loop of `get_csv_columns`: every data row appended in turn. */
  method BuildColumns(headers: seq<string>, rows: seq<seq<string>>)
    returns (r: Result<map<string, seq<string>>, BuildError>)
    ensures r == Build(headers, rows)
  {
    var data := InitColumns(headers);
    for j := 0 to |rows|
      invariant data.Keys == set h | h in headers
      invariant Wide(headers, rows[..j])
      invariant forall h :: h in data ==> data[h] == Column(h, headers, rows[..j])
    {
      var ok;
      ok, data := AppendRow(data, headers, rows[j]);
      if !ok {
        FirstShortAt(headers, rows, j);
        return Err(FieldOutOfRange(j, |rows[j]|));
      }
      assert rows[..j + 1] == rows[..j] + [rows[j]];
    }
    assert rows[..|rows|] == rows;
    assert data == map h | h in headers :: Column(h, headers, rows);
    r := Ok(data);
  }

  /** `get_csv_columns`: the cleaned header names and the table built from
      the data rows that follow them. */
  method GetCsvColumns(source: HeaderSource, input: seq<seq<string>>)
    returns (r: Result<CsvColumns, BuildError>)
    ensures var headers := Cleaned(RawHeaders(source, input));
            var built := Build(headers, DataRows(source, input));
            && (r.Ok? <==> built.Ok?)
            && (r.Ok? ==> r.value == CsvColumns(headers, built.value))
            && (r.Err? ==> r.error == built.error)
  {
    var headers, dataRows := GetHeaders(source, input);
    var built := BuildColumns(headers, dataRows);
    match built {
      case Ok(data) => r := Ok(CsvColumns(headers, data));
      case Err(e) => r := Err(e);
    }
  }

  // ---------------------------------------------------------------------
  // What the table holds.

  /** The build fails exactly when some data row has fewer fields than there
      are headers, and then names a row that is too short. */
  lemma BuildFails(headers: seq<string>, rows: seq<seq<string>>)
    ensures Build(headers, rows).Err? <==> exists r :: 0 <= r < |rows| && |rows[r]| < |headers|
    ensures Build(headers, rows).Err? ==>
              var e := Build(headers, rows).error;
              e.row < |rows| && e.width == |rows[e.row]| < |headers|
  {
  }

  /** The keys of a built table are exactly the header names. */
  lemma BuildKeys(headers: seq<string>, rows: seq<seq<string>>)
    requires Build(headers, rows).Ok?
    ensures Build(headers, rows).value.Keys == set h | h in headers
  {
  }

  predicate Distinct(headers: seq<string>) {
    forall a, b :: 0 <= a < b < |headers| ==> headers[a] != headers[b]
  }

  lemma {:induction false} PickedOnce(h: string, hs: seq<string>, row: seq<string>, i: nat)
    requires |hs| <= |row|
    requires forall k :: 0 <= k < |hs| && hs[k] == h ==> k == i
    ensures Picked(h, hs, row) == if i < |hs| && hs[i] == h then [row[i]] else []
    decreases |hs|
  {
    if hs != [] {
      var p := hs[..|hs| - 1];
      PickedOnce(h, p, row, i);
    }
  }

  /** With distinct header names, the list of `headers[i]` has one entry per
      data row, and its entry `r` is field `i` of row `r`. */
  lemma {:induction false} ColumnOfDistinct(headers: seq<string>, rows: seq<seq<string>>, i: nat)
    requires Distinct(headers) && i < |headers| && Wide(headers, rows)
    ensures var col := Column(headers[i], headers, rows);
            |col| == |rows| && forall r :: 0 <= r < |rows| ==> col[r] == rows[r][i]
    decreases |rows|
  {
    if rows != [] {
      var n := |rows| - 1;
      var p := rows[..n];
      assert Wide(headers, p) by {
        forall t | 0 <= t < |p| ensures |headers| <= |p[t]| { assert p[t] == rows[t]; }
      }
      ColumnOfDistinct(headers, p, i);
      PickedOnce(headers[i], headers, rows[n], i);
      var prev := Column(headers[i], headers, p);
      assert Column(headers[i], headers, rows) == prev + [rows[n][i]];
      forall r | 0 <= r < |rows| ensures (prev + [rows[n][i]])[r] == rows[r][i] {
        if r < n {
          assert p[r] == rows[r];
        }
      }
    }
  }

  /** Distinct header names give a table whose lists all have one entry per
      data row, entry `r` of the list of `headers[i]` being field `i` of row
      `r`. */
  lemma BuildDistinct(headers: seq<string>, rows: seq<seq<string>>)
    requires Distinct(headers) && Wide(headers, rows)
    ensures Build(headers, rows).Ok?
    ensures var data := Build(headers, rows).value;
            forall i :: 0 <= i < |headers| ==>
              headers[i] in data && |data[headers[i]]| == |rows| &&
              forall r :: 0 <= r < |rows| ==> data[headers[i]][r] == rows[r][i]
  {
    forall i | 0 <= i < |headers|
      ensures var col := Column(headers[i], headers, rows);
              |col| == |rows| && forall r :: 0 <= r < |rows| ==> col[r] == rows[r][i]
    {
      ColumnOfDistinct(headers, rows, i);
    }
  }

  /** The worked example: headers `id`, `score` and rows `1,10` and `2,20`. */
  lemma BuildExample()
    ensures Build(["id", "score"], [["1", "10"], ["2", "20"]])
            == Ok(map["id" := ["1", "2"], "score" := ["10", "20"]])
  {
    var headers, rows := ["id", "score"], [["1", "10"], ["2", "20"]];
    BuildDistinct(headers, rows);
    var data := Build(headers, rows).value;
    assert data.Keys == {"id", "score"};
    assert data["id"] == ["1", "2"];
    assert data["score"] == ["10", "20"];
    assert data == map["id" := ["1", "2"], "score" := ["10", "20"]];
  }

  /** A row with one field against two headers is an index error. */
  lemma ShortRowExample()
    ensures Build(["id", "score"], [["1"]]) == Err(FieldOutOfRange(0, 1))
  {
    var headers, rows := ["id", "score"], [["1"]];
    assert |rows[0]| < |headers|;
    assert Wide(headers, rows[..0]);
    FirstShortAt(headers, rows, 0);
  }
}
