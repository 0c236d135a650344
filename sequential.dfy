/** The grouped-consistency filter of `extract_sequential`.  The table is a
    dictionary of equal-length columns.  A cursor walks down the group
    column; at every change of ID it takes the run of the previous ID
    (from that ID's first occurrence up to the cursor), and when the sequence
    column is not constant over the run it deletes the run's rows from every
    column, counts them, and restarts just after the deletion point.  The last
    run is never followed by a change of ID, so it is never examined. */
module Sequential {
  import opened Seqs

  datatype FilterError = MissingColumn(name: string, headers: seq<string>)

  /** Every column holds `n` entries. */
  predicate Rectangular(data: map<string, seq<string>>, n: nat) {
    forall f :: f in data ==> |data[f]| == n
  }

  // ---------------------------------------------------------------------
  // Selecting rows by a mask.

  /** The entries of `col` whose mask bit is set, in order. */
  function Select<T>(col: seq<T>, mask: seq<bool>): seq<T>
    requires |col| == |mask|
  {
    if col == [] then []
    else
      var n := |col| - 1;
      Select(col[..n], mask[..n]) + (if mask[n] then [col[n]] else [])
  }

  /** The number of set bits. */
  function Count(mask: seq<bool>): nat {
    if mask == [] then 0 else Count(mask[..|mask| - 1]) + (if mask[|mask| - 1] then 1 else 0)
  }

  /** The positions of the set bits, in increasing order. */
  function Positions(mask: seq<bool>): (p: seq<nat>)
    ensures |p| == Count(mask)
    ensures forall k :: 0 <= k < |p| ==> p[k] < |mask| && mask[p[k]]
    ensures forall a, b :: 0 <= a < b < |p| ==> p[a] < p[b]
  {
    if mask == [] then []
    else
      var n := |mask| - 1;
      Positions(mask[..n]) + (if mask[n] then [n] else [])
  }

  lemma {:induction false} SelectAt<T>(col: seq<T>, mask: seq<bool>, k: nat)
    requires |col| == |mask| && k < Count(mask)
    ensures |Select(col, mask)| == Count(mask)
    ensures Select(col, mask)[k] == col[Positions(mask)[k]]
    decreases |col|
  {
    var n := |col| - 1;
    SelectLength(col[..n], mask[..n]);
    if k < Count(mask[..n]) {
      SelectAt(col[..n], mask[..n], k);
    }
  }

  lemma {:induction false} SelectLength<T>(col: seq<T>, mask: seq<bool>)
    requires |col| == |mask|
    ensures |Select(col, mask)| == Count(mask)
    decreases |col|
  {
    if col != [] {
      SelectLength(col[..|col| - 1], mask[..|col| - 1]);
    }
  }

  lemma {:induction false} SelectAppend<T>(a: seq<T>, ma: seq<bool>, b: seq<T>, mb: seq<bool>)
    requires |a| == |ma| && |b| == |mb|
    ensures Select(a + b, ma + mb) == Select(a, ma) + Select(b, mb)
    decreases |b|
  {
    if b == [] {
      assert a + b == a && ma + mb == ma;
    } else {
      var n := |b| - 1;
      assert (a + b)[..|a| + n] == a + b[..n];
      assert (ma + mb)[..|a| + n] == ma + mb[..n];
      SelectAppend(a, ma, b[..n], mb[..n]);
    }
  }

  /** With every bit equal to `keep`, all entries or none are selected. */
  lemma {:induction false} SelectConst<T>(col: seq<T>, mask: seq<bool>, keep: bool)
    requires |col| == |mask|
    requires forall t :: 0 <= t < |mask| ==> mask[t] == keep
    ensures Select(col, mask) == if keep then col else []
    decreases |col|
  {
    if col != [] {
      SelectConst(col[..|col| - 1], mask[..|col| - 1], keep);
    }
  }

  lemma {:induction false} SelectMembers<T>(col: seq<T>, mask: seq<bool>, x: T)
    requires |col| == |mask| && x in Select(col, mask)
    ensures x in col
  {
    var k :| 0 <= k < |Select(col, mask)| && Select(col, mask)[k] == x;
    SelectLength(col, mask);
    SelectAt(col, mask, k);
  }

  // ---------------------------------------------------------------------
  // Which rows the filter keeps.

  /** Each ID occupies one contiguous run of the group column. */
  ghost predicate Contiguous(g: seq<string>) {
    forall a, b, c :: 0 <= a < b < c < |g| && g[a] == g[c] ==> g[b] == g[a]
  }

  /** Row `r` survives when it belongs to the final run (which is never
      examined) or when every row with its ID has its sequence value. */
  predicate Keep(g: seq<string>, s: seq<string>, r: nat)
    requires |g| == |s| && r < |g|
  {
    g[r] == g[|g| - 1] || forall t :: 0 <= t < |g| && g[t] == g[r] ==> s[t] == s[r]
  }

  /** The keep rule for the first `n` rows. */
  function MaskUpTo(g: seq<string>, s: seq<string>, n: nat): (m: seq<bool>)
    requires n <= |g| == |s|
    ensures |m| == n
  {
    if n == 0 then [] else MaskUpTo(g, s, n - 1) + [Keep(g, s, n - 1)]
  }

  /** The keep rule, row by row. */
  function Mask(g: seq<string>, s: seq<string>): (m: seq<bool>)
    requires |g| == |s|
    ensures |m| == |g|
  {
    MaskUpTo(g, s, |g|)
  }

  lemma {:induction false} MaskUpToAt(g: seq<string>, s: seq<string>, n: nat)
    requires n <= |g| == |s|
    ensures forall r :: 0 <= r < n ==> MaskUpTo(g, s, n)[r] == Keep(g, s, r)
    decreases n
  {
    if n > 0 {
      MaskUpToAt(g, s, n - 1);
    }
  }

  /** Bit `r` of the mask is the keep rule for row `r`. */
  lemma MaskAt(g: seq<string>, s: seq<string>)
    requires |g| == |s|
    ensures forall r :: 0 <= r < |g| ==> Mask(g, s)[r] == Keep(g, s, r)
  {
    MaskUpToAt(g, s, |g|);
  }

  /** The table after filtering, for a group column with contiguous IDs. */
  function Filtered(data: map<string, seq<string>>, groupfield: string, seqfield: string): (r: map<string, seq<string>>)
    requires groupfield in data && seqfield in data
    requires Rectangular(data, |data[groupfield]|)
    ensures r.Keys == data.Keys
  {
    var mask := Mask(data[groupfield], data[seqfield]);
    map f | f in data :: Select(data[f], mask)
  }

  /** The rows of the final run always survive: whatever happens before it,
      the filtered column ends with that run unchanged. */
  lemma FinalRunSurvives<T>(g: seq<string>, s: seq<string>, col: seq<T>, b: nat)
    requires |g| == |s| == |col| && b < |g|
    requires forall t :: b <= t < |g| ==> g[t] == g[|g| - 1]
    ensures var m := Mask(g, s);
            Select(col, m) == Select(col[..b], m[..b]) + col[b..]
  {
    var m := Mask(g, s);
    MaskAt(g, s);
    forall t | 0 <= t < |m[b..]| ensures m[b..][t] {
      assert m[b..][t] == m[b + t] && Keep(g, s, b + t);
    }
    assert col == col[..b] + col[b..] && m == m[..b] + m[b..];
    SelectAppend(col[..b], m[..b], col[b..], m[b..]);
    SelectConst(col[b..], m[b..], true);
  }

  /** A two-row group whose sequence value changes is not removed when it is
      the last group. */
  lemma FinalRunNotExamined()
    ensures Select(["A", "A"], Mask(["A", "A"], ["x", "y"])) == ["A", "A"]
  {
    var m := Mask(["A", "A"], ["x", "y"]);
    MaskAt(["A", "A"], ["x", "y"]);
    assert m == [true, true];
    SelectConst(["A", "A"], m, true);
  }

  /** After filtering every row satisfies the keep rule again: each group
      that is not the last one has a constant sequence value. */
  lemma FilteredKeepsAll(g: seq<string>, s: seq<string>)
    requires |g| == |s|
    ensures var m := Mask(g, s);
            var g', s' := Select(g, m), Select(s, m);
            |g'| == |s'| && forall r :: 0 <= r < |g'| ==> Keep(g', s', r)
  {
    var m := Mask(g, s);
    var g', s' := Select(g, m), Select(s, m);
    var p := Positions(m);
    MaskAt(g, s);
    SelectLength(g, m);
    SelectLength(s, m);
    forall r | 0 <= r < |g'| ensures Keep(g', s', r) {
      SelectAt(g, m, r);
      SelectAt(s, m, r);
      var last := |g'| - 1;
      SelectAt(g, m, last);
      assert m[|g| - 1];
      assert p[last] == |g| - 1;
      if g'[r] != g'[last] {
        forall t | 0 <= t < |g'| && g'[t] == g'[r] ensures s'[t] == s'[r] {
          SelectAt(g, m, t);
          SelectAt(s, m, t);
        }
      }
    }
  }

  /** Filtering keeps each ID in one contiguous run. */
  lemma FilteredContiguous(g: seq<string>, s: seq<string>)
    requires |g| == |s| && Contiguous(g)
    ensures Contiguous(Select(g, Mask(g, s)))
  {
    var m := Mask(g, s);
    var g' := Select(g, m);
    var p := Positions(m);
    SelectLength(g, m);
    forall a, b, c | 0 <= a < b < c < |g'| && g'[a] == g'[c] ensures g'[b] == g'[a] {
      SelectAt(g, m, a);
      SelectAt(g, m, b);
      SelectAt(g, m, c);
    }
  }

  /** Filtering a filtered table changes nothing: a second run of the filter
      removes no row. */
  lemma FilteredIdempotent(data: map<string, seq<string>>, groupfield: string, seqfield: string)
    requires groupfield in data && seqfield in data
    requires Rectangular(data, |data[groupfield]|)
    ensures var d' := Filtered(data, groupfield, seqfield);
            Rectangular(d', |d'[groupfield]|) &&
            Filtered(d', groupfield, seqfield) == d'
  {
    var g, s := data[groupfield], data[seqfield];
    var m := Mask(g, s);
    var d' := Filtered(data, groupfield, seqfield);
    forall f | f in data ensures |d'[f]| == Count(m) { SelectLength(data[f], m); }
    FilteredKeepsAll(g, s);
    var m' := Mask(d'[groupfield], d'[seqfield]);
    MaskAt(d'[groupfield], d'[seqfield]);
    forall f | f in d' ensures Select(d'[f], m') == d'[f] {
      SelectConst(d'[f], m', true);
    }
  }

  /** When every group but possibly the last has a constant sequence value,
      the filter changes nothing. */
  lemma ConstantRunsUnchanged(data: map<string, seq<string>>, groupfield: string, seqfield: string)
    requires groupfield in data && seqfield in data
    requires Rectangular(data, |data[groupfield]|)
    requires forall r :: 0 <= r < |data[groupfield]| ==> Keep(data[groupfield], data[seqfield], r)
    ensures Filtered(data, groupfield, seqfield) == data
  {
    var m := Mask(data[groupfield], data[seqfield]);
    MaskAt(data[groupfield], data[seqfield]);
    forall f | f in data ensures Select(data[f], m) == data[f] {
      SelectConst(data[f], m, true);
    }
  }

  /** The worked example: IDs `A,A,A,B,B` with values `x,x,y,p,p` lose the
      three rows of `A`. */
  lemma WorkedExample()
    ensures var g, s := ["A", "A", "A", "B", "B"], ["x", "x", "y", "p", "p"];
            var m := Mask(g, s);
            Select(g, m) == ["B", "B"] && Select(s, m) == ["p", "p"] && |g| - Count(m) == 3
  {
    var g, s := ["A", "A", "A", "B", "B"], ["x", "x", "y", "p", "p"];
    var m := Mask(g, s);
    MaskAt(g, s);
    assert !Keep(g, s, 0) by { assert g[2] == g[0] && s[2] != s[0]; }
    assert !Keep(g, s, 1) by { assert g[2] == g[1] && s[2] != s[1]; }
    assert !Keep(g, s, 2) by { assert g[0] == g[2] && s[0] != s[2]; }
    assert m == [false, false, false, true, true];
    assert g == g[..3] + g[3..] && s == s[..3] + s[3..] && m == m[..3] + m[3..];
    SelectAppend(g[..3], m[..3], g[3..], m[3..]);
    SelectAppend(s[..3], m[..3], s[3..], m[3..]);
    SelectConst(g[..3], m[..3], false);
    SelectConst(s[..3], m[..3], false);
    SelectConst(g[3..], m[3..], true);
    SelectConst(s[3..], m[3..], true);
    SelectLength(g, m);
  }

  // ---------------------------------------------------------------------
  // The scan, step by step.

  /** The sequence column is constant over rows `lo` to `hi - 1`, each row
      having the value of the run's last row. */
  predicate RunConstant(s: seq<string>, lo: nat, hi: nat)
    requires lo < hi <= |s|
  {
    forall t :: lo <= t < hi ==> s[t] == s[hi - 1]
  }

  /** The inner `for j in range(start, end)` loop: whether some row of the
      run differs from the run's last row. */
  method FindChange(s: seq<string>, start: nat, end: nat) returns (changed: bool)
    requires start < end <= |s|
    ensures changed <==> !RunConstant(s, start, end)
  {
    var j := start;
    while j < end
      invariant start <= j <= end
      invariant forall t :: start <= t < j ==> s[t] == s[end - 1]
    {
      if s[j] != s[end - 1] {
        return true;
      }
      j := j + 1;
    }
    return false;
  }

  /** A run read through the current table, whose first `k` rows are what
      survived of the rows before original row `b`. */
  lemma ShiftedRunConstant(sel: seq<string>, s0: seq<string>, b: nat, k: nat, i: nat)
    requires |sel| == k < i && b + (i - k) <= |s0|
    ensures |sel + s0[b..]| >= i
    ensures RunConstant(sel + s0[b..], k, i) <==> RunConstant(s0, b, b + (i - k))
  {
    var cur := sel + s0[b..];
    assert forall j :: k <= j < i ==> cur[j] == s0[b + (j - k)];
    if RunConstant(s0, b, b + (i - k)) {
      forall j | k <= j < i ensures cur[j] == cur[i - 1] {
        assert cur[j] == s0[b + (j - k)];
      }
    }
    if RunConstant(cur, k, i) {
      forall t | b <= t < b + (i - k) ensures s0[t] == s0[b + (i - k) - 1] {
        assert cur[k + (t - b)] == s0[t];
      }
    }
  }

  /** A run that is followed by another ID is kept exactly when its sequence
      value is constant. */
  lemma RunMask(g: seq<string>, s: seq<string>, b: nat, e: nat)
    requires |g| == |s| && Contiguous(g) && b < e < |g|
    requires g[b] !in g[..b]
    requires forall t :: b <= t < e ==> g[t] == g[b]
    requires g[e] != g[b]
    ensures forall t :: b <= t < e ==> (Keep(g, s, t) <==> RunConstant(s, b, e))
  {
    forall t | b <= t < e ensures Keep(g, s, t) <==> RunConstant(s, b, e) {
      assert g[t] == g[b];
      assert g[t] != g[|g| - 1];
      forall x | 0 <= x < b ensures g[x] != g[t] {
        assert g[..b][x] == g[x];
      }
      forall x | e <= x < |g| ensures g[x] != g[t] {
      }
    }
  }

  /** An ID that first appears right after a change of ID does not appear
      earlier. */
  lemma RunStart(g: seq<string>, e: nat)
    requires Contiguous(g) && 0 < e < |g| && g[e - 1] != g[e]
    ensures g[e] !in g[..e]
  {
    forall x | 0 <= x < e ensures g[..e][x] != g[e] {
    }
  }

  /** Moving the processed boundary past one run whose mask bits are all
      `keep`. */
  lemma AdvanceRun<T>(col: seq<T>, mask: seq<bool>, b: nat, e: nat, keep: bool)
    requires |col| == |mask| && b <= e <= |col|
    requires forall t :: b <= t < e ==> mask[t] == keep
    ensures Select(col[..e], mask[..e]) == Select(col[..b], mask[..b]) + (if keep then col[b..e] else [])
  {
    assert col[..e] == col[..b] + col[b..e] && mask[..e] == mask[..b] + mask[b..e];
    SelectAppend(col[..b], mask[..b], col[b..e], mask[b..e]);
    SelectConst(col[b..e], mask[b..e], keep);
  }

  /** Deleting rows `k` to `i - 1` of a column whose first `k` entries are
      `sel`. */
  lemma CutRun(sel: seq<string>, col: seq<string>, b: nat, k: nat, i: nat)
    requires |sel| == k <= i && b + (i - k) <= |col|
    ensures |sel + col[b..]| >= i
    ensures (sel + col[b..])[..k] + (sel + col[b..])[i..] == sel + col[b + (i - k)..]
  {
  }

  /** The state of the scan for a contiguous group column and its mask `m`:
      the original rows before `b` have been filtered (which leaves `k` of
      them, at the front of every column), the rows from `b` on are
      untouched, and the cursor `i` lies inside the run of `g0[b]`, which
      starts at row `b`. */
  ghost predicate Progress(d0: map<string, seq<string>>, gf: string, sf: string, m: seq<bool>,
                           data: map<string, seq<string>>, b: nat, k: nat, i: nat)
  {
    gf in d0 && sf in d0 && Rectangular(d0, |d0[gf]|) && |m| == |d0[gf]| &&
    var g0, n := d0[gf], |d0[gf]|;
    && data.Keys == d0.Keys && b <= n && k <= b && Count(m[..b]) == k
    && (forall f :: f in data ==> data[f] == Select(d0[f][..b], m[..b]) + d0[f][b..])
    && (n > 0 ==> b < n && k + 1 <= i <= k + (n - b) && g0[b] !in g0[..b]
                  && forall t :: b <= t < b + (i - k) ==> g0[t] == g0[b])
  }

  /** The width of the table in the middle of the scan. */
  lemma ProgressLength(d0: map<string, seq<string>>, gf: string, sf: string, m: seq<bool>,
                       data: map<string, seq<string>>, b: nat, k: nat, i: nat)
    requires Progress(d0, gf, sf, m, data, b, k, i)
    ensures gf in data && sf in data
    ensures forall f :: f in data ==> |data[f]| == k + (|d0[gf]| - b)
  {
    forall f | f in data ensures |data[f]| == k + (|d0[gf]| - b) {
      SelectLength(d0[f][..b], m[..b]);
    }
  }

  /** `Progress` at equal positions: only a rewriting step that lets the
      verifier match `Progress` at the positions a pass returns. */
  lemma ProgressEq(d0: map<string, seq<string>>, gf: string, sf: string, m: seq<bool>,
                   data: map<string, seq<string>>, b: nat, k: nat, i: nat, b2: nat, k2: nat, i2: nat)
    requires Progress(d0, gf, sf, m, data, b, k, i) && b == b2 && k == k2 && i == i2
    ensures Progress(d0, gf, sf, m, data, b2, k2, i2)
  {
  }

  /** The cursor moves on inside a run. */
  lemma SameStep(d0: map<string, seq<string>>, gf: string, sf: string, m: seq<bool>,
                 data: map<string, seq<string>>, b: nat, k: nat, i: nat)
    requires Progress(d0, gf, sf, m, data, b, k, i)
    requires gf in data && i < |data[gf]| && data[gf][i] == data[gf][i - 1]
    ensures Progress(d0, gf, sf, m, data, b, k, i + 1)
  {
    ProgressLength(d0, gf, sf, m, data, b, k, i);
    var g0 := d0[gf];
    var sel := Select(g0[..b], m[..b]);
    SelectLength(g0[..b], m[..b]);
    assert data[gf] == sel + g0[b..];
    assert data[gf][i] == g0[b + (i - k)] && data[gf][i - 1] == g0[b + (i - 1 - k)];
  }

  /** A change of ID, read through the current columns `cg` and `cs`: the
      run of the previous ID starts at row `k`, it is original rows `b` to
      `e - 1`, and the inner loop compares exactly that run. */
  lemma BoundaryCore(g0: seq<string>, s0: seq<string>, m: seq<bool>, cg: seq<string>, cs: seq<string>,
                     b: nat, k: nat, i: nat)
    requires |g0| == |s0| == |m| && b < |g0| && Count(m[..b]) == k && b + (i - k) < |g0|
    requires cg == Select(g0[..b], m[..b]) + g0[b..] && cs == Select(s0[..b], m[..b]) + s0[b..]
    requires k + 1 <= i < |cg| && cg[i] != cg[i - 1]
    requires g0[b] !in g0[..b] && forall t :: b <= t < b + (i - k) ==> g0[t] == g0[b]
    ensures var e := b + (i - k);
            && e < |g0| && g0[e - 1] != g0[e] && g0[e - 1] == g0[b]
            && cg[i - 1] in cg && IndexOf(cg, cg[i - 1]) == k
            && |cs| >= i
            && (RunConstant(cs, k, i) <==> RunConstant(s0, b, e))
  {
    var e := b + (i - k);
    var sel := Select(g0[..b], m[..b]);
    SelectLength(g0[..b], m[..b]);
    SelectLength(s0[..b], m[..b]);
    assert cg[i - 1] == g0[e - 1] == g0[b];
    assert cg[i] == g0[e];
    assert g0[b] !in sel by {
      if g0[b] in sel { SelectMembers(g0[..b], m[..b], g0[b]); }
    }
    IndexOfAfter(sel, g0[b..], g0[b]);
    ShiftedRunConstant(Select(s0[..b], m[..b]), s0, b, k, i);
  }

  /** `BoundaryCore` for the scan state. */
  lemma BoundaryFacts(d0: map<string, seq<string>>, gf: string, sf: string, m: seq<bool>,
                      data: map<string, seq<string>>, b: nat, k: nat, i: nat)
    requires Progress(d0, gf, sf, m, data, b, k, i)
    requires gf in data && i < |data[gf]| && data[gf][i] != data[gf][i - 1]
    ensures var e := b + (i - k);
            && e < |d0[gf]| && d0[gf][e - 1] != d0[gf][e]
            && data[gf][i - 1] in data[gf] && IndexOf(data[gf], data[gf][i - 1]) == k
            && sf in data && |data[sf]| >= i
            && (RunConstant(data[sf], k, i) <==> RunConstant(d0[sf], b, e))
  {
    ProgressLength(d0, gf, sf, m, data, b, k, i);
    BoundaryCore(d0[gf], d0[sf], m, data[gf], data[sf], b, k, i);
  }

  /** A run whose mask bits are set stays; the scan moves past it. */
  lemma KeepStep(d0: map<string, seq<string>>, gf: string, sf: string, m: seq<bool>,
                 data: map<string, seq<string>>, b: nat, k: nat, i: nat, e: nat)
    requires Progress(d0, gf, sf, m, data, b, k, i) && e == b + (i - k)
    requires e < |d0[gf]| && d0[gf][e] !in d0[gf][..e]
    requires gf in data && i < |data[gf]| && data[gf][i] != data[gf][i - 1]
    requires e <= |m| && forall t :: b <= t < e ==> m[t]
    ensures Progress(d0, gf, sf, m, data, e, i, i + 1)
  {
    KeepColumns(d0, m, data, b, e);
    CountAdvance(m, b, e, true);
  }

  /** A kept run joins the filtered prefix of a column unchanged. */
  lemma KeepColumn(col: seq<string>, m: seq<bool>, cur: seq<string>, b: nat, e: nat)
    requires |col| == |m| && b <= e <= |col|
    requires forall t :: b <= t < e ==> m[t]
    requires cur == Select(col[..b], m[..b]) + col[b..]
    ensures cur == Select(col[..e], m[..e]) + col[e..]
  {
    AdvanceRun(col, m, b, e, true);
    assert col[b..] == col[b..e] + col[e..];
  }

  lemma KeepColumns(d0: map<string, seq<string>>, m: seq<bool>, data: map<string, seq<string>>, b: nat, e: nat)
    requires forall f :: f in d0 ==> |d0[f]| == |m|
    requires b <= e <= |m| && forall t :: b <= t < e ==> m[t]
    requires data.Keys == d0.Keys
    requires forall f :: f in data ==> data[f] == Select(d0[f][..b], m[..b]) + d0[f][b..]
    ensures forall f :: f in data ==> data[f] == Select(d0[f][..e], m[..e]) + d0[f][e..]
  {
    forall f | f in data ensures data[f] == Select(d0[f][..e], m[..e]) + d0[f][e..] {
      KeepColumn(d0[f], m, data[f], b, e);
    }
  }

  lemma CutColumn(col: seq<string>, m: seq<bool>, cur: seq<string>, next: seq<string>, b: nat, k: nat, i: nat, e: nat)
    requires |col| == |m| && k <= i && e == b + (i - k) && e <= |col| && Count(m[..b]) == k
    requires cur == Select(col[..b], m[..b]) + col[b..]
    requires forall t :: b <= t < e ==> !m[t]
    requires i <= |cur| && next == cur[..k] + cur[i..]
    ensures next == Select(col[..e], m[..e]) + col[e..]
  {
    AdvanceRun(col, m, b, e, false);
    SelectLength(col[..b], m[..b]);
    CutRun(Select(col[..b], m[..b]), col, b, k, i);
  }

  /** Every column losing a run whose mask bits are clear. */
  lemma CutColumns(d0: map<string, seq<string>>, m: seq<bool>, dOld: map<string, seq<string>>,
                   data: map<string, seq<string>>, b: nat, k: nat, i: nat, e: nat)
    requires forall f :: f in d0 ==> |d0[f]| == |m|
    requires k <= i && e == b + (i - k) && e <= |m| && Count(m[..b]) == k
    requires forall t :: b <= t < e ==> !m[t]
    requires data.Keys == dOld.Keys == d0.Keys && forall f :: f in dOld ==> i <= |dOld[f]|
    requires forall f :: f in dOld ==> dOld[f] == Select(d0[f][..b], m[..b]) + d0[f][b..]
    requires forall f :: f in data ==> data[f] == dOld[f][..k] + dOld[f][i..]
    ensures forall f :: f in data ==> data[f] == Select(d0[f][..e], m[..e]) + d0[f][e..]
  {
    forall f | f in data ensures data[f] == Select(d0[f][..e], m[..e]) + d0[f][e..] {
      CutColumn(d0[f], m, dOld[f], data[f], b, k, i, e);
    }
  }

  /** The count of set bits after a run whose bits are all `keep`. */
  lemma CountAdvance(m: seq<bool>, b: nat, e: nat, keep: bool)
    requires b <= e <= |m|
    requires forall t :: b <= t < e ==> m[t] == keep
    ensures Count(m[..e]) == Count(m[..b]) + (if keep then e - b else 0)
  {
    AdvanceRun(m, m, b, e, keep);
    SelectLength(m[..e], m[..e]);
    SelectLength(m[..b], m[..b]);
  }

  /** A run whose mask bits are clear goes; the scan resumes with the first
      row after it. */
  lemma CutStep(d0: map<string, seq<string>>, gf: string, sf: string, m: seq<bool>,
                dOld: map<string, seq<string>>, data: map<string, seq<string>>, b: nat, k: nat, i: nat, e: nat)
    requires Progress(d0, gf, sf, m, dOld, b, k, i) && e == b + (i - k)
    requires e < |d0[gf]| && d0[gf][e] !in d0[gf][..e]
    requires e <= |m| && forall t :: b <= t < e ==> !m[t]
    requires data.Keys == dOld.Keys && forall f :: f in dOld ==> i <= |dOld[f]|
    requires forall f :: f in data ==> data[f] == dOld[f][..k] + dOld[f][i..]
    ensures Progress(d0, gf, sf, m, data, e, k, k + 1)
  {
    CutColumns(d0, m, dOld, data, b, k, i, e);
    CountAdvance(m, b, e, false);
  }

  /** Each column, once the cursor has run off the end. */
  lemma FinishColumn<T>(g0: seq<string>, s0: seq<string>, col: seq<T>, b: nat, k: nat, i: nat)
    requires |g0| == |s0| == |col| && b <= |g0|
    requires |g0| > 0 ==> b < |g0| && i == k + (|g0| - b) && forall t :: b <= t < b + (i - k) ==> g0[t] == g0[b]
    ensures var m := Mask(g0, s0);
            Select(col, m) == Select(col[..b], m[..b]) + col[b..]
  {
    if |g0| > 0 {
      assert forall t :: b <= t < |g0| ==> g0[t] == g0[|g0| - 1];
      FinalRunSurvives(g0, s0, col, b);
    }
  }

  /** The columns, once the cursor has run off the end. */
  lemma FinishColumns(d0: map<string, seq<string>>, gf: string, sf: string, m: seq<bool>,
                      data: map<string, seq<string>>, b: nat, k: nat, i: nat)
    requires Progress(d0, gf, sf, m, data, b, k, i) && m == Mask(d0[gf], d0[sf])
    requires gf in data && i >= |data[gf]|
    ensures forall f :: f in data ==> f in d0 && data[f] == Select(d0[f], m)
    ensures Select(m, m) == Select(m[..b], m[..b]) + m[b..]
  {
    ProgressLength(d0, gf, sf, m, data, b, k, i);
    var g0, s0 := d0[gf], d0[sf];
    forall f | f in data ensures data[f] == Select(d0[f], m) {
      FinishColumn(g0, s0, d0[f], b, k, i);
    }
    FinishColumn(g0, s0, m, b, k, i);
  }

  /** When the cursor has run off the end, the unprocessed rows are the
      final run, so the table is `Filtered` of the original and `b - k` rows
      are gone. */
  lemma FinishFacts(d0: map<string, seq<string>>, gf: string, sf: string, m: seq<bool>,
                    data: map<string, seq<string>>, b: nat, k: nat, i: nat)
    requires Progress(d0, gf, sf, m, data, b, k, i) && m == Mask(d0[gf], d0[sf])
    requires gf in data && i >= |data[gf]|
    ensures data == Filtered(d0, gf, sf)
    ensures b - k == |d0[gf]| - Count(m)
  {
    FinishColumns(d0, gf, sf, m, data, b, k, i);
    SelectLength(m, m);
    SelectLength(m[..b], m[..b]);
  }

  /** A run that ends at a change of ID: its mask bits are all set or all
      clear, by whether its sequence value is constant, and the next ID
      starts a new run. */
  lemma RunFacts(g: seq<string>, s: seq<string>, b: nat, e: nat)
    requires |g| == |s| && Contiguous(g) && b < e < |g|
    requires g[b] !in g[..b] && forall t :: b <= t < e ==> g[t] == g[b]
    requires g[e - 1] != g[e]
    ensures forall t :: b <= t < e ==> (Mask(g, s)[t] <==> RunConstant(s, b, e))
    ensures g[e] !in g[..e]
  {
    MaskAt(g, s);
    RunMask(g, s, b, e);
    RunStart(g, e);
  }

  /** Before the first iteration nothing has been processed. */
  lemma ProgressInit(d0: map<string, seq<string>>, gf: string, sf: string, m: seq<bool>)
    requires gf in d0 && sf in d0 && Rectangular(d0, |d0[gf]|) && |m| == |d0[gf]|
    ensures Progress(d0, gf, sf, m, d0, 0, 0, 1)
  {
    assert m[..0] == [];
    forall f | f in d0 ensures d0[f] == Select(d0[f][..0], m[..0]) + d0[f][0..] {
      assert d0[f][..0] == [] && d0[f][0..] == d0[f];
    }
  }

  /** For a contiguous group column, the run that ends at a change of ID has
      all its mask bits set or all clear, by whether its sequence value is
      constant, and the next ID starts a new run. */
  lemma BoundaryMask(d0: map<string, seq<string>>, gf: string, sf: string, m: seq<bool>,
                     data: map<string, seq<string>>, b: nat, k: nat, i: nat)
    requires Progress(d0, gf, sf, m, data, b, k, i)
    requires Contiguous(d0[gf]) && m == Mask(d0[gf], d0[sf])
    requires gf in data && i < |data[gf]| && data[gf][i] != data[gf][i - 1]
    ensures b + (i - k) < |m|
    ensures forall t :: b <= t < b + (i - k) ==> (m[t] <==> RunConstant(d0[sf], b, b + (i - k)))
    ensures d0[gf][b + (i - k)] !in d0[gf][..b + (i - k)]
  {
    BoundaryFacts(d0, gf, sf, m, data, b, k, i);
    RunFacts(d0[gf], d0[sf], b, b + (i - k));
  }

  /** One change of ID on a contiguous group column: after the run is cut
      (when `changed`) or kept, the scan state moves past that run. */
  lemma ChangeStep(d0: map<string, seq<string>>, gf: string, sf: string, m: seq<bool>,
                   dOld: map<string, seq<string>>, data: map<string, seq<string>>,
                   b: nat, k: nat, i: nat, start: nat, changed: bool, b2: nat, k2: nat, i2: nat)
    requires Progress(d0, gf, sf, m, dOld, b, k, i)
    requires Contiguous(d0[gf]) && m == Mask(d0[gf], d0[sf])
    requires gf in dOld && i < |dOld[gf]| && Rectangular(dOld, |dOld[gf]|)
    requires dOld[gf][i] != dOld[gf][i - 1]
    requires start == IndexOf(dOld[gf], dOld[gf][i - 1])
    requires sf in dOld && start < i && (changed <==> !RunConstant(dOld[sf], start, i))
    requires changed ==> data.Keys == dOld.Keys &&
                         forall f :: f in data ==> data[f] == dOld[f][..start] + dOld[f][i..]
    requires !changed ==> data == dOld
    requires b2 == b + (i - k) && k2 == (if changed then k else i)
    requires i2 == (if changed then start + 1 else i + 1)
    ensures start == k && Progress(d0, gf, sf, m, data, b2, k2, i2)
  {
    BoundaryFacts(d0, gf, sf, m, dOld, b, k, i);
    BoundaryMask(d0, gf, sf, m, dOld, b, k, i);
    if changed {
      CutStep(d0, gf, sf, m, dOld, data, b, k, i, b2);
    } else {
      KeepStep(d0, gf, sf, m, data, b, k, i, b2);
    }
    ProgressEq(d0, gf, sf, m, data, b2, k2, k2 + 1, b2, k2, i2);
  }

  // ---------------------------------------------------------------------
  // The table the filter changes in place.

  class Table {
    /** The column names, in output order. */
    const headers: seq<string>
    /** The dictionary of columns. */
    var data: map<string, seq<string>>
    /** The number of rows. */
    ghost var height: nat

    ghost predicate Valid()
      reads this
    {
      Rectangular(data, height)
    }

    constructor (headers: seq<string>, data: map<string, seq<string>>, ghost height: nat)
      requires Rectangular(data, height)
      ensures Valid()
      ensures this.headers == headers && this.data == data && this.height == height
    {
      this.headers := headers;
      this.data := data;
      this.height := height;
    }

    /** `for field in data.keys(): data[field].pop(k)`: row `k` leaves every
        column. */
    method PopRow(k: nat)
      requires Valid() && k < height
      modifies this
      ensures Valid() && height == old(height) - 1
      ensures data.Keys == old(data).Keys
      ensures forall f :: f in data ==> data[f] == RemoveAt(old(data)[f], k)
    {
      ghost var d0 := data;
      var keys := data.Keys;
      while keys != {}
        invariant keys <= d0.Keys && data.Keys == d0.Keys && height == old(height)
        invariant forall f :: f in keys ==> data[f] == d0[f]
        invariant forall f :: f in d0 && f !in keys ==> data[f] == RemoveAt(d0[f], k)
        decreases keys
      {
        var f :| f in keys;
        data := data[f := RemoveAt(data[f], k)];
        keys := keys - {f};
      }
      height := height - 1;
    }

    /** `for k in list(range(end-1, start-1, -1))`: the rows `start` to
        `end - 1` leave every column, the last one first; `removed` counts
        them. */
    method RemoveRows(start: nat, end: nat) returns (removed: nat)
      requires Valid() && start <= end <= height
      modifies this
      ensures Valid() && height == old(height) - (end - start)
      ensures removed == end - start
      ensures data.Keys == old(data).Keys
      ensures forall f :: f in data ==> data[f] == old(data)[f][..start] + old(data)[f][end..]
    {
      ghost var d0 := data;
      removed := 0;
      var k := end;
      while k > start
        invariant start <= k <= end
        invariant Valid() && height == old(height) - (end - k)
        invariant removed == end - k
        invariant data.Keys == d0.Keys
        invariant forall f :: f in data ==> data[f] == d0[f][..k] + d0[f][end..]
      {
        k := k - 1;
        PopRow(k);
        removed := removed + 1;
      }
    }

    /** One pass of the cursor loop at position `i`: at a change of ID the
        run of the previous ID, from its first occurrence up to the cursor,
        is compared with its last row and deleted when some row differs; the
        cursor then resumes just after the deletion point.  The ghost
        parameters carry the scan state of `Progress`. */
    method Advance(groupfield: string, seqfield: string, i: nat,
                   ghost d0: map<string, seq<string>>, ghost m: seq<bool>, ghost contig: bool,
                   ghost b: nat, ghost k: nat)
      returns (next: nat, removed: nat, ghost b': nat, ghost k': nat)
      requires Valid() && groupfield in data && seqfield in data && 1 <= i < |data[groupfield]|
      requires contig ==> groupfield in d0 && seqfield in d0 && Contiguous(d0[groupfield])
      requires contig ==> Progress(d0, groupfield, seqfield, m, data, b, k, i)
      requires contig ==> m == Mask(d0[groupfield], d0[seqfield])
      modifies this
      ensures Valid() && data.Keys == old(data).Keys
      ensures removed <= old(height) && height == old(height) - removed
      ensures 1 <= next <= height
      ensures var g := old(data)[groupfield]; g[i - 1] in g && IndexOf(g, g[i - 1]) < i
      ensures var g, s := old(data)[groupfield], old(data)[seqfield];
              removed == 0 <==> g[i] == g[i - 1] || RunConstant(s, IndexOf(g, g[i - 1]), i)
      ensures removed == 0 ==> data == old(data) && next == i + 1
      ensures removed > 0 ==>
                var g := old(data)[groupfield];
                var start := IndexOf(g, g[i - 1]);
                && removed == i - start && next == start + 1
                && forall f :: f in data ==> data[f] == old(data)[f][..start] + old(data)[f][i..]
      ensures contig ==> Progress(d0, groupfield, seqfield, m, data, b', k', next)
      ensures contig ==> b' - k' == b - k + removed
    {
      IndexOfAtMost(data[groupfield], i - 1);
      var previousID := data[groupfield][i - 1];
      var currentID := data[groupfield][i];
      next, removed, b', k' := i + 1, 0, b, k;
      if currentID != previousID {
        var start := IndexOf(data[groupfield], previousID);
        var end := i;
        ghost var dOld := data;
        var changed := FindChange(data[seqfield], start, end);
        if changed {
          removed := RemoveRows(start, end);
          next := start + 1;
        }
        if contig {
          b', k' := b + (i - k), if changed then k else i;
          ChangeStep(d0, groupfield, seqfield, m, dOld, data, b, k, i, start, changed, b', k', next);
        }
      } else if contig {
        SameStep(d0, groupfield, seqfield, m, data, b, k, i);
        ProgressEq(d0, groupfield, seqfield, m, data, b, k, i + 1, b', k', next);
      }
    }

    /** The filtering part of `extract_sequential`: the two named columns
        must exist, then the cursor loop deletes every run whose sequence
        value changes, except the last run.  When each ID occupies one
        contiguous run the result is `Filtered` of the old table; in every
        case the count is the number of rows removed. */
    method ExtractSequential(groupfield: string, seqfield: string) returns (r: Result<nat, FilterError>)
      requires Valid()
      modifies this
      ensures Valid() && data.Keys == old(data).Keys
      ensures groupfield !in old(data) ==>
                r == Err(MissingColumn(groupfield, headers)) && data == old(data)
      ensures groupfield in old(data) && seqfield !in old(data) ==>
                r == Err(MissingColumn(seqfield, headers)) && data == old(data)
      ensures groupfield in old(data) && seqfield in old(data) ==>
                r == Ok(old(height) - height)
      ensures groupfield in old(data) && seqfield in old(data) && Contiguous(old(data)[groupfield]) ==>
                data == Filtered(old(data), groupfield, seqfield) &&
                r.value == |old(data)[groupfield]| - Count(Mask(old(data)[groupfield], old(data)[seqfield]))
    {
      if groupfield !in data {
        return Err(MissingColumn(groupfield, headers));
      }
      if seqfield !in data {
        return Err(MissingColumn(seqfield, headers));
      }
      ghost var d0, n := data, height;
      ghost var m := Mask(data[groupfield], data[seqfield]);
      ghost var contig := Contiguous(data[groupfield]);
      ghost var b: nat, k: nat := 0, 0;
      ProgressInit(d0, groupfield, seqfield, m);
      var i := 1;
      var removecount := 0;
      while i < |data[groupfield]|
        invariant Valid() && data.Keys == d0.Keys
        invariant removecount <= n && height == n - removecount
        invariant 1 <= i && (i <= height || height == 0)
        invariant contig ==> Progress(d0, groupfield, seqfield, m, data, b, k, i) && removecount == b - k
        decreases height, height - i
      {
        var removed;
        i, removed, b, k := Advance(groupfield, seqfield, i, d0, m, contig, b, k);
        removecount := removecount + removed;
      }
      if contig {
        FinishFacts(d0, groupfield, seqfield, m, data, b, k, i);
      }
      return Ok(removecount);
    }
  }
}
