/** The count aggregator (aggcnt.py): it sums the key/count objects read one
    per input line into a `Counter` and writes the 25 largest totals. */
module AggCount {

  /** One input line after `json.loads`: its key/count pairs in order. */
  type Line = seq<(string, int)>

  const TopRows: nat := 25

  /** `dict(data)`: the pairs of a line as a dictionary; a key that occurs
      twice keeps the value of its last occurrence. */
  function DictOf(pairs: Line): map<string, int>
    decreases |pairs|
  {
    if pairs == [] then map[]
    else DictOf(pairs[..|pairs| - 1])[pairs[|pairs| - 1].0 := pairs[|pairs| - 1].1]
  }

  /** A key is in the dictionary exactly when some pair names it. */
  lemma {:induction false} DictOfKeys(pairs: Line)
    ensures forall k :: k in DictOf(pairs) <==> exists i :: 0 <= i < |pairs| && pairs[i].0 == k
    decreases |pairs|
  {
    if pairs != [] {
      var init := pairs[..|pairs| - 1];
      DictOfKeys(init);
      forall k | k in DictOf(pairs)
        ensures exists i :: 0 <= i < |pairs| && pairs[i].0 == k
      {
        if k != pairs[|pairs| - 1].0 {
          assert k in DictOf(init);
          var i :| 0 <= i < |init| && init[i].0 == k;
          assert pairs[i] == init[i];
        }
      }
      forall k | exists i :: 0 <= i < |pairs| && pairs[i].0 == k
        ensures k in DictOf(pairs)
      {
        var i :| 0 <= i < |pairs| && pairs[i].0 == k;
        if i < |init| { assert init[i] == pairs[i]; }
      }
    }
  }

  /** A key's value is the one its last pair gives. */
  lemma {:induction false} DictOfLastWins(pairs: Line, i: nat)
    requires i < |pairs|
    requires forall j :: i < j < |pairs| ==> pairs[j].0 != pairs[i].0
    ensures pairs[i].0 in DictOf(pairs) && DictOf(pairs)[pairs[i].0] == pairs[i].1
    decreases |pairs|
  {
    var init := pairs[..|pairs| - 1];
    if i < |init| {
      assert pairs[i] == init[i];
      forall j | i < j < |init|
        ensures init[j].0 != init[i].0
      {
        assert init[j] == pairs[j];
      }
      DictOfLastWins(init, i);
    }
  }

  /** `Counter.get(key, 0)`. */
  function Get(c: map<string, int>, k: string): int
  {
    if k in c then c[k] else 0
  }

  /** `Counter.update(d)` on counts `c`: every key of `d` gets its value added. */
  function Added(c: map<string, int>, d: map<string, int>): map<string, int>
  {
    map k | k in c.Keys + d.Keys :: Get(c, k) + Get(d, k)
  }

  /** After `update`, the counter has the keys of both, and each key counts
      its old count plus the line's value for it. */
  lemma AddedCounts(c: map<string, int>, d: map<string, int>)
    ensures Added(c, d).Keys == c.Keys + d.Keys
    ensures forall k :: Get(Added(c, d), k) == Get(c, k) + Get(d, k)
  {
  }

  /** The counter after the lines, each line added in order. */
  function Total(lines: seq<Line>): map<string, int>
    decreases |lines|
  {
    if lines == [] then map[]
    else Added(Total(lines[..|lines| - 1]), DictOf(lines[|lines| - 1]))
  }

  /** The sum of what the lines give `k`, each after `dict`. */
  function KeyTotal(lines: seq<Line>, k: string): int
    decreases |lines|
  {
    if lines == [] then 0
    else KeyTotal(lines[..|lines| - 1], k) + Get(DictOf(lines[|lines| - 1]), k)
  }

  /** The final count of a key is the sum of its values across all lines,
      and a key is counted exactly when some line names it. */
  lemma {:induction false} TotalIsSum(lines: seq<Line>)
    ensures forall k :: Get(Total(lines), k) == KeyTotal(lines, k)
    ensures forall k :: k in Total(lines) <==> exists i :: 0 <= i < |lines| && k in DictOf(lines[i])
    decreases |lines|
  {
    if lines != [] {
      var init := lines[..|lines| - 1];
      TotalIsSum(init);
      forall k | k in Total(lines)
        ensures exists i :: 0 <= i < |lines| && k in DictOf(lines[i])
      {
        if k !in DictOf(lines[|lines| - 1]) {
          assert k in Total(init);
          var i :| 0 <= i < |init| && k in DictOf(init[i]);
          assert lines[i] == init[i];
        }
      }
      forall k | exists i :: 0 <= i < |lines| && k in DictOf(lines[i])
        ensures k in Total(lines)
      {
        var i :| 0 <= i < |lines| && k in DictOf(lines[i]);
        if i < |init| { assert init[i] == lines[i]; }
      }
    }
  }

  /** The rows `most_common(n)` may write for counts `c`: at most `n`, all
      of them if there are fewer keys, each a distinct key with its count,
      in non-increasing count order, and no key left out counting more than
      a key written. */
  predicate MostCommonRows(c: map<string, int>, n: nat, rows: seq<(string, int)>)
  {
    && |rows| == (if n <= |c| then n else |c|)
    && (forall i :: 0 <= i < |rows| ==> rows[i].0 in c && rows[i].1 == c[rows[i].0])
    && (forall i, j :: 0 <= i < j < |rows| ==> rows[i].0 != rows[j].0)
    && (forall i, j :: 0 <= i < j < |rows| ==> rows[i].1 >= rows[j].1)
    && (forall k, i :: k in c && 0 <= i < |rows| && k !in Keys(rows) ==> c[k] <= rows[i].1)
  }

  /** The keys of some rows. */
  function Keys(rows: seq<(string, int)>): set<string>
  {
    set i | 0 <= i < |rows| :: rows[i].0
  }

  /** A key of `m` with the largest count (ties go to whichever key the
      scan meets first). */
  method MaxKey(m: map<string, int>) returns (best: string)
    requires m != map[]
    ensures best in m
    ensures forall k :: k in m ==> m[k] <= m[best]
  {
    var keys := m.Keys;
    best :| best in keys;
    while keys != {}
      invariant keys <= m.Keys && best in m
      invariant forall k :: k in m && k !in keys ==> m[k] <= m[best]
      decreases keys
    {
      var k :| k in keys;
      if m[k] > m[best] {
        best := k;
      }
      keys := keys - {k};
    }
  }

  /** The `Counter` of `main`, updated in place once per line. */
  class Counter {
    var counts: map<string, int>

    constructor ()
      ensures counts == map[]
    {
      counts := map[];
    }

    /** `Counter.update(d)`: for each key of `d`, its count plus the
        key's value. */
    method Update(d: map<string, int>)
      modifies this
      ensures counts == Added(old(counts), d)
    {
      var keys := d.Keys;
      ghost var start := counts;
      while keys != {}
        invariant keys <= d.Keys
        invariant counts.Keys == start.Keys + (d.Keys - keys)
        invariant forall k :: k in counts ==> counts[k] == Get(start, k) + (if k in d && k !in keys then d[k] else 0)
        decreases keys
      {
        var k :| k in keys;
        counts := counts[k := Get(counts, k) + d[k]];
        keys := keys - {k};
      }
      assert counts == Added(start, d);
    }

    /** `most_common(n)`: the `n` keys with the largest counts, largest
        first, found by repeatedly taking the largest of the keys left. */
    method MostCommon(n: nat) returns (rows: seq<(string, int)>)
      ensures MostCommonRows(counts, n, rows)
    {
      rows := [];
      var left := counts;
      while |rows| < n && left != map[]
        invariant Selecting(counts, left, rows)
        invariant |rows| <= n
        decreases |left.Keys|
      {
        var k := MaxKey(left);
        SelectStep(counts, left, rows, k);
        rows := rows + [(k, left[k])];
        left := left - {k};
      }
      SelectionDone(counts, left, rows, n);
    }
  }

  /** What the selection loop keeps: `rows` were taken from `c` largest
      first, `left` holds the rest of `c`, and nothing left is larger than
      a row taken. */
  predicate Selecting(c: map<string, int>, left: map<string, int>, rows: seq<(string, int)>)
  {
    && left.Keys == c.Keys - Keys(rows)
    && (forall k :: k in left ==> k in c && left[k] == c[k])
    && |rows| + |left.Keys| == |c.Keys|
    && (forall i :: 0 <= i < |rows| ==> rows[i].0 in c && rows[i].1 == c[rows[i].0])
    && (forall i, j :: 0 <= i < j < |rows| ==> rows[i].0 != rows[j].0)
    && (forall i, j :: 0 <= i < j < |rows| ==> rows[i].1 >= rows[j].1)
    && (forall k, i :: k in left && 0 <= i < |rows| ==> left[k] <= rows[i].1)
  }

  /** Taking a largest key of `left` as the next row keeps the selection
      invariant. */
  lemma SelectStep(c: map<string, int>, left: map<string, int>, rows: seq<(string, int)>, k: string)
    requires Selecting(c, left, rows)
    requires k in left && forall k' :: k' in left ==> left[k'] <= left[k]
    ensures Selecting(c, left - {k}, rows + [(k, left[k])])
  {
    var rows', left' := rows + [(k, left[k])], left - {k};
    KeysSnoc(rows, (k, left[k]));
    assert left'.Keys == left.Keys - {k};
    RowsStep(c, rows, (k, left[k]));
    OrderStep(c, left, rows, k);
  }

  /** The loop stops with the rows `most_common(n)` writes: when `n` rows
      are taken or no key is left. */
  lemma SelectionDone(c: map<string, int>, left: map<string, int>, rows: seq<(string, int)>, n: nat)
    requires Selecting(c, left, rows) && |rows| <= n
    requires |rows| == n || left == map[]
    ensures MostCommonRows(c, n, rows)
  {
    if left == map[] {
      assert left.Keys == {};
    }
    forall k, i | k in c && 0 <= i < |rows| && k !in Keys(rows)
      ensures c[k] <= rows[i].1
    {
      assert k in left;
    }
  }

  /** The next row is a key of `c` with its count. */
  lemma RowsStep(c: map<string, int>, rows: seq<(string, int)>, row: (string, int))
    requires forall i :: 0 <= i < |rows| ==> rows[i].0 in c && rows[i].1 == c[rows[i].0]
    requires row.0 in c && row.1 == c[row.0]
    ensures var rows' := rows + [row];
      forall i :: 0 <= i < |rows'| ==> rows'[i].0 in c && rows'[i].1 == c[rows'[i].0]
  {
    var rows' := rows + [row];
    forall i | 0 <= i < |rows'|
      ensures rows'[i].0 in c && rows'[i].1 == c[rows'[i].0]
    {
      if i < |rows| { assert rows'[i] == rows[i]; }
    }
  }

  /** A largest key left is new, counts no more than any row taken and
      no less than any key still left. */
  lemma OrderStep(c: map<string, int>, left: map<string, int>, rows: seq<(string, int)>, k: string)
    requires left.Keys == c.Keys - Keys(rows)
    requires forall i, j :: 0 <= i < j < |rows| ==> rows[i].0 != rows[j].0
    requires forall i, j :: 0 <= i < j < |rows| ==> rows[i].1 >= rows[j].1
    requires forall k', i :: k' in left && 0 <= i < |rows| ==> left[k'] <= rows[i].1
    requires k in left && forall k' :: k' in left ==> left[k'] <= left[k]
    ensures var rows', left' := rows + [(k, left[k])], left - {k};
      && (forall i, j :: 0 <= i < j < |rows'| ==> rows'[i].0 != rows'[j].0)
      && (forall i, j :: 0 <= i < j < |rows'| ==> rows'[i].1 >= rows'[j].1)
      && (forall k', i :: k' in left' && 0 <= i < |rows'| ==> left'[k'] <= rows'[i].1)
  {
    var rows', left' := rows + [(k, left[k])], left - {k};
    forall i, j | 0 <= i < j < |rows'|
      ensures rows'[i].0 != rows'[j].0 && rows'[i].1 >= rows'[j].1
    {
      assert rows'[i] == rows[i];
      if j == |rows| {
        assert rows[i].0 in Keys(rows);
      } else {
        assert rows'[j] == rows[j];
      }
    }
    forall k', i | k' in left' && 0 <= i < |rows'|
      ensures left'[k'] <= rows'[i].1
    {
      if i < |rows| { assert rows'[i] == rows[i]; }
    }
  }

  lemma KeysSnoc(rows: seq<(string, int)>, row: (string, int))
    ensures Keys(rows + [row]) == Keys(rows) + {row.0}
  {
    var rs := rows + [row];
    forall k | k in Keys(rs)
      ensures k in Keys(rows) + {row.0}
    {
      var i :| 0 <= i < |rs| && rs[i].0 == k;
      if i < |rows| { assert rows[i] == rs[i]; }
    }
    forall k | k in Keys(rows) + {row.0}
      ensures k in Keys(rs)
    {
      if k == row.0 { assert rs[|rows|].0 == k; }
      else {
        var i :| 0 <= i < |rows| && rows[i].0 == k;
        assert rs[i] == rows[i];
      }
    }
  }

  /** `main`: every line's dictionary added to a fresh counter, then the 25
      most common keys written as rows. */
  method Aggregate(lines: seq<Line>) returns (rows: seq<(string, int)>)
    ensures MostCommonRows(Total(lines), TopRows, rows)
  {
    var ctr := new Counter();
    var i := 0;
    while i < |lines|
      invariant 0 <= i <= |lines|
      invariant ctr.counts == Total(lines[..i])
    {
      assert lines[..i + 1][..i] == lines[..i];
      ctr.Update(DictOf(lines[i]));
      i := i + 1;
    }
    assert lines[..|lines|] == lines;
    rows := ctr.MostCommon(TopRows);
  }
}
