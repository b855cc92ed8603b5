/** The group-by-sum every aggregation of the conversion is built from
    (pandas' `df.groupby(cols, as_index=False).sum()`): rows sharing a key are
    merged into one whose value columns are the column-wise sums.

    Totals are measured by weights: a weight gives each row a number, and the
    total of a table is the sum of its rows' weights. A weight is additive when
    merging two rows of the same key adds their weights; every additive weight
    -- one value column, one value column restricted to one key or to keys of a
    kind, the sum of all columns -- is conserved by grouping. */
module Aggregate {

  /** A row being grouped: its grouping key and its value columns. */
  datatype Entry<K> = Entry(key: K, vals: seq<real>)

  /** Column `j` of a value vector; absent columns read as zero. */
  function At(v: seq<real>, j: nat): real {
    if j < |v| then v[j] else 0.0
  }

  /** Sum of the first `n` columns of `v`. */
  function SumTo(v: seq<real>, n: nat): real {
    if n == 0 then 0.0 else SumTo(v, n - 1) + At(v, n - 1)
  }

  function Sum(v: seq<real>): real {
    SumTo(v, |v|)
  }

  /** Column-wise addition, a missing column counting as zero. */
  function AddVec(a: seq<real>, b: seq<real>): (c: seq<real>)
    ensures |c| == if |a| < |b| then |b| else |a|
    ensures forall j: nat :: At(c, j) == At(a, j) + At(b, j)
  {
    var n := if |a| < |b| then |b| else |a|;
    seq(n, j requires 0 <= j < n => At(a, j) + At(b, j))
  }

  lemma {:induction false} SumToAdd(a: seq<real>, b: seq<real>, n: nat)
    ensures SumTo(AddVec(a, b), n) == SumTo(a, n) + SumTo(b, n)
  {
    if n > 0 {
      SumToAdd(a, b, n - 1);
    }
  }

  /** Columns beyond the end of a vector add nothing. */
  lemma {:induction false} SumToPastEnd(v: seq<real>, n: nat)
    requires |v| <= n
    ensures SumTo(v, n) == Sum(v)
    decreases n
  {
    if n > |v| {
      SumToPastEnd(v, n - 1);
    }
  }

  /** The row sum of a column-wise sum is the sum of the row sums. */
  lemma SumAddVec(a: seq<real>, b: seq<real>)
    ensures Sum(AddVec(a, b)) == Sum(a) + Sum(b)
  {
    var c := AddVec(a, b);
    SumToAdd(a, b, |c|);
    SumToPastEnd(a, |c|);
    SumToPastEnd(b, |c|);
  }

  function Keys<K(==)>(rows: seq<Entry<K>>): set<K> {
    set i | 0 <= i < |rows| :: rows[i].key
  }

  /** No key occurs on two rows. */
  predicate Distinct<K(==)>(rows: seq<Entry<K>>) {
    forall i, j :: 0 <= i < j < |rows| ==> rows[i].key != rows[j].key
  }

  /** Every row carries exactly `n` value columns. */
  predicate Width<K(==)>(rows: seq<Entry<K>>, n: nat) {
    forall i :: 0 <= i < |rows| ==> |rows[i].vals| == n
  }

  /** Sum of the weights `w` of all rows. */
  function Total<K(==)>(rows: seq<Entry<K>>, w: Entry<K> -> real): real {
    if |rows| == 0 then 0.0 else Total(rows[..|rows| - 1], w) + w(rows[|rows| - 1])
  }

  /** Merging two rows of one key adds their weights. */
  ghost predicate Additive<K(!new)>(w: Entry<K> -> real) {
    forall k, a, b :: w(Entry(k, AddVec(a, b))) == w(Entry(k, a)) + w(Entry(k, b))
  }

  /** Weight: value column `j`. */
  function Column<K(==)>(j: nat): Entry<K> -> real {
    (e: Entry<K>) => At(e.vals, j)
  }

  /** The totals of value columns `0` .. `n - 1`, added up. */
  function TotalUpTo<K(==)>(rows: seq<Entry<K>>, n: nat): real {
    if n == 0 then 0.0 else TotalUpTo(rows, n - 1) + Total(rows, Column(n - 1))
  }

  /** Tables with the same column totals have the same sum of them. */
  lemma {:induction false} TotalUpToSame<K, L>(a: seq<Entry<K>>, b: seq<Entry<L>>, n: nat)
    requires forall j: nat :: j < n ==> Total(a, Column(j)) == Total(b, Column(j))
    ensures TotalUpTo(a, n) == TotalUpTo(b, n)
  {
    if n > 0 {
      TotalUpToSame(a, b, n - 1);
    }
  }

  /** Weight: value column `j` of the rows keyed `k`. */
  function KeyColumn<K(==)>(k: K, j: nat): Entry<K> -> real {
    (e: Entry<K>) => if e.key == k then At(e.vals, j) else 0.0
  }

  /** Weight: value column `j` of the rows whose key passes `keep`. */
  function SelectColumn<K(==)>(keep: K -> bool, j: nat): Entry<K> -> real {
    (e: Entry<K>) => if keep(e.key) then At(e.vals, j) else 0.0
  }

  /** Weight: the sum of all value columns. */
  function RowSum<K(==)>(): Entry<K> -> real {
    (e: Entry<K>) => Sum(e.vals)
  }

  /** Total of column `j` over the rows keyed `k`. */
  function KeyTotal<K(==)>(rows: seq<Entry<K>>, k: K, j: nat): real {
    Total(rows, KeyColumn(k, j))
  }

  lemma ColumnAdditive<K(!new)>(j: nat)
    ensures Additive(Column<K>(j))
  {
  }

  lemma KeyColumnAdditive<K(!new)>(k: K, j: nat)
    ensures Additive(KeyColumn(k, j))
  {
  }

  lemma SelectColumnAdditive<K(!new)>(keep: K -> bool, j: nat)
    ensures Additive(SelectColumn(keep, j))
  {
  }

  lemma RowSumAdditive<K(!new)>()
    ensures Additive(RowSum<K>())
  {
    forall k: K, a: seq<real>, b: seq<real>
      ensures RowSum()(Entry(k, AddVec(a, b))) == RowSum()(Entry(k, a)) + RowSum()(Entry(k, b))
    {
      SumAddVec(a, b);
    }
  }

  lemma TotalAppend<K>(rows: seq<Entry<K>>, e: Entry<K>, w: Entry<K> -> real)
    ensures Total(rows + [e], w) == Total(rows, w) + w(e)
  {
    assert (rows + [e])[..|rows|] == rows;
  }

  lemma TotalConcat<K>(a: seq<Entry<K>>, b: seq<Entry<K>>, w: Entry<K> -> real)
    ensures Total(a + b, w) == Total(a, w) + Total(b, w)
    decreases |b|
  {
    if |b| > 0 {
      var b' := b[..|b| - 1];
      assert a + b == (a + b') + [b[|b| - 1]];
      TotalAppend(a + b', b[|b| - 1], w);
      TotalAppend(b', b[|b| - 1], w);
      assert b == b' + [b[|b| - 1]];
      TotalConcat(a, b', w);
    } else {
      assert a + b == a;
    }
  }

  /** Replacing one row changes the total by the difference of the weights. */
  lemma {:induction false} TotalUpdate<K>(rows: seq<Entry<K>>, i: nat, x: Entry<K>, w: Entry<K> -> real)
    requires i < |rows|
    ensures Total(rows[i := x], w) == Total(rows, w) - w(rows[i]) + w(x)
    decreases |rows|
  {
    var n := |rows| - 1;
    var u := rows[i := x];
    if i == n {
      assert u[..n] == rows[..n];
    } else {
      assert u[..n] == rows[..n][i := x];
      TotalUpdate(rows[..n], i, x, w);
    }
  }

  /** In a table without repeated keys, the total of one key's column is the
      column of the single row with that key, or zero when there is none. */
  lemma {:induction false} KeyTotalOfDistinct<K>(rows: seq<Entry<K>>, k: K, j: nat)
    requires Distinct(rows)
    ensures k !in Keys(rows) ==> KeyTotal(rows, k, j) == 0.0
    ensures forall i :: 0 <= i < |rows| && rows[i].key == k ==> KeyTotal(rows, k, j) == At(rows[i].vals, j)
    decreases |rows|
  {
    if |rows| > 0 {
      var n := |rows| - 1;
      var p := rows[..n];
      assert Keys(p) <= Keys(rows) by {
        forall x | x in Keys(p) ensures x in Keys(rows) {
          var i :| 0 <= i < |p| && p[i].key == x;
          assert rows[i].key == x;
        }
      }
      KeyTotalOfDistinct(p, k, j);
      if rows[n].key == k {
        assert k !in Keys(p);
      } else {
        assert k in Keys(rows) ==> k in Keys(p) by {
          if k in Keys(rows) {
            var i :| 0 <= i < |rows| && rows[i].key == k;
            assert i < n && p[i].key == k;
          }
        }
      }
    }
  }

  /** Position of the row keyed `k`, or -1 when no row has that key. */
  function IndexOf<K(==)>(rows: seq<Entry<K>>, k: K): (i: int)
    ensures -1 <= i < |rows|
    ensures 0 <= i ==> rows[i].key == k
    ensures i < 0 ==> k !in Keys(rows)
  {
    if |rows| == 0 then -1
    else if rows[0].key == k then 0
    else
      var t := IndexOf(rows[1..], k);
      assert k in Keys(rows) ==> k in Keys(rows[1..]) by {
        if k in Keys(rows) {
          var i :| 0 <= i < |rows| && rows[i].key == k;
          assert rows[1..][i - 1].key == k;
        }
      }
      if t < 0 then -1 else t + 1
  }

  /** Adds one row to an already grouped table: into the row with the same
      key if there is one, else as a new last row. */
  function Insert<K(==)>(acc: seq<Entry<K>>, e: Entry<K>): seq<Entry<K>> {
    var i := IndexOf(acc, e.key);
    if i < 0 then acc + [e] else acc[i := Entry(e.key, AddVec(acc[i].vals, e.vals))]
  }

  /** `df.groupby(key).sum()`: one row per distinct key, in order of first
      appearance, carrying the column-wise sum of that key's rows. */
  function GroupSum<K(==)>(rows: seq<Entry<K>>): seq<Entry<K>> {
    if |rows| == 0 then [] else Insert(GroupSum(rows[..|rows| - 1]), rows[|rows| - 1])
  }

  lemma InsertShape<K>(acc: seq<Entry<K>>, e: Entry<K>, n: nat)
    ensures Keys(Insert(acc, e)) == Keys(acc) + {e.key}
    ensures Distinct(acc) ==> Distinct(Insert(acc, e))
    ensures |Insert(acc, e)| <= |acc| + 1
    ensures Width(acc, n) && |e.vals| == n ==> Width(Insert(acc, e), n)
  {
    var r := Insert(acc, e);
    var i := IndexOf(acc, e.key);
    if i < 0 {
      assert forall x :: x in Keys(r) <==> x in Keys(acc) || x == e.key by {
        forall x ensures x in Keys(r) <==> x in Keys(acc) || x == e.key {
          if x in Keys(acc) {
            var m :| 0 <= m < |acc| && acc[m].key == x;
            assert r[m].key == x;
          }
          if x == e.key {
            assert r[|acc|].key == x;
          }
        }
      }
    } else {
      assert forall m :: 0 <= m < |r| ==> r[m].key == acc[m].key;
      assert Keys(r) == Keys(acc);
    }
  }

  /** Grouping leaves every key exactly once, loses no key and invents none,
      never adds rows, and keeps a uniform column count. */
  lemma {:induction false} GroupSumShape<K>(rows: seq<Entry<K>>, n: nat)
    ensures Distinct(GroupSum(rows))
    ensures Keys(GroupSum(rows)) == Keys(rows)
    ensures |GroupSum(rows)| <= |rows|
    ensures Width(rows, n) ==> Width(GroupSum(rows), n)
    decreases |rows|
  {
    if |rows| > 0 {
      var m := |rows| - 1;
      var p := rows[..m];
      GroupSumShape(p, n);
      InsertShape(GroupSum(p), rows[m], n);
      assert Keys(rows) == Keys(p) + {rows[m].key} by {
        assert rows == p + [rows[m]];
        forall x ensures x in Keys(rows) <==> x in Keys(p) || x == rows[m].key {
          if x in Keys(rows) {
            var i :| 0 <= i < |rows| && rows[i].key == x;
            if i < m {
              assert p[i].key == x;
            }
          }
          if x in Keys(p) {
            var i :| 0 <= i < |p| && p[i].key == x;
            assert rows[i].key == x;
          }
        }
      }
    }
  }

  lemma InsertTotal<K(!new)>(acc: seq<Entry<K>>, e: Entry<K>, w: Entry<K> -> real)
    requires Additive(w)
    ensures Total(Insert(acc, e), w) == Total(acc, w) + w(e)
  {
    var i := IndexOf(acc, e.key);
    if i < 0 {
      TotalAppend(acc, e, w);
    } else {
      var x := Entry(e.key, AddVec(acc[i].vals, e.vals));
      TotalUpdate(acc, i, x, w);
      assert acc[i] == Entry(e.key, acc[i].vals);
      assert w(x) == w(Entry(e.key, acc[i].vals)) + w(Entry(e.key, e.vals));
    }
  }

  /** Grouping conserves every additive weight: the total of each value
      column, and of each column restricted to any set of keys. */
  lemma {:induction false} GroupSumTotal<K(!new)>(rows: seq<Entry<K>>, w: Entry<K> -> real)
    requires Additive(w)
    ensures Total(GroupSum(rows), w) == Total(rows, w)
    decreases |rows|
  {
    if |rows| > 0 {
      var m := |rows| - 1;
      GroupSumTotal(rows[..m], w);
      InsertTotal(GroupSum(rows[..m]), rows[m], w);
    }
  }

  /** Each grouped row carries, in every column, the sum of that column over
      exactly the input rows with its key. */
  lemma GroupSumValues<K(!new)>(rows: seq<Entry<K>>, i: nat, j: nat)
    requires i < |GroupSum(rows)|
    ensures At(GroupSum(rows)[i].vals, j) == KeyTotal(rows, GroupSum(rows)[i].key, j)
  {
    var out := GroupSum(rows);
    var k := out[i].key;
    GroupSumShape(rows, 0);
    KeyColumnAdditive(k, j);
    GroupSumTotal(rows, KeyColumn(k, j));
    KeyTotalOfDistinct(out, k, j);
  }

  /** Grouping conserves the total of every value column. */
  lemma GroupSumColumnTotal<K(!new)>(rows: seq<Entry<K>>, j: nat)
    ensures Total(GroupSum(rows), Column(j)) == Total(rows, Column(j))
  {
    ColumnAdditive<K>(j);
    GroupSumTotal(rows, Column(j));
  }

  /** Grouping conserves the total of a column over the keys passing `keep`. */
  lemma GroupSumSelectTotal<K(!new)>(rows: seq<Entry<K>>, keep: K -> bool, j: nat)
    ensures Total(GroupSum(rows), SelectColumn(keep, j)) == Total(rows, SelectColumn(keep, j))
  {
    SelectColumnAdditive(keep, j);
    GroupSumTotal(rows, SelectColumn(keep, j));
  }

  /** Grouping conserves the grand total of all value columns. */
  lemma GroupSumRowSumTotal<K(!new)>(rows: seq<Entry<K>>)
    ensures Total(GroupSum(rows), RowSum()) == Total(rows, RowSum())
  {
    RowSumAdditive<K>();
    GroupSumTotal(rows, RowSum());
  }

  /** The table with every key replaced by its image under `f` (a projection
      onto the grouping columns, or a rewrite of some of them). */
  function Rekey<K, L>(rows: seq<Entry<K>>, f: K -> L): (out: seq<Entry<L>>)
    ensures |out| == |rows|
    ensures forall i :: 0 <= i < |rows| ==> out[i] == Entry(f(rows[i].key), rows[i].vals)
  {
    seq(|rows|, i requires 0 <= i < |rows| => Entry(f(rows[i].key), rows[i].vals))
  }

  /** Tables that correspond row by row, with equal weights on corresponding
      rows, have equal totals. */
  lemma {:induction false} TotalRowwise<K, L>(a: seq<Entry<K>>, v: Entry<K> -> real, b: seq<Entry<L>>, w: Entry<L> -> real)
    requires |a| == |b|
    requires forall i :: 0 <= i < |a| ==> v(a[i]) == w(b[i])
    ensures Total(a, v) == Total(b, w)
    decreases |a|
  {
    if |a| > 0 {
      var n := |a| - 1;
      TotalRowwise(a[..n], v, b[..n], w);
    }
  }

  /** The keys of a re-keyed table are the images of the original keys. */
  lemma RekeyKeys<K, L>(rows: seq<Entry<K>>, f: K -> L, x: L)
    ensures x in Keys(Rekey(rows, f)) <==> exists i :: 0 <= i < |rows| && f(rows[i].key) == x
  {
    var out := Rekey(rows, f);
    if x in Keys(out) {
      var i :| 0 <= i < |out| && out[i].key == x;
      assert f(rows[i].key) == x;
    }
    if exists i :: 0 <= i < |rows| && f(rows[i].key) == x {
      var i :| 0 <= i < |rows| && f(rows[i].key) == x;
      assert out[i].key == x;
    }
  }

  /** `df[mask]`: the rows whose key passes `keep`, in their order. */
  function Filter<K>(rows: seq<Entry<K>>, keep: K -> bool): (out: seq<Entry<K>>)
    ensures |out| <= |rows|
    ensures forall i :: 0 <= i < |out| ==> keep(out[i].key)
  {
    if |rows| == 0 then []
    else
      var p := Filter(rows[..|rows| - 1], keep);
      if keep(rows[|rows| - 1].key) then p + [rows[|rows| - 1]] else p
  }

  /** The complement of a row mask, `~mask`. */
  function Not<K>(keep: K -> bool): K -> bool {
    (k: K) => !keep(k)
  }

  /** Filtering keeps exactly the rows that pass, each as often as it occurs. */
  lemma {:induction false} FilterMembers<K>(rows: seq<Entry<K>>, keep: K -> bool, e: Entry<K>)
    ensures e in Filter(rows, keep) <==> e in rows && keep(e.key)
  {
    if |rows| > 0 {
      var n := |rows| - 1;
      FilterMembers(rows[..n], keep, e);
      assert rows == rows[..n] + [rows[n]];
    }
  }

  /** Masking and its complement split every total between them. */
  lemma {:induction false} FilterSplit<K>(rows: seq<Entry<K>>, keep: K -> bool, w: Entry<K> -> real)
    ensures Total(Filter(rows, keep), w) + Total(Filter(rows, Not(keep)), w) == Total(rows, w)
  {
    if |rows| > 0 {
      var n := |rows| - 1;
      FilterSplit(rows[..n], keep, w);
      TotalAppend(Filter(rows[..n], keep), rows[n], w);
      TotalAppend(Filter(rows[..n], Not(keep)), rows[n], w);
    }
  }

  /** A table all of whose weights are zero totals zero. */
  lemma {:induction false} TotalZero<K>(rows: seq<Entry<K>>, w: Entry<K> -> real)
    requires forall i :: 0 <= i < |rows| ==> w(rows[i]) == 0.0
    ensures Total(rows, w) == 0.0
  {
    if |rows| > 0 {
      TotalZero(rows[..|rows| - 1], w);
    }
  }

  /** The column total of the rows a mask keeps is the masked column total. */
  lemma {:induction false} FilterSelect<K>(rows: seq<Entry<K>>, keep: K -> bool, j: nat)
    ensures Total(Filter(rows, keep), Column(j)) == Total(rows, SelectColumn(keep, j))
  {
    if |rows| > 0 {
      var n := |rows| - 1;
      FilterSelect(rows[..n], keep, j);
      TotalAppend(Filter(rows[..n], keep), rows[n], Column(j));
    }
  }

  /** Weight: one for each row whose key passes `keep` (a row count). */
  function SelectCount<K(==)>(keep: K -> bool): Entry<K> -> real {
    (e: Entry<K>) => if keep(e.key) then 1.0 else 0.0
  }

  /** Weight: `w` on the rows keyed `k`, zero elsewhere. */
  function Restrict<K(==)>(k: K, w: Entry<K> -> real): Entry<K> -> real {
    (e: Entry<K>) => if e.key == k then w(e) else 0.0
  }

  lemma RestrictAdditive<K(!new)>(k: K, w: Entry<K> -> real)
    requires Additive(w)
    ensures Additive(Restrict(k, w))
  {
  }

  /** In a table without repeated keys, a weight restricted to one key is the
      weight of the single row with that key, or zero when there is none. */
  lemma {:induction false} RestrictOfDistinct<K>(rows: seq<Entry<K>>, k: K, w: Entry<K> -> real)
    requires Distinct(rows)
    ensures k !in Keys(rows) ==> Total(rows, Restrict(k, w)) == 0.0
    ensures forall i :: 0 <= i < |rows| && rows[i].key == k ==> Total(rows, Restrict(k, w)) == w(rows[i])
  {
    if |rows| > 0 {
      var n := |rows| - 1;
      var p := rows[..n];
      assert Keys(p) <= Keys(rows) by {
        forall x | x in Keys(p) ensures x in Keys(rows) {
          var i :| 0 <= i < |p| && p[i].key == x;
          assert rows[i].key == x;
        }
      }
      RestrictOfDistinct(p, k, w);
      if rows[n].key == k {
        assert k !in Keys(p);
      } else {
        assert k in Keys(rows) ==> k in Keys(p) by {
          if k in Keys(rows) {
            var i :| 0 <= i < |rows| && rows[i].key == k;
            assert i < n && p[i].key == k;
          }
        }
      }
    }
  }

  /** Each grouped row's additive weight is the total of that weight over the
      input rows with its key. */
  lemma GroupSumWeight<K(!new)>(rows: seq<Entry<K>>, i: nat, w: Entry<K> -> real)
    requires Additive(w) && i < |GroupSum(rows)|
    ensures w(GroupSum(rows)[i]) == Total(rows, Restrict(GroupSum(rows)[i].key, w))
  {
    var out := GroupSum(rows);
    var k := out[i].key;
    GroupSumShape(rows, 0);
    RestrictAdditive(k, w);
    GroupSumTotal(rows, Restrict(k, w));
    RestrictOfDistinct(out, k, w);
  }

  /** Grouping a table whose keys are already distinct changes nothing. */
  lemma {:induction false} GroupSumDistinct<K>(rows: seq<Entry<K>>)
    requires Distinct(rows)
    ensures GroupSum(rows) == rows
  {
    if |rows| > 0 {
      var n := |rows| - 1;
      var p := rows[..n];
      GroupSumDistinct(p);
      assert p + [rows[n]] == rows;
    }
  }
}
