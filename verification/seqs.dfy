/** Queries over the rows of one table, in table order. */
module Seqs {
  import opened Outcomes

  /** The position of the first row satisfying `p`: what `.filter(p).first()` returns. */
  function FirstMatch<T>(s: seq<T>, p: T -> bool): (r: Option<nat>)
    ensures r.Some? ==> r.value < |s| && p(s[r.value])
    ensures r.Some? ==> forall j :: 0 <= j < r.value ==> !p(s[j])
    ensures r.None? ==> forall j :: 0 <= j < |s| ==> !p(s[j])
  {
    if |s| == 0 then None
    else if p(s[0]) then Some(0)
    else match FirstMatch(s[1..], p)
      case None => None
      case Some(i) => Some(i + 1)
  }

  /** The rows satisfying `p`, in table order: what `.filter(p).all()` returns. */
  function Filter<T>(s: seq<T>, p: T -> bool): (r: seq<T>)
    ensures |r| <= |s|
    ensures forall i :: 0 <= i < |r| ==> p(r[i])
  {
    if |s| == 0 then []
    else if p(s[0]) then [s[0]] + Filter(s[1..], p)
    else Filter(s[1..], p)
  }

  /** Filtering by a condition every row meets keeps the whole table. */
  lemma {:induction false} FilterAll<T>(s: seq<T>, p: T -> bool)
    requires forall i :: 0 <= i < |s| ==> p(s[i])
    ensures Filter(s, p) == s
  {
    if |s| > 0 {
      FilterAll(s[1..], p);
      assert s == [s[0]] + s[1..];
    }
  }

  /** Filtering a concatenation filters each part. */
  lemma {:induction false} FilterAppend<T>(a: seq<T>, b: seq<T>, p: T -> bool)
    ensures Filter(a + b, p) == Filter(a, p) + Filter(b, p)
  {
    if |a| == 0 {
      assert a + b == b;
    } else {
      var ab := a + b;
      assert ab[0] == a[0];
      assert ab[1..] == a[1..] + b;
      FilterAppend(a[1..], b, p);
      if p(a[0]) {
        calc {
          Filter(ab, p);
          [a[0]] + Filter(a[1..] + b, p);
          [a[0]] + (Filter(a[1..], p) + Filter(b, p));
          ([a[0]] + Filter(a[1..], p)) + Filter(b, p);
        }
      }
    }
  }

  /** Filtering rows that all pass around one that fails drops just that one. */
  lemma FilterAroundOne<T>(front: seq<T>, x: T, back: seq<T>, p: T -> bool)
    requires forall i :: 0 <= i < |front| ==> p(front[i])
    requires !p(x)
    requires forall i :: 0 <= i < |back| ==> p(back[i])
    ensures Filter(front + ([x] + back), p) == front + back
  {
    FilterAppend(front, [x] + back, p);
    FilterAppend([x], back, p);
    FilterAll(front, p);
    FilterAll(back, p);
    assert [x][1..] == [];
  }

  /** A sequence is its prefix, the row at `k`, and its suffix. */
  lemma SplitAt<T>(s: seq<T>, k: nat)
    requires k < |s|
    ensures s == s[..k] + ([s[k]] + s[k + 1..])
  {
    assert s[k..] == [s[k]] + s[k + 1..];
    assert s == s[..k] + s[k..];
  }

  /** Filtering by a condition exactly one row fails removes that row and keeps the others in order. */
  lemma FilterAllBut<T>(s: seq<T>, p: T -> bool, k: nat)
    requires k < |s|
    requires !p(s[k])
    requires forall i :: 0 <= i < |s| && i != k ==> p(s[i])
    ensures Filter(s, p) == s[..k] + s[k + 1..]
  {
    var front, back := s[..k], s[k + 1..];
    assert forall i :: 0 <= i < |front| ==> p(front[i]) by {
      forall i | 0 <= i < |front|
        ensures p(front[i])
      {
        assert front[i] == s[i];
      }
    }
    assert forall i :: 0 <= i < |back| ==> p(back[i]) by {
      forall i | 0 <= i < |back|
        ensures p(back[i])
      {
        assert back[i] == s[k + 1 + i];
      }
    }
    SplitAt(s, k);
    FilterAroundOne(front, s[k], back, p);
  }

  /** Filtering keeps every copy of a row that satisfies `p` and no copy of one that does not. */
  lemma {:induction false} FilterMultiplicity<T>(s: seq<T>, p: T -> bool, x: T)
    ensures multiset(Filter(s, p))[x] == if p(x) then multiset(s)[x] else 0
  {
    if |s| > 0 {
      FilterMultiplicity(s[1..], p, x);
      assert s == [s[0]] + s[1..];
      assert multiset(s) == multiset{s[0]} + multiset(s[1..]);
      if p(s[0]) {
        assert multiset(Filter(s, p)) == multiset{s[0]} + multiset(Filter(s[1..], p));
      }
    }
  }

  /** Removing the last row of `a + [x]` by splicing gives back `a`. */
  lemma SpliceLast<T>(a: seq<T>, b: seq<T>)
    requires |b| == |a| + 1 && b[..|a|] == a
    ensures b[..|a|] + b[|a| + 1..] == a
  {
    assert b[|a| + 1..] == [];
  }

  /** Replacing the last row of `a + [x]` gives `a + [y]`. */
  lemma ReplaceLast<T>(a: seq<T>, x: T, y: T)
    ensures (a + [x])[|a| := y] == a + [y]
  {
    assert forall i :: 0 <= i < |a| ==> (a + [x])[|a| := y][i] == a[i];
  }

  /** The multiplicity law for every row at once. */
  lemma FilterCounts<T(!new)>(s: seq<T>, p: T -> bool)
    ensures forall x :: multiset(Filter(s, p))[x] == if p(x) then multiset(s)[x] else 0
  {
    forall x {
      FilterMultiplicity(s, p, x);
    }
  }

  /** A row that passes the filter is kept. */
  lemma FilterKeeps<T>(s: seq<T>, p: T -> bool, i: nat)
    requires i < |s| && p(s[i])
    ensures s[i] in Filter(s, p)
  {
    FilterMultiplicity(s, p, s[i]);
    assert s[i] in multiset(s);
    assert s[i] in multiset(Filter(s, p));
  }

  /** Every kept row comes from the table and passes the filter. */
  lemma FilterFrom<T>(s: seq<T>, p: T -> bool, x: T)
    requires x in Filter(s, p)
    ensures x in s && p(x)
  {
    FilterMultiplicity(s, p, x);
    assert x in multiset(Filter(s, p));
  }
}
