/** Python's ordering of `str` values (code point by code point, a proper
    prefix first) and `sorted()` on a list of strings, with the facts the
    column-set cache key needs: the sort is a sorted permutation, and a sorted
    permutation of a list is unique. */
module StringOrder {

  /** `a <= b` for Python strings. */
  predicate LexLe(a: string, b: string) {
    |a| == 0 || (|b| > 0 && (a[0] < b[0] || (a[0] == b[0] && LexLe(a[1..], b[1..]))))
  }

  lemma {:induction false} LexLeTotal(a: string, b: string)
    ensures LexLe(a, b) || LexLe(b, a)
    decreases |a|
  {
    if |a| > 0 && |b| > 0 && a[0] == b[0] {
      LexLeTotal(a[1..], b[1..]);
    }
  }

  lemma {:induction false} LexLeAntisymmetric(a: string, b: string)
    requires LexLe(a, b) && LexLe(b, a)
    ensures a == b
    decreases |a|
  {
    if |a| > 0 && |b| > 0 {
      LexLeAntisymmetric(a[1..], b[1..]);
      assert a == [a[0]] + a[1..];
      assert b == [b[0]] + b[1..];
    }
  }

  lemma {:induction false} LexLeTransitive(a: string, b: string, c: string)
    requires LexLe(a, b) && LexLe(b, c)
    ensures LexLe(a, c)
    decreases |a|
  {
    if |a| > 0 && |b| > 0 && |c| > 0 && a[0] == b[0] && b[0] == c[0] {
      LexLeTransitive(a[1..], b[1..], c[1..]);
    }
  }

  predicate Sorted(s: seq<string>) {
    forall i, j :: 0 <= i < j < |s| ==> LexLe(s[i], s[j])
  }

  /** Places `x` in front of the first element it does not exceed. */
  function Insert(x: string, s: seq<string>): seq<string> {
    if |s| == 0 then [x]
    else if LexLe(x, s[0]) then [x] + s
    else [s[0]] + Insert(x, s[1..])
  }

  /** `sorted(s)`, as an insertion sort. */
  function Sort(s: seq<string>): seq<string> {
    if |s| == 0 then [] else Insert(s[0], Sort(s[1..]))
  }

  lemma SortedCons(h: string, t: seq<string>)
    requires Sorted(t)
    requires forall j :: 0 <= j < |t| ==> LexLe(h, t[j])
    ensures Sorted([h] + t)
  {
    var s := [h] + t;
    forall i, j | 0 <= i < j < |s| ensures LexLe(s[i], s[j]) {
      if i > 0 {
        assert s[i] == t[i - 1] && s[j] == t[j - 1];
      } else {
        assert s[j] == t[j - 1];
      }
    }
  }

  lemma {:induction false} InsertMultiset(x: string, s: seq<string>)
    ensures multiset(Insert(x, s)) == multiset(s) + multiset{x}
    decreases |s|
  {
    if |s| > 0 {
      assert s == [s[0]] + s[1..];
      if !LexLe(x, s[0]) {
        InsertMultiset(x, s[1..]);
      }
    }
  }

  lemma {:induction false} InsertSpec(x: string, s: seq<string>)
    requires Sorted(s)
    ensures Sorted(Insert(x, s))
    ensures multiset(Insert(x, s)) == multiset(s) + multiset{x}
    decreases |s|
  {
    InsertMultiset(x, s);
    if |s| == 0 {
    } else if LexLe(x, s[0]) {
      forall j | 0 <= j < |s| ensures LexLe(x, s[j]) {
        if j > 0 {
          LexLeTransitive(x, s[0], s[j]);
        }
      }
      SortedCons(x, s);
    } else {
      LexLeTotal(x, s[0]);
      var t := Insert(x, s[1..]);
      InsertSpec(x, s[1..]);
      forall j | 0 <= j < |t| ensures LexLe(s[0], t[j]) {
        assert t[j] in multiset(s[1..]) + multiset{x};
        if t[j] != x {
          assert t[j] in s[1..];
          var k :| 0 <= k < |s[1..]| && s[1..][k] == t[j];
          assert s[k + 1] == t[j];
        }
      }
      assert Sorted(s[1..]) by {
        forall i, j | 0 <= i < j < |s[1..]| ensures LexLe(s[1..][i], s[1..][j]) {
          assert s[1..][i] == s[i + 1] && s[1..][j] == s[j + 1];
        }
      }
      SortedCons(s[0], t);
    }
  }

  /** `sorted(s)` is in order and holds exactly the elements of `s`. */
  lemma {:induction false} SortSpec(s: seq<string>)
    ensures Sorted(Sort(s))
    ensures multiset(Sort(s)) == multiset(s)
    decreases |s|
  {
    if |s| > 0 {
      SortSpec(s[1..]);
      InsertSpec(s[0], Sort(s[1..]));
      assert s == [s[0]] + s[1..];
    }
  }

  lemma SortedHeadLeast(a: seq<string>, y: string)
    requires Sorted(a) && y in a
    ensures LexLe(a[0], y)
  {
    var i :| 0 <= i < |a| && a[i] == y;
    if i == 0 {
      LexLeTotal(y, y);
    }
  }

  lemma SortedTail(a: seq<string>)
    requires Sorted(a) && |a| > 0
    ensures Sorted(a[1..])
  {
    forall i, j | 0 <= i < j < |a[1..]| ensures LexLe(a[1..][i], a[1..][j]) {
      assert a[1..][i] == a[i + 1] && a[1..][j] == a[j + 1];
    }
  }

  /** Two sorted lists with the same elements are the same list. */
  lemma {:induction false} SortedUnique(a: seq<string>, b: seq<string>)
    requires Sorted(a) && Sorted(b)
    requires multiset(a) == multiset(b)
    ensures a == b
    decreases |a|
  {
    if |a| == 0 {
      assert |b| == |multiset(b)| == 0;
    } else {
      assert |b| == |multiset(b)| == |a|;
      assert a[0] in multiset(b) && b[0] in multiset(a);
      SortedHeadLeast(b, a[0]);
      SortedHeadLeast(a, b[0]);
      LexLeAntisymmetric(a[0], b[0]);
      assert a == [a[0]] + a[1..];
      assert b == [b[0]] + b[1..];
      assert multiset(a[1..]) == multiset(a) - multiset{a[0]};
      assert multiset(b[1..]) == multiset(b) - multiset{b[0]};
      SortedTail(a);
      SortedTail(b);
      SortedUnique(a[1..], b[1..]);
    }
  }

  /** `sorted()` does not depend on the order of its input. */
  lemma SortPermutationInvariant(a: seq<string>, b: seq<string>)
    requires multiset(a) == multiset(b)
    ensures Sort(a) == Sort(b)
  {
    SortSpec(a);
    SortSpec(b);
    SortedUnique(Sort(a), Sort(b));
  }

  /** The greatest string of a non-empty list: `sorted(s, reverse=True)[0]`. */
  function Max(s: seq<string>): (r: string)
    requires |s| > 0
    ensures r in s
    ensures forall i :: 0 <= i < |s| ==> LexLe(s[i], r)
  {
    if |s| == 1 then
      LexLeTotal(s[0], s[0]);
      s[0]
    else
      var m := Max(s[1..]);
      LexLeTotal(s[0], m);
      if LexLe(s[0], m) then
        m
      else
        LexLeTotal(s[0], s[0]);
        assert forall i :: 1 <= i < |s| ==> LexLe(s[i], s[0]) by {
          forall i | 1 <= i < |s| ensures LexLe(s[i], s[0]) {
            LexLeTransitive(s[i], m, s[0]);
          }
        }
        s[0]
  }
}
