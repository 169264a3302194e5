/**
 * Ranking by score, highest first, as both knowledge bases do it with Python's
 * `sorted(..., key=score, reverse=True)` / `list.sort(key=score, reverse=True)`. Python's
 * sort is stable even with `reverse=True`: entries with equal scores keep their relative
 * order. `SortDesc` is an insertion sort; `SortDescIsStableSort` and `StableSortIsUnique`
 * show that it returns the one ordering with those two properties.
 */
module Ranking {

  /** Non-increasing by `key`. */
  predicate SortedDesc<T>(s: seq<T>, key: T -> real)
  {
    forall i, j :: 0 <= i < j < |s| ==> key(s[i]) >= key(s[j])
  }

  /** The elements whose key is `c`, in their order in `s`. */
  function Tie<T>(s: seq<T>, key: T -> real, c: real): seq<T>
  {
    if s == [] then [] else (if key(s[0]) == c then [s[0]] else []) + Tie(s[1..], key, c)
  }

  /** Puts `x` in front of the first element whose key is not above `x`'s. */
  function Insert<T>(x: T, s: seq<T>, key: T -> real): seq<T>
  {
    if s == [] || key(s[0]) <= key(x) then [x] + s else [s[0]] + Insert(x, s[1..], key)
  }

  function SortDesc<T>(s: seq<T>, key: T -> real): seq<T>
  {
    if s == [] then [] else Insert(s[0], SortDesc(s[1..], key), key)
  }

  /** `s[:n]` with Python's reading of a negative bound (`s[:-1]` drops the last element). */
  function PyPrefix<T>(s: seq<T>, n: int): (r: seq<T>)
    ensures |r| <= |s| && r == s[..|r|]
    ensures n >= 0 ==> |r| == if n <= |s| then n else |s|
    ensures n < 0 ==> |r| == if |s| + n >= 0 then |s| + n else 0
  {
    if n >= 0 then (if n <= |s| then s[..n] else s)
    else if |s| + n >= 0 then s[..|s| + n] else []
  }

  lemma {:induction false} InsertPermutes<T>(x: T, s: seq<T>, key: T -> real)
    ensures multiset(Insert(x, s, key)) == multiset(s) + multiset{x}
  {
    if s != [] && key(s[0]) > key(x) {
      InsertPermutes(x, s[1..], key);
      assert s == [s[0]] + s[1..];
    }
  }

  lemma {:induction false} InsertSorted<T>(x: T, s: seq<T>, key: T -> real)
    requires SortedDesc(s, key)
    ensures SortedDesc(Insert(x, s, key), key)
    ensures Insert(x, s, key) != []
    ensures Insert(x, s, key)[0] == x || (s != [] && Insert(x, s, key)[0] == s[0])
  {
    if s != [] && key(s[0]) > key(x) {
      InsertSorted(x, s[1..], key);
      var rest := Insert(x, s[1..], key);
      assert rest[0] == x || rest[0] == s[1];
      assert key(s[0]) >= key(rest[0]);
    }
  }

  /** Inserting keeps the order among equal keys: `x` precedes the elements that tie with it. */
  lemma {:induction false} InsertTie<T>(x: T, s: seq<T>, key: T -> real, c: real)
    ensures Tie(Insert(x, s, key), key, c) == Tie([x] + s, key, c)
  {
    if s != [] && key(s[0]) > key(x) {
      InsertTie(x, s[1..], key, c);
      var r := Insert(x, s, key);
      assert r[0] == s[0] && r[1..] == Insert(x, s[1..], key);
      assert ([x] + s)[1..] == s;
      assert ([x] + s[1..])[1..] == s[1..];
    } else {
      assert Insert(x, s, key) == [x] + s;
    }
  }

  /** The insertion sort is sorted, a permutation, and stable. */
  lemma {:induction false} SortDescIsStableSort<T>(s: seq<T>, key: T -> real)
    ensures SortedDesc(SortDesc(s, key), key)
    ensures multiset(SortDesc(s, key)) == multiset(s)
    ensures forall c :: Tie(SortDesc(s, key), key, c) == Tie(s, key, c)
  {
    SortDescSorted(s, key);
    SortDescPermutes(s, key);
    forall c ensures Tie(SortDesc(s, key), key, c) == Tie(s, key, c) {
      SortDescTies(s, key, c);
    }
  }

  lemma {:induction false} SortDescSorted<T>(s: seq<T>, key: T -> real)
    ensures SortedDesc(SortDesc(s, key), key)
  {
    if s != [] {
      SortDescSorted(s[1..], key);
      InsertSorted(s[0], SortDesc(s[1..], key), key);
    }
  }

  lemma {:induction false} SortDescPermutes<T>(s: seq<T>, key: T -> real)
    ensures multiset(SortDesc(s, key)) == multiset(s)
  {
    if s != [] {
      SortDescPermutes(s[1..], key);
      InsertPermutes(s[0], SortDesc(s[1..], key), key);
      assert s == [s[0]] + s[1..];
    }
  }

  lemma {:induction false} SortDescTies<T>(s: seq<T>, key: T -> real, c: real)
    ensures Tie(SortDesc(s, key), key, c) == Tie(s, key, c)
  {
    if s != [] {
      var rest := SortDesc(s[1..], key);
      SortDescTies(s[1..], key, c);
      InsertTie(s[0], rest, key, c);
      assert ([s[0]] + rest)[1..] == rest;
    }
  }

  lemma {:induction false} TieEmpty<T>(s: seq<T>, key: T -> real, i: nat)
    requires i < |s|
    ensures Tie(s, key, key(s[i])) != []
  {
    if i > 0 {
      TieEmpty(s[1..], key, i - 1);
    }
  }

  lemma {:induction false} TieMember<T>(s: seq<T>, key: T -> real, c: real)
    requires Tie(s, key, c) != []
    ensures exists i :: 0 <= i < |s| && key(s[i]) == c
  {
    if key(s[0]) != c {
      TieMember(s[1..], key, c);
      var i :| 0 <= i < |s[1..]| && key(s[1..][i]) == c;
      assert key(s[i + 1]) == c;
    }
  }

  /**
   * A stable descending sort has only one possible result: two sorted sequences whose
   * equal-key runs agree are the same sequence. So `SortDesc` is exactly Python's sort.
   */
  lemma {:induction false} StableSortIsUnique<T>(r1: seq<T>, r2: seq<T>, key: T -> real)
    requires SortedDesc(r1, key) && SortedDesc(r2, key)
    requires forall c :: Tie(r1, key, c) == Tie(r2, key, c)
    ensures r1 == r2
    decreases |r1|
  {
    if r1 != [] {
      TieEmpty(r1, key, 0);
      var c := key(r1[0]);
      assert r2 != [];
      var c2 := key(r2[0]);
      TieEmpty(r2, key, 0);
      TieMember(r1, key, c2);
      TieMember(r2, key, c);
      assert c == c2;
      assert r1[0] == r2[0] by {
        assert Tie(r1, key, c)[0] == r1[0];
        assert Tie(r2, key, c)[0] == r2[0];
      }
      forall c' ensures Tie(r1[1..], key, c') == Tie(r2[1..], key, c') {
        var t1, t2 := Tie(r1[1..], key, c'), Tie(r2[1..], key, c');
        assert Tie(r1, key, c') == Tie(r2, key, c');
        if c == c' {
          assert Tie(r1, key, c') == [r1[0]] + t1;
          assert Tie(r2, key, c') == [r2[0]] + t2;
          assert ([r1[0]] + t1)[1..] == t1;
          assert ([r2[0]] + t2)[1..] == t2;
        } else {
          assert Tie(r1, key, c') == t1;
          assert Tie(r2, key, c') == t2;
        }
      }
      StableSortIsUnique(r1[1..], r2[1..], key);
      assert r1 == [r1[0]] + r1[1..] && r2 == [r2[0]] + r2[1..];
    }
  }

  /** `sorted(s, key=key, reverse=True)[:n]`: the `n` best, best first. */
  function Top<T>(s: seq<T>, key: T -> real, n: int): seq<T>
  {
    PyPrefix(SortDesc(s, key), n)
  }

  lemma {:induction false} TieOfPrefix<T>(s: seq<T>, key: T -> real, n: nat, c: real)
    requires n <= |s|
    ensures |Tie(s[..n], key, c)| <= |Tie(s, key, c)|
    ensures Tie(s[..n], key, c) == Tie(s, key, c)[..|Tie(s[..n], key, c)|]
  {
    if n > 0 {
      TieOfPrefix(s[1..], key, n - 1, c);
      assert s[..n][1..] == s[1..][..n - 1];
    }
  }

  /**
   * The top `n` are ranked, are drawn from `s` (as a sub-multiset), and number `n`, or all of
   * `s` when it is shorter (Python's reading of a negative `n` aside).
   */
  lemma TopIsRanked<T>(s: seq<T>, key: T -> real, n: int)
    ensures SortedDesc(Top(s, key, n), key)
    ensures multiset(Top(s, key, n)) <= multiset(s)
    ensures |Top(s, key, n)| <= |s| && forall x <- Top(s, key, n) :: x in s
    ensures n >= 0 ==> |Top(s, key, n)| == if n <= |s| then n else |s|
  {
    var sorted := SortDesc(s, key);
    var r := Top(s, key, n);
    SortDescIsStableSort(s, key);
    assert sorted == r + sorted[|r|..];
    assert |sorted| == |s| by {
      assert |multiset(sorted)| == |multiset(s)|;
    }
    forall x | x in r ensures x in s {
      assert x in multiset(r);
      assert x in multiset(s);
    }
  }

  /** Among equal keys the top keeps the order of `s`: its run of key `c` is a prefix of `s`'s. */
  lemma TopKeepsTieOrder<T>(s: seq<T>, key: T -> real, n: int, c: real)
    ensures |Tie(Top(s, key, n), key, c)| <= |Tie(s, key, c)|
    ensures Tie(Top(s, key, n), key, c) == Tie(s, key, c)[..|Tie(Top(s, key, n), key, c)|]
  {
    SortDescIsStableSort(s, key);
    TieOfPrefix(SortDesc(s, key), key, |Top(s, key, n)|, c);
  }

  /** What the cut drops scores no higher than anything it keeps. */
  lemma TopAreTheBest<T>(s: seq<T>, key: T -> real, n: int, h: T, x: T)
    requires h in multiset(s) - multiset(Top(s, key, n))
    requires x in Top(s, key, n)
    ensures key(h) <= key(x)
  {
    var sorted := SortDesc(s, key);
    var r := Top(s, key, n);
    SortDescIsStableSort(s, key);
    var rest := sorted[|r|..];
    assert sorted == r + rest;
    assert multiset(s) == multiset(r) + multiset(rest);
    assert h in rest;
    var j :| 0 <= j < |rest| && rest[j] == h;
    var i :| 0 <= i < |r| && r[i] == x;
    assert sorted[i] == x && sorted[|r| + j] == h;
  }
}
