/**
 * The string helpers the Python code leans on: `str.lower()`, `str.split()` with no
 * argument, the `in` operator on strings, `str.join`, and `set(text.lower().split())`,
 * the word set that every lexical score in the repository is built from.
 *
 * Case folding covers ASCII letters only and whitespace covers the ASCII characters that
 * Python's `str.isspace` accepts.
 */
module Text {

  /** A character `str.split()` treats as a separator (the ASCII part of `str.isspace`). */
  predicate IsSpace(c: char)
  {
    c == ' ' || c == '\t' || c == '\n' || c == '\r' || c == '\U{B}' || c == '\U{C}'
    || ('\U{1C}' <= c <= '\U{1F}')
  }

  function LowerChar(c: char): char
  {
    if 'A' <= c <= 'Z' then (c as int + 32) as char else c
  }

  /** `s.lower()` */
  function Lower(s: string): (r: string)
    ensures |r| == |s|
    ensures forall i :: 0 <= i < |s| ==> r[i] == LowerChar(s[i])
  {
    if s == [] then [] else [LowerChar(s[0])] + Lower(s[1..])
  }

  /** Length of the run of non-space characters that starts `s`. */
  function WordLength(s: string): (n: nat)
    ensures n <= |s|
    ensures forall i :: 0 <= i < n ==> !IsSpace(s[i])
    ensures n < |s| ==> IsSpace(s[n])
  {
    if s == [] || IsSpace(s[0]) then 0 else 1 + WordLength(s[1..])
  }

  /** `s.split()`: the maximal runs of non-space characters, in order. */
  function Split(s: string): (words: seq<string>)
    ensures forall w <- words :: w != [] && forall c <- w :: !IsSpace(c) && c in s
    decreases |s|
  {
    if s == [] then []
    else if IsSpace(s[0]) then Split(s[1..])
    else
      var n := WordLength(s);
      [s[..n]] + Split(s[n..])
  }

  /** `split()` returns no words exactly when the text is all whitespace (or empty). */
  lemma {:induction false} SplitEmptyIffBlank(s: string)
    ensures Split(s) == [] <==> forall c <- s :: IsSpace(c)
    decreases |s|
  {
    if s != [] {
      if IsSpace(s[0]) {
        SplitEmptyIffBlank(s[1..]);
        assert forall c <- s :: c == s[0] || c in s[1..];
        assert forall c <- s[1..] :: c in s;
      } else {
        assert s[0] in s;
      }
    }
  }

  /**
   * `s.lower().split()` is empty exactly when `s` is empty or all whitespace: lower-casing
   * neither makes nor removes whitespace.
   */
  lemma NoWordsIffBlank(s: string)
    ensures Split(Lower(s)) == [] <==> forall c <- s :: IsSpace(c)
  {
    var l := Lower(s);
    SplitEmptyIffBlank(l);
    assert (forall c <- l :: IsSpace(c)) <==> forall i :: 0 <= i < |l| ==> IsSpace(l[i]);
    assert (forall c <- s :: IsSpace(c)) <==> forall i :: 0 <= i < |s| ==> IsSpace(s[i]);
  }

  /** The characters of `s` that are not whitespace, in order. */
  function NonSpace(s: string): (r: string)
    ensures |r| <= |s|
  {
    if s == [] then [] else (if IsSpace(s[0]) then [] else [s[0]]) + NonSpace(s[1..])
  }

  /** The words written one after the other, with nothing between them. */
  function Concat(words: seq<string>): string
  {
    if words == [] then [] else words[0] + Concat(words[1..])
  }

  lemma {:induction false} NonSpaceAppend(a: string, b: string)
    ensures NonSpace(a + b) == NonSpace(a) + NonSpace(b)
  {
    if a != [] {
      var ab := a + b;
      assert ab[0] == a[0] && ab[1..] == a[1..] + b;
      NonSpaceAppend(a[1..], b);
      var h := if IsSpace(a[0]) then [] else [a[0]];
      assert NonSpace(ab) == h + NonSpace(ab[1..]);
      assert NonSpace(a) == h + NonSpace(a[1..]);
    } else {
      assert a + b == b;
    }
  }

  lemma {:induction false} NonSpaceOfWord(w: string)
    requires forall c <- w :: !IsSpace(c)
    ensures NonSpace(w) == w
  {
    if w != [] {
      assert w[0] in w;
      assert forall c <- w[1..] :: c in w;
      NonSpaceOfWord(w[1..]);
    }
  }

  /**
   * The words cover the text: written one after the other they are exactly the text with
   * its whitespace removed, so every non-space character lands in a word, in order.
   */
  lemma {:induction false} SplitCoversText(s: string)
    ensures Concat(Split(s)) == NonSpace(s)
    decreases |s|
  {
    if s != [] {
      if IsSpace(s[0]) {
        SplitCoversText(s[1..]);
      } else {
        var n := WordLength(s);
        var w, rest := s[..n], s[n..];
        assert [w] + Split(rest) == Split(s);
        assert ([w] + Split(rest))[1..] == Split(rest);
        SplitCoversText(rest);
        NonSpaceOfWord(w);
        assert s == w + rest;
        NonSpaceAppend(w, rest);
      }
    }
  }

  /**
   * Splitting undoes joining with single spaces: words that are non-empty and free of
   * whitespace come back as they were, so `split()` neither merges nor breaks up words.
   */
  lemma {:induction false} SplitJoinRoundTrip(words: seq<string>)
    requires forall w <- words :: w != [] && forall c <- w :: !IsSpace(c)
    ensures Split(Join(" ", words)) == words
  {
    if |words| == 1 {
      assert words[0] in words;
      SplitOfWord(words[0]);
    } else if |words| > 1 {
      var w, rest := words[0], words[1..];
      assert w in words;
      assert forall v <- rest :: v in words;
      var tail := Join(" ", rest);
      assert Join(" ", words) == w + (" " + tail);
      SplitAfterWord(w, " " + tail);
      assert (" " + tail)[1..] == tail;
      SplitJoinRoundTrip(rest);
      assert words == [w] + rest;
    }
  }

  /** A word followed by whitespace splits into the word and the words of what follows. */
  lemma SplitAfterWord(w: string, t: string)
    requires w != [] && forall c <- w :: !IsSpace(c)
    requires t != [] && IsSpace(t[0])
    ensures Split(w + t) == [w] + Split(t[1..])
  {
    var s := w + t;
    assert w[0] in w && s[0] == w[0];
    WordLengthBeforeSpace(w, t);
    assert s[..|w|] == w && s[|w|..] == t;
  }

  /** A word followed by text that starts with whitespace: the first run is the word. */
  lemma {:induction false} WordLengthBeforeSpace(w: string, t: string)
    requires forall c <- w :: !IsSpace(c)
    requires t != [] && IsSpace(t[0])
    ensures WordLength(w + t) == |w|
    decreases |w|
  {
    if w == [] {
      assert w + t == t;
    } else {
      assert w[0] in w;
      assert forall c <- w[1..] :: c in w;
      assert (w + t)[1..] == w[1..] + t;
      WordLengthBeforeSpace(w[1..], t);
    }
  }

  /** `set(s.lower().split())` */
  function WordSet(s: string): set<string>
  {
    set w | w in Split(Lower(s))
  }

  /** `prefix` starts `s` */
  predicate IsPrefix(prefix: string, s: string)
  {
    |prefix| <= |s| && s[..|prefix|] == prefix
  }

  /** `sub in s` for strings */
  predicate Contains(s: string, sub: string)
  {
    IsPrefix(sub, s) || (s != [] && Contains(s[1..], sub))
  }

  /** `sep.join(parts)` */
  function Join(sep: string, parts: seq<string>): string
  {
    if parts == [] then ""
    else if |parts| == 1 then parts[0]
    else parts[0] + sep + Join(sep, parts[1..])
  }

  /** `str(n)` for an integer. */
  function IntToString(n: int): string
  {
    if n < 0 then "-" + NatToString(-n) else NatToString(n)
  }

  function NatToString(n: nat): (r: string)
    ensures r != []
  {
    if n < 10 then [DigitChar(n)] else NatToString(n / 10) + [DigitChar(n % 10)]
  }

  function DigitChar(d: nat): char
    requires d < 10
  {
    ('0' as int + d) as char
  }

  lemma LowerCharIdempotent(c: char)
    ensures LowerChar(LowerChar(c)) == LowerChar(c)
  {
  }

  /** Every word of a lower-cased text is already lower-case. */
  lemma {:induction false} WordsOfLowerAreLower(s: string, w: string)
    requires w in Split(Lower(s))
    ensures Lower(w) == w
  {
    forall i | 0 <= i < |w|
      ensures LowerChar(w[i]) == w[i]
    {
      assert w[i] in w;
      var k :| 0 <= k < |Lower(s)| && Lower(s)[k] == w[i];
      LowerCharIdempotent(s[k]);
    }
  }

  /** A single word splits to itself. */
  lemma {:induction false} SplitOfWord(w: string)
    requires w != [] && forall c <- w :: !IsSpace(c)
    ensures Split(w) == [w]
  {
    assert w[0] in w;
    assert WordLength(w) == |w| by { WordLengthOfWord(w); }
    assert w[..|w|] == w && w[|w|..] == [];
  }

  lemma {:induction false} WordLengthOfWord(w: string)
    requires forall c <- w :: !IsSpace(c)
    ensures WordLength(w) == |w|
    decreases |w|
  {
    if w != [] {
      assert forall c <- w[1..] :: c in w;
      WordLengthOfWord(w[1..]);
    }
  }

  /**
   * The word set of one word of a query, as `_local_search` uses it: a word taken from
   * `query.lower().split()` has exactly itself as word set.
   */
  lemma WordSetOfQueryWord(query: string, kw: string)
    requires kw in Split(Lower(query))
    ensures WordSet(kw) == {kw}
  {
    WordsOfLowerAreLower(query, kw);
    SplitOfWord(kw);
  }

  /** A join of at least one part starts with the first part. */
  lemma JoinStartsWithFirst(sep: string, parts: seq<string>)
    requires parts != []
    ensures IsPrefix(parts[0], Join(sep, parts))
  {
    if |parts| > 1 {
      assert Join(sep, parts)[..|parts[0]|] == parts[0];
    }
  }

  /** Joining one more part adds the separator and that part at the end. */
  lemma {:induction false} JoinAppend(sep: string, parts: seq<string>, last: string)
    ensures Join(sep, parts + [last]) == if parts == [] then last else Join(sep, parts) + sep + last
  {
    if |parts| > 1 {
      assert (parts + [last])[1..] == parts[1..] + [last];
      JoinAppend(sep, parts[1..], last);
    }
  }

  lemma SubsetCardinality(a: set<string>, b: set<string>)
    requires a <= b
    ensures |a| <= |b|
  {
    assert b == a + (b - a);
  }

  /** `a / m` for counts `a <= m`. */
  function Fraction(a: nat, m: nat): (r: real)
    requires a <= m && m > 0
    ensures 0.0 <= r <= 1.0
    ensures r == 0.0 <==> a == 0
  {
    a as real / m as real
  }
}
