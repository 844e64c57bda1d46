/** String helpers shared by the queries: JavaScript's `\s` whitespace class,
    `String.prototype.includes`, `split(/\s+/).filter(Boolean)`, and the
    order in which strings are sorted. */
module Text {

  /** The characters JavaScript's `\s` matches. */
  const Whitespace: set<char> := {
    ' ', '\t', '\n', '\r', '\U{B}', '\U{C}', '\U{A0}', '\U{1680}',
    '\U{2000}', '\U{2001}', '\U{2002}', '\U{2003}', '\U{2004}', '\U{2005}',
    '\U{2006}', '\U{2007}', '\U{2008}', '\U{2009}', '\U{200A}',
    '\U{2028}', '\U{2029}', '\U{202F}', '\U{205F}', '\U{3000}', '\U{FEFF}'
  }

  /** No character of `s` is in `cs`. */
  predicate Avoids(s: string, cs: set<char>) {
    forall k :: 0 <= k < |s| ==> s[k] !in cs
  }

  /** The strings that occur in `s`. */
  function Elems(s: seq<string>): set<string> {
    set x | x in s
  }

  /** `s.includes(m)`: `m` occurs in `s` at some position. */
  predicate Contains(s: string, m: string) {
    exists k :: 0 <= k <= |s| - |m| && OccursAt(s, m, k)
  }

  /** `m` occurs in `s` starting at index `k`. */
  predicate OccursAt(s: string, m: string, k: nat) {
    k + |m| <= |s| && s[k..k + |m|] == m
  }

  /** JavaScript's `length`: the number of UTF-16 code units, where a
      character beyond U+FFFF takes two. */
  function Utf16Length(s: string): (n: nat)
    ensures |s| <= n <= 2 * |s|
    ensures (forall k :: 0 <= k < |s| ==> s[k] as int < 0x1_0000) ==> n == |s|
    decreases |s|
  {
    if s == [] then 0
    else Utf16Length(s[..|s| - 1]) + (if s[|s| - 1] as int < 0x1_0000 then 1 else 2)
  }

  /** The first index at or after `k` whose character is in `stop`, or `|t|`:
      the end of the longest run of characters outside `stop` starting at `k`. */
  function RunEnd(t: string, k: nat, stop: set<char>): (j: nat)
    requires k <= |t|
    ensures k <= j <= |t|
    ensures forall m :: k <= m < j ==> t[m] !in stop
    ensures j < |t| ==> t[j] in stop
    decreases |t| - k
  {
    if k == |t| || t[k] in stop then k else RunEnd(t, k + 1, stop)
  }

  /** `s.split(/\s+/).filter(Boolean)`: the maximal runs of non-whitespace
      characters of `s`, in order. */
  function Tokens(s: string): (r: seq<string>)
    ensures forall tok :: tok in r ==> tok != [] && Avoids(tok, Whitespace)
    decreases |s|
  {
    if s == [] then []
    else if s[0] in Whitespace then Tokens(s[1..])
    else
      var j := RunEnd(s, 0, Whitespace);
      [s[..j]] + Tokens(s[j..])
  }

  /** A whitespace character separates tokens: what lies on either side is
      tokenized independently. */
  lemma {:induction false} TokensSplitAtSpace(a: string, c: char, b: string)
    requires c in Whitespace
    ensures Tokens(a + [c] + b) == Tokens(a) + Tokens(b)
    decreases |a|
  {
    var s := a + [c] + b;
    if a == [] {
      assert s[1..] == b;
    } else if a[0] in Whitespace {
      assert s[1..] == a[1..] + [c] + b;
      TokensSplitAtSpace(a[1..], c, b);
    } else {
      var j := RunEnd(s, 0, Whitespace);
      var ja := RunEnd(a, 0, Whitespace);
      assert s == a + ([c] + b);
      RunEndPrefix(a, [c] + b, 0, Whitespace);
      assert s[..j] == a[..ja];
      if ja < |a| {
        assert s[j..] == a[ja..] + [c] + b;
        TokensSplitAtSpace(a[ja..], c, b);
      } else {
        assert s[j..] == [c] + b;
        assert a[ja..] == [];
        assert ([c] + b)[1..] == b;
      }
    }
  }

  /** A run that stops inside `a` stops at the same place in `a + b`, and one
      that reaches the end of `a` stops there when `b` starts with a stop character. */
  lemma {:induction false} RunEndPrefix(a: string, b: string, k: nat, stop: set<char>)
    requires k <= |a|
    requires b != [] && b[0] in stop
    ensures RunEnd(a + b, k, stop) == RunEnd(a, k, stop)
    decreases |a| - k
  {
    if k < |a| && a[k] !in stop {
      RunEndPrefix(a, b, k + 1, stop);
    }
  }

  /** A non-empty word without whitespace is a single token. */
  lemma {:induction false} TokensOfWord(w: string)
    requires w != [] && Avoids(w, Whitespace)
    ensures Tokens(w) == [w]
  {
    var j := RunEnd(w, 0, Whitespace);
    assert j == |w|;
    assert w[..j] == w;
    assert w[j..] == [];
  }

  /** A string made only of whitespace has no tokens. */
  lemma {:induction false} TokensOfBlank(s: string)
    requires forall k :: 0 <= k < |s| ==> s[k] in Whitespace
    ensures Tokens(s) == []
    decreases |s|
  {
    if s != [] {
      TokensOfBlank(s[1..]);
    }
  }

  /** What occurs in a piece of `t` occurs in `t`. */
  lemma ContainsInSlice(t: string, lo: nat, hi: nat, w: string)
    requires lo <= hi <= |t| && Contains(t[lo..hi], w)
    ensures Contains(t, w)
  {
    var k :| 0 <= k <= hi - lo - |w| && OccursAt(t[lo..hi], w, k);
    forall m | 0 <= m < |w| ensures t[lo + k + m] == w[m] {
      assert w[m] == t[lo..hi][k + m];
    }
    assert t[lo + k..lo + k + |w|] == w;
    assert OccursAt(t, w, lo + k);
  }

  /** What occurs in a string that avoids `cs` avoids `cs` too. */
  lemma ContainsAvoids(t: string, w: string, cs: set<char>)
    requires Contains(t, w) && Avoids(t, cs)
    ensures Avoids(w, cs)
  {
    var k :| 0 <= k <= |t| - |w| && OccursAt(t, w, k);
    forall m | 0 <= m < |w| ensures w[m] !in cs {
      assert w[m] == t[k + m];
    }
  }

  /** Every token occurs verbatim in the string it came from. */
  lemma {:induction false} TokensOccur(s: string, tok: string)
    requires tok in Tokens(s)
    ensures Contains(s, tok)
    decreases |s|
  {
    if s[0] in Whitespace {
      TokensOccur(s[1..], tok);
      var k :| 0 <= k <= |s[1..]| - |tok| && OccursAt(s[1..], tok, k);
      assert s[k + 1..k + 1 + |tok|] == s[1..][k..k + |tok|];
      assert OccursAt(s, tok, k + 1);
    } else {
      var j := RunEnd(s, 0, Whitespace);
      if tok == s[..j] {
        assert OccursAt(s, tok, 0);
      } else {
        TokensOccur(s[j..], tok);
        var k :| 0 <= k <= |s[j..]| - |tok| && OccursAt(s[j..], tok, k);
        assert s[k + j..k + j + |tok|] == s[j..][k..k + |tok|];
        assert OccursAt(s, tok, k + j);
      }
    }
  }

  /** Lexicographic order on strings by character code; a proper prefix comes first. */
  predicate StrLe(a: string, b: string)
    decreases |a|
  {
    if a == [] then true
    else if b == [] then false
    else if a[0] != b[0] then a[0] < b[0]
    else StrLe(a[1..], b[1..])
  }

  lemma {:induction false} StrLeTotal(a: string, b: string)
    ensures StrLe(a, b) || StrLe(b, a)
    decreases |a|
  {
    if a != [] && b != [] && a[0] == b[0] {
      StrLeTotal(a[1..], b[1..]);
    }
  }

  lemma {:induction false} StrLeAntisymmetric(a: string, b: string)
    requires StrLe(a, b) && StrLe(b, a)
    ensures a == b
    decreases |a|
  {
    if a != [] {
      StrLeAntisymmetric(a[1..], b[1..]);
      assert a == [a[0]] + a[1..];
      assert b == [b[0]] + b[1..];
    }
  }

  lemma {:induction false} StrLeTransitive(a: string, b: string, c: string)
    requires StrLe(a, b) && StrLe(b, c)
    ensures StrLe(a, c)
    decreases |a|
  {
    if a != [] && b != [] && c != [] && a[0] == b[0] && b[0] == c[0] {
      StrLeTransitive(a[1..], b[1..], c[1..]);
    }
  }
}
