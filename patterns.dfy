/** The four regular expressions the class scanner runs, each written as a
    hand-made matcher, and JavaScript's `matchAll` over them: leftmost match,
    non-overlapping, resuming right after the end of each match. */
module Patterns {
  import opened Json
  import opened Text

  /** The global patterns of the scanner:
      - `QuotedAttr(a)`: `a["']([^"']+)["']` with `a` either `className=` or `class=`;
      - `TemplateAttr`: ``className=\{`([^`]+)`\}``;
      - `MarkedString`: a double-quoted string `"([^"]*)"` whose text holds one of
        the `Markers` (the alternation `(?:bg-|text-|...)` of the source pattern). */
  datatype Pattern = QuotedAttr(attr: string) | TemplateAttr | MarkedString

  /** One match: `t[start..end]` matched and the capture group is `group`. */
  datatype Match = Match(start: nat, end: nat, group: string)

  const ClassNameAttr := "className="
  const ClassAttr := "class="
  const TemplateOpen := "className={`"
  const Quotes: set<char> := {'"', '\''}
  const Markers: seq<string> := [
    "bg-", "text-", "border-", "p-", "m-", "w-", "h-",
    "flex", "grid", "rounded", "shadow", "hover:", "focus:", "active:"
  ]

  predicate HasMarker(s: string) {
    exists m :: m in Markers && Contains(s, m)
  }

  /** Where the capture group starts, for a match starting at `i`. */
  function GroupStart(p: Pattern, i: nat): nat {
    match p
    case QuotedAttr(a) => i + |a| + 1
    case TemplateAttr => i + |TemplateOpen|
    case MarkedString => i + 1
  }

  /** Where the capture group ends, for a match ending at `e`. */
  function GroupEnd(p: Pattern, e: nat): int {
    match p
    case QuotedAttr(_) => e - 1
    case TemplateAttr => e - 2
    case MarkedString => e - 1
  }

  /** What each regular expression means: `t[i..e]` is a match of `p`. Given
      `i`, at most one `e` qualifies, because the capture cannot contain the
      closing delimiter. */
  ghost predicate PatternAt(p: Pattern, t: string, i: nat, e: nat) {
    match p
    case QuotedAttr(a) =>
      && i + |a| + 2 < e <= |t|
      && t[i..i + |a|] == a
      && t[i + |a|] in Quotes
      && (forall k :: i + |a| < k < e - 1 ==> t[k] !in Quotes)
      && t[e - 1] in Quotes
    case TemplateAttr =>
      && i + |TemplateOpen| + 2 < e <= |t|
      && t[i..i + |TemplateOpen|] == TemplateOpen
      && (forall k :: i + |TemplateOpen| <= k < e - 2 ==> t[k] != '`')
      && t[e - 2] == '`' && t[e - 1] == '}'
    case MarkedString =>
      && i + 1 < e <= |t|
      && t[i] == '"'
      && (forall k :: i < k < e - 1 ==> t[k] != '"')
      && t[e - 1] == '"'
      && HasMarker(t[i + 1..e - 1])
  }

  /** The regular expression `p` tried at exactly position `i`. */
  function MatchAt(p: Pattern, t: string, i: nat): (r: Option<Match>)
    requires i <= |t|
    ensures r.Some? ==> r.value.start == i && PatternAt(p, t, i, r.value.end)
    ensures r.Some? ==> (GroupStart(p, i) <= GroupEnd(p, r.value.end)
                         && r.value.group == t[GroupStart(p, i)..GroupEnd(p, r.value.end)])
    ensures r.None? ==> forall e :: !PatternAt(p, t, i, e)
  {
    match p
    case QuotedAttr(a) => QuotedAttrAt(a, t, i)
    case TemplateAttr => TemplateAttrAt(t, i)
    case MarkedString => MarkedStringAt(t, i)
  }

  function QuotedAttrAt(a: string, t: string, i: nat): (r: Option<Match>)
    requires i <= |t|
    ensures r.Some? ==> r.value.start == i && PatternAt(QuotedAttr(a), t, i, r.value.end)
    ensures r.Some? ==> (i + |a| + 1 <= r.value.end - 1
                         && r.value.group == t[i + |a| + 1..r.value.end - 1])
    ensures r.None? ==> forall e :: !PatternAt(QuotedAttr(a), t, i, e)
  {
    if i + |a| < |t| && t[i..i + |a|] == a && t[i + |a|] in Quotes then
      var j := RunEnd(t, i + |a| + 1, Quotes);
      if i + |a| + 1 < j < |t| then Some(Match(i, j + 1, t[i + |a| + 1..j])) else None
    else None
  }

  function TemplateAttrAt(t: string, i: nat): (r: Option<Match>)
    requires i <= |t|
    ensures r.Some? ==> r.value.start == i && PatternAt(TemplateAttr, t, i, r.value.end)
    ensures r.Some? ==> (i + |TemplateOpen| <= r.value.end - 2
                         && r.value.group == t[i + |TemplateOpen|..r.value.end - 2])
    ensures r.None? ==> forall e :: !PatternAt(TemplateAttr, t, i, e)
  {
    if i + |TemplateOpen| <= |t| && t[i..i + |TemplateOpen|] == TemplateOpen then
      var j := RunEnd(t, i + |TemplateOpen|, {'`'});
      if i + |TemplateOpen| < j && j + 1 < |t| && t[j + 1] == '}' then
        Some(Match(i, j + 2, t[i + |TemplateOpen|..j]))
      else None
    else None
  }

  function MarkedStringAt(t: string, i: nat): (r: Option<Match>)
    requires i <= |t|
    ensures r.Some? ==> r.value.start == i && PatternAt(MarkedString, t, i, r.value.end)
    ensures r.Some? ==> (i + 1 <= r.value.end - 1 && r.value.group == t[i + 1..r.value.end - 1])
    ensures r.None? ==> forall e :: !PatternAt(MarkedString, t, i, e)
  {
    if i < |t| && t[i] == '"' then
      var j := RunEnd(t, i + 1, {'"'});
      if j < |t| && HasMarker(t[i + 1..j]) then Some(Match(i, j + 1, t[i + 1..j])) else None
    else None
  }

  /** `t.matchAll(p)` restricted to matches starting at or after `from`. */
  function MatchAll(p: Pattern, t: string, from: nat): (r: seq<Match>)
    requires from <= |t|
    ensures |r| <= |t| - from
    ensures forall k :: 0 <= k < |r| ==> from <= r[k].start < r[k].end <= |t|
    decreases |t| - from
  {
    if from == |t| then []
    else match MatchAt(p, t, from)
      case Some(m) => [m] + MatchAll(p, t, m.end)
      case None => MatchAll(p, t, from + 1)
  }

  /** Position `q` lies inside one of the matches `ms`. */
  ghost predicate Covered(ms: seq<Match>, q: nat) {
    exists k :: 0 <= k < |ms| && ms[k].start <= q < ms[k].end
  }

  /** Every element of `MatchAll` is the match of `p` at its own start. */
  lemma {:induction false} MatchAllSound(p: Pattern, t: string, from: nat)
    requires from <= |t|
    ensures forall m :: m in MatchAll(p, t, from) ==>
              from <= m.start < m.end <= |t| && MatchAt(p, t, m.start) == Some(m)
    decreases |t| - from
  {
    if from < |t| {
      match MatchAt(p, t, from)
      case Some(m) =>
        MatchAllSound(p, t, m.end);
      case None =>
        MatchAllSound(p, t, from + 1);
    }
  }

  /** The matches come in order and do not overlap. */
  lemma {:induction false} MatchAllOrdered(p: Pattern, t: string, from: nat)
    requires from <= |t|
    ensures forall k :: 0 <= k < |MatchAll(p, t, from)| - 1 ==>
              MatchAll(p, t, from)[k].end <= MatchAll(p, t, from)[k + 1].start
    decreases |t| - from
  {
    if from < |t| {
      match MatchAt(p, t, from)
      case Some(m) =>
        MatchAllOrdered(p, t, m.end);
        var rest := MatchAll(p, t, m.end);
        assert MatchAll(p, t, from) == [m] + rest;
      case None =>
        MatchAllOrdered(p, t, from + 1);
    }
  }

  /** No match is skipped: every position at or after `from` where `p`
      matches is the start of a reported match or lies inside one. */
  lemma {:induction false} MatchAllComplete(p: Pattern, t: string, from: nat)
    requires from <= |t|
    ensures forall q :: from <= q < |t| && MatchAt(p, t, q).Some? ==> Covered(MatchAll(p, t, from), q)
    decreases |t| - from
  {
    if from < |t| {
      match MatchAt(p, t, from)
      case Some(m) =>
        MatchAllComplete(p, t, m.end);
        var rest := MatchAll(p, t, m.end);
        assert MatchAll(p, t, from) == [m] + rest;
        forall q | from <= q < |t| && MatchAt(p, t, q).Some? ensures Covered([m] + rest, q) {
          CoveredPrepend(m, rest, q);
        }
      case None =>
        MatchAllComplete(p, t, from + 1);
    }
  }

  /** A position inside `m`, or covered by `rest`, is covered by `[m] + rest`. */
  lemma CoveredPrepend(m: Match, rest: seq<Match>, q: nat)
    requires m.start <= q < m.end || Covered(rest, q)
    ensures Covered([m] + rest, q)
  {
    var r := [m] + rest;
    if m.start <= q < m.end {
      assert r[0].start <= q < r[0].end;
    } else {
      var k :| 0 <= k < |rest| && rest[k].start <= q < rest[k].end;
      assert r[k + 1] == rest[k];
    }
  }

  /** A match of `MatchAll` has its capture between the delimiters of `p`. */
  lemma MatchAllGroup(p: Pattern, t: string, m: Match)
    requires m in MatchAll(p, t, 0)
    ensures GroupStart(p, m.start) <= GroupEnd(p, m.end) <= |t|
    ensures m.group == t[GroupStart(p, m.start)..GroupEnd(p, m.end)]
    ensures PatternAt(p, t, m.start, m.end)
  {
    MatchAllSound(p, t, 0);
  }

  /** `s[..n]` is a `${...}` span: `\$\{[^}]+\}`. */
  ghost predicate SpanAt(s: string, n: nat) {
    && 3 < n <= |s| && s[0] == '$' && s[1] == '{' && s[n - 1] == '}'
    && forall k :: 2 <= k < n - 1 ==> s[k] != '}'
  }

  /** The length of the `${...}` span at the front of `s`, if any; a `$` that
      does not open a span (`$x`, `${}`, an unclosed `${`) gives `None`. */
  function InterpolationAt(s: string): (r: Option<nat>)
    ensures r.Some? ==> SpanAt(s, r.value)
    ensures r.None? <==> !exists n: nat :: SpanAt(s, n)
  {
    if 2 <= |s| && s[0] == '$' && s[1] == '{' then
      var j := RunEnd(s, 2, {'}'});
      SpanIsRun(s);
      if 2 < j < |s| then Some(j + 1) else None
    else None
  }

  /** A span at the front of `s` ends right after the first `}` past `${`. */
  lemma SpanIsRun(s: string)
    requires 2 <= |s| && s[0] == '$' && s[1] == '{'
    ensures 2 < RunEnd(s, 2, {'}'}) < |s| ==> SpanAt(s, RunEnd(s, 2, {'}'}) + 1)
    ensures forall n: nat :: SpanAt(s, n) ==> n == RunEnd(s, 2, {'}'}) + 1
  {
  }

  /** `s.replace(/\$\{[^}]+\}/g, ' ')`: every `${...}` span becomes one space.
      The result is never longer, and each of its characters is a space or a
      character of `s`. */
  function StripInterpolations(s: string): (r: string)
    ensures |r| <= |s|
    ensures forall k :: 0 <= k < |r| ==> r[k] == ' ' || r[k] in s
    decreases |s|
  {
    if s == [] then []
    else match InterpolationAt(s)
      case Some(n) => [' '] + StripInterpolations(s[n..])
      case None => [s[0]] + StripInterpolations(s[1..])
  }

  /** Text without a `$` passes through unchanged, whatever follows it. */
  lemma {:induction false} StripPlainPrefix(a: string, b: string)
    requires '$' !in a
    ensures StripInterpolations(a + b) == a + StripInterpolations(b)
    decreases |a|
  {
    if a != [] {
      var s := a + b;
      assert s[0] == a[0] && s[1..] == a[1..] + b;
      StripPlainPrefix(a[1..], b);
      assert a == [a[0]] + a[1..];
    } else {
      assert a + b == b;
    }
  }

  /** Stripping works left to right: a prefix without `$` is kept as it is and
      a following `${x}` span collapses to a single space. */
  lemma {:induction false} StripSpan(a: string, x: string, b: string)
    requires '$' !in a
    requires x != [] && '}' !in x
    ensures StripInterpolations(a + "${" + x + "}" + b) == a + " " + StripInterpolations(b)
    decreases |a|
  {
    var s := a + "${" + x + "}" + b;
    if a == [] {
      assert s == "${" + x + "}" + b;
      var j := RunEnd(s, 2, {'}'});
      assert s[2 + |x|] == '}';
      assert forall k :: 2 <= k < 2 + |x| ==> s[k] == x[k - 2];
      assert j == 2 + |x|;
      assert s[j + 1..] == b;
    } else {
      assert s[0] == a[0] && s[0] != '$';
      assert s[1..] == a[1..] + "${" + x + "}" + b;
      StripSpan(a[1..], x, b);
      assert a == [a[0]] + a[1..];
    }
  }
}
