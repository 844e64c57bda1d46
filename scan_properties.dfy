/** What the class scanner promises, stated over its specification functions. */
module ScanClassesProperties {
  import opened Json
  import opened Records
  import opened Text
  import opened Sorting
  import opened Patterns
  import opened ScanClasses

  /** A token comes from a pass exactly when some match of that pass yields it. */
  lemma {:induction false} MatchesClassesMembers(p: Pattern, ms: seq<Match>, tok: string)
    ensures tok in MatchesClasses(p, ms)
        <==> exists k :: 0 <= k < |ms| && tok in KeptTokens(p, ms[k].group)
    decreases |ms|
  {
    if ms != [] {
      var init := ms[..|ms| - 1];
      MatchesClassesMembers(p, init, tok);
      if tok in MatchesClasses(p, ms) && tok !in MatchesClasses(p, init) {
        assert tok in KeptTokens(p, ms[|ms| - 1].group);
      }
      if k :| 0 <= k < |ms| && tok in KeptTokens(p, ms[k].group) {
        if k < |ms| - 1 {
          assert init[k] == ms[k];
        }
      }
    }
  }

  /** The capture of a quoted-attribute match holds no quote. */
  lemma QuotedGroupAvoidsQuotes(a: string, t: string, m: Match)
    requires m in MatchAll(QuotedAttr(a), t, 0)
    ensures Avoids(m.group, Quotes)
  {
    MatchAllGroup(QuotedAttr(a), t, m);
    forall k | 0 <= k < |m.group| ensures m.group[k] !in Quotes {
      assert m.group[k] == t[m.start + |a| + 1 + k];
    }
  }

  /** Every token a pass contributes is non-empty, free of whitespace and
      accepted by that pass's filter; the quoted-attribute and marker passes
      add only text that occurs verbatim in the scanned text, and the
      quoted-attribute passes never add a quote character. */
  lemma PassTokenShape(p: Pattern, t: string, tok: string)
    requires tok in PassClasses(p, t)
    ensures tok != [] && Avoids(tok, Whitespace) && Keep(p, tok)
    ensures !p.TemplateAttr? ==> Contains(t, tok)
    ensures p.QuotedAttr? ==> Avoids(tok, Quotes)
  {
    var ms := MatchAll(p, t, 0);
    MatchesClassesMembers(p, ms, tok);
    var k :| 0 <= k < |ms| && tok in KeptTokens(p, ms[k].group);
    var m := ms[k];
    MatchAllGroup(p, t, m);
    assert tok in Tokens(Cleaned(p, m.group));
    if !p.TemplateAttr? {
      TokensOccur(m.group, tok);
      ContainsInSlice(t, GroupStart(p, m.start), GroupEnd(p, m.end), tok);
    }
    if p.QuotedAttr? {
      QuotedGroupAvoidsQuotes(p.attr, t, m);
      TokensOccur(m.group, tok);
      ContainsAvoids(m.group, tok, Quotes);
    }
  }

  /** Every whitespace-separated token inside a `className="..."` (or `'...'`)
      match of a scanned module ends up, verbatim, among the record's tokens. */
  lemma ClassNameTokensCollected(r: Record, m: Match, tok: string)
    requires IsModuleAdd(r) && !Excluded(r.name) && ModuleText(r.data) != ""
    requires m in MatchAll(QuotedAttr(ClassNameAttr), ModuleText(r.data), 0)
    requires tok in Tokens(m.group)
    ensures tok in RecordClasses(r)
  {
    var p := QuotedAttr(ClassNameAttr);
    var ms := MatchAll(p, ModuleText(r.data), 0);
    var k :| 0 <= k < |ms| && ms[k] == m;
    assert tok in KeptTokens(p, ms[k].group);
    MatchesClassesMembers(p, ms, tok);
  }

  /** A bundled or vendor module changes nothing, whatever its text. */
  lemma ExcludedModuleIgnored(r: Record)
    requires IsModuleAdd(r) && Excluded(r.name)
    ensures RecordClasses(r) == {} && !Scans(r)
  {
  }

  /** A module whose `src` and `compiled_src` are both missing or empty changes nothing. */
  lemma EmptyModuleIgnored(r: Record)
    requires IsModuleAdd(r) && !StrTruthy(r.data.src) && !StrTruthy(r.data.compiledSrc)
    ensures RecordClasses(r) == {} && !Scans(r)
  {
  }

  /** An asset counts exactly when it is HTML with non-empty content; a router
      counts whenever it has compiled or raw source, whatever `includeRouters` says. */
  lemma AssetAndRouterCounting(r: Record)
    ensures IsAssetAdd(r) ==> (Scans(r) <==> r.data.mimeType == Some("text/html") && StrTruthy(r.data.content))
    ensures IsRouterAdd(r) ==> (Scans(r) <==> StrTruthy(r.data.compiledSrc) || StrTruthy(r.data.src))
    ensures !IsModuleAdd(r) && !IsAssetAdd(r) && !IsRouterAdd(r) ==> RecordClasses(r) == {} && !Scans(r)
  {
  }

  /** Every token a record contributes is a non-empty string without whitespace. */
  lemma RecordTokensWellFormed(r: Record, tok: string)
    requires tok in RecordClasses(r)
    ensures tok != [] && Avoids(tok, Whitespace)
  {
    if IsModuleAdd(r) {
      var t := ModuleText(r.data);
      if tok in PassClasses(QuotedAttr(ClassNameAttr), t) {
        PassTokenShape(QuotedAttr(ClassNameAttr), t, tok);
      } else if tok in PassClasses(TemplateAttr, t) {
        PassTokenShape(TemplateAttr, t, tok);
      } else {
        PassTokenShape(MarkedString, t, tok);
      }
    } else if IsAssetAdd(r) {
      PassTokenShape(QuotedAttr(ClassAttr), r.data.content.value, tok);
    } else {
      PassTokenShape(QuotedAttr(ClassAttr), RouterText(r.data), tok);
    }
  }

  /** The fold's token set is the union of what each record contributes. */
  lemma {:induction false} ClassesOfMembers(rs: seq<Record>, tok: string)
    ensures tok in ClassesOf(rs) <==> exists i :: 0 <= i < |rs| && tok in RecordClasses(rs[i])
    decreases |rs|
  {
    if rs != [] {
      var init := rs[..|rs| - 1];
      ClassesOfMembers(init, tok);
      if i :| 0 <= i < |rs| && tok in RecordClasses(rs[i]) {
        if i < |rs| - 1 {
          assert init[i] == rs[i];
        }
      }
      if i :| 0 <= i < |init| && tok in RecordClasses(init[i]) {
        assert rs[i] == init[i];
      }
    }
  }

  /** Folding more records never removes a token nor lowers the counter. */
  lemma {:induction false} ClassesOfGrow(rs: seq<Record>, n: nat)
    requires n <= |rs|
    ensures ClassesOf(rs[..n]) <= ClassesOf(rs)
    ensures ScannedOf(rs[..n]) <= ScannedOf(rs)
    decreases |rs| - n
  {
    if n < |rs| {
      var init := rs[..|rs| - 1];
      assert init[..n] == rs[..n];
      ClassesOfGrow(init, n);
    } else {
      assert rs[..n] == rs;
    }
  }

  /** The counter never exceeds the number of records folded. */
  lemma {:induction false} ScannedAtMostRecords(rs: seq<Record>)
    ensures ScannedOf(rs) <= |rs|
    decreases |rs|
  {
    if rs != [] {
      ScannedAtMostRecords(rs[..|rs| - 1]);
    }
  }

  /** Every token in the final set is a non-empty string without whitespace. */
  lemma AllClassesWellFormed(rs: seq<Record>, tok: string)
    requires tok in ClassesOf(rs)
    ensures tok != [] && Avoids(tok, Whitespace)
  {
    ClassesOfMembers(rs, tok);
    var i :| 0 <= i < |rs| && tok in RecordClasses(rs[i]);
    RecordTokensWellFormed(rs[i], tok);
  }

  /** There is only one strictly ascending sequence holding a given set of
      tokens, so the transform's result is fully determined by the set. */
  lemma {:induction false} AscendingUnique(a: seq<string>, b: seq<string>)
    requires StrictlyAscending(a) && StrictlyAscending(b) && Elems(a) == Elems(b)
    ensures a == b
    decreases |a|
  {
    assert b != [] ==> b[0] in Elems(b);
    if a != [] {
      assert a[0] in Elems(b);
      assert b != [];
      assert b[0] in Elems(a);
      var kb :| 0 <= kb < |b| && b[kb] == a[0];
      var ka :| 0 <= ka < |a| && a[ka] == b[0];
      if kb != 0 && ka != 0 {
        assert StrLe(b[0], a[0]);
        assert StrLe(a[0], b[0]);
        StrLeAntisymmetric(a[0], b[0]);
      }
      assert Elems(a[1..]) == Elems(b[1..]) by {
        forall y ensures y in Elems(a[1..]) <==> y in Elems(b[1..]) {
          if y in a[1..] {
            var i :| 0 <= i < |a[1..]| && a[1..][i] == y;
            assert a[i + 1] == y;
            assert y in Elems(b);
            var j :| 0 <= j < |b| && b[j] == y;
            assert j != 0;
            assert b[1..][j - 1] == y;
          }
          if y in b[1..] {
            var i :| 0 <= i < |b[1..]| && b[1..][i] == y;
            assert b[i + 1] == y;
            assert y in Elems(a);
            var j :| 0 <= j < |a| && a[j] == y;
            assert j != 0;
            assert a[1..][j - 1] == y;
          }
        }
      }
      AscendingUnique(a[1..], b[1..]);
      assert a == [a[0]] + a[1..];
      assert b == [b[0]] + b[1..];
    }
  }

  /** Inside a template attribute, a `${...}` span counts as a single space:
      nothing inside the expression can become a token. */
  lemma TemplateDropsInterpolation(a: string, x: string, b: string)
    requires '$' !in a
    requires x != [] && '}' !in x
    ensures KeptTokens(TemplateAttr, a + "${" + x + "}" + b) == KeptTokens(TemplateAttr, a + " " + b)
  {
    StripSpan(a, x, b);
    StripPlainPrefix(a + " ", b);
    assert a + " " + b == (a + " ") + b;
  }

  /** `matchAll` finds nothing where the pattern matches nowhere. */
  lemma {:induction false} MatchAllNone(p: Pattern, t: string, from: nat)
    requires from <= |t|
    requires forall q :: from <= q < |t| ==> MatchAt(p, t, q).None?
    ensures MatchAll(p, t, from) == []
    decreases |t| - from
  {
    if from < |t| {
      MatchAllNone(p, t, from + 1);
    }
  }

  /** A text that is one quoted attribute `a"g"` yields exactly the tokens of `g`. */
  lemma SingleQuotedAttr(a: string, g: string)
    requires g != [] && Avoids(g, Quotes)
    ensures PassClasses(QuotedAttr(a), a + "\"" + g + "\"") == Elems(Tokens(g))
  {
    var p := QuotedAttr(a);
    var t := a + "\"" + g + "\"";
    assert t[..|a|] == a;
    assert t[|a|] == '"';
    var j := RunEnd(t, |a| + 1, Quotes);
    forall k | |a| + 1 <= k < |t| - 1 ensures t[k] !in Quotes {
      assert t[k] == g[k - |a| - 1];
    }
    assert t[|t| - 1] == '"';
    assert j == |t| - 1;
    assert t[|a| + 1..j] == g;
    var m := Match(0, |t|, g);
    assert MatchAt(p, t, 0) == Some(m);
    assert MatchAll(p, t, 0) == [m] + MatchAll(p, t, |t|);
    assert MatchAll(p, t, 0) == [m];
    assert [m][..0] == [];
    assert MatchesClasses(p, [m]) == Elems(KeptTokens(p, g));
  }

  /** A text without a backtick has no template attribute. */
  lemma NoTemplateWithoutBacktick(t: string)
    requires '`' !in t
    ensures PassClasses(TemplateAttr, t) == {}
  {
    forall q | 0 <= q < |t| ensures MatchAt(TemplateAttr, t, q).None? {
      if q + |TemplateOpen| <= |t| {
        assert t[q..q + |TemplateOpen|][11] == t[q + 11];
      }
    }
    MatchAllNone(TemplateAttr, t, 0);
  }

  /** In a text `a"g"` whose only double quotes are the two around `g`, the
      marker pass can only add tokens of `g`. */
  lemma MarkedWithinQuotes(a: string, g: string, tok: string)
    requires '"' !in a && Avoids(g, Quotes)
    requires tok in PassClasses(MarkedString, a + "\"" + g + "\"")
    ensures tok in Tokens(g)
  {
    var t := a + "\"" + g + "\"";
    var ms := MatchAll(MarkedString, t, 0);
    MatchesClassesMembers(MarkedString, ms, tok);
    var k :| 0 <= k < |ms| && tok in KeptTokens(MarkedString, ms[k].group);
    var m := ms[k];
    MatchAllGroup(MarkedString, t, m);
    QuotePositions(a, g);
    assert m.start == |a| && m.end == |t|;
    assert m.group == g;
  }

  /** In `a"g"` with no double quote in `a` or `g`, the only double quotes
      are the two around `g`. */
  lemma QuotePositions(a: string, g: string)
    requires '"' !in a && Avoids(g, Quotes)
    ensures forall i :: 0 <= i < |a + "\"" + g + "\""| && (a + "\"" + g + "\"")[i] == '"' ==>
              i == |a| || i == |a| + |g| + 1
  {
    var t := a + "\"" + g + "\"";
    forall i | 0 <= i < |t| && i != |a| && i != |a| + |g| + 1 ensures t[i] != '"' {
      if i < |a| {
        assert t[i] == a[i];
      } else {
        assert t[i] == g[i - |a| - 1];
      }
    }
  }

  /** A module whose whole text is `className="g"` contributes exactly the tokens of `g`. */
  lemma SingleClassNameModule(g: string)
    requires g != [] && Avoids(g, Quotes) && '`' !in g
    ensures ModuleClasses(ClassNameAttr + "\"" + g + "\"") == Elems(Tokens(g))
  {
    var t := ClassNameAttr + "\"" + g + "\"";
    SingleQuotedAttr(ClassNameAttr, g);
    SingleClassNameOtherPasses(g);
    ModuleClassesFromPasses(t, Elems(Tokens(g)));
  }

  /** In `className="g"` the template pass finds nothing and the marker pass
      only tokens of `g`. */
  lemma SingleClassNameOtherPasses(g: string)
    requires g != [] && Avoids(g, Quotes) && '`' !in g
    ensures PassClasses(TemplateAttr, ClassNameAttr + "\"" + g + "\"") == {}
    ensures PassClasses(MarkedString, ClassNameAttr + "\"" + g + "\"") <= Elems(Tokens(g))
  {
    BacktickFree(ClassNameAttr, g);
    NoTemplateWithoutBacktick(ClassNameAttr + "\"" + g + "\"");
    MarkedWithinClassName(g);
  }

  /** In `className="g"` the marker pass only adds tokens of `g`. */
  lemma MarkedWithinClassName(g: string)
    requires Avoids(g, Quotes)
    ensures PassClasses(MarkedString, ClassNameAttr + "\"" + g + "\"") <= Elems(Tokens(g))
  {
    var t := ClassNameAttr + "\"" + g + "\"";
    assert '"' !in ClassNameAttr;
    forall tok | tok in PassClasses(MarkedString, t) ensures tok in Elems(Tokens(g)) {
      MarkedWithinQuotes(ClassNameAttr, g, tok);
    }
  }

  lemma ModuleClassesFromPasses(t: string, s: set<string>)
    requires PassClasses(QuotedAttr(ClassNameAttr), t) == s
    requires PassClasses(TemplateAttr, t) == {}
    requires PassClasses(MarkedString, t) <= s
    ensures ModuleClasses(t) == s
  {
  }

  lemma BacktickFree(a: string, g: string)
    requires '`' !in a && '`' !in g
    ensures '`' !in a + "\"" + g + "\""
  {
  }
}
