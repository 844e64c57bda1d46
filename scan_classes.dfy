/** The class scanner query: folds module, asset and router records into the
    set of utility-class tokens they mention and a count of scanned records,
    then returns the tokens sorted. */
module ScanClasses {
  import opened Json
  import opened Records
  import opened Text
  import opened Sorting
  import opened Patterns

  /** The optional query parameters as the caller passes them. */
  datatype ScanInput = ScanInput(
    includeModules: Option<bool>, includeAssets: Option<bool>, includeRouters: Option<bool>)

  datatype ScanParams = ScanParams(includeModules: bool, includeAssets: bool, includeRouters: bool)

  datatype ScanResult = ScanResult(classes: seq<string>, count: nat, scannedRecords: nat)

  /** Parameter defaults: modules and assets on, routers off, unless the caller
      says otherwise; a missing input takes every default. */
  function ResolveParams(input: Option<ScanInput>): (p: ScanParams)
    ensures p.includeModules <==> input.None? || input.value.includeModules != Some(false)
    ensures p.includeAssets <==> input.None? || input.value.includeAssets != Some(false)
    ensures p.includeRouters <==> input.Some? && input.value.includeRouters == Some(true)
  {
    if input.None? then ScanParams(true, true, false)
    else ScanParams(OrDefault(input.value.includeModules, true),
                    OrDefault(input.value.includeAssets, true),
                    OrDefault(input.value.includeRouters, false))
  }

  /** A token the template pass keeps: no leftover of an expression and a
      `length` (in UTF-16 code units) above one. A single character beyond
      U+FFFF is kept; any other single character is not. */
  function TemplateKeep(tok: string): (b: bool)
    ensures b ==> Avoids(tok, {'$', '?', ':'}) && tok != []
    ensures |tok| == 1 && tok[0] as int < 0x1_0000 ==> !b
  {
    '$' !in tok && '?' !in tok && ':' !in tok && Utf16Length(tok) > 1
  }

  predicate IsAsciiLetter(c: char) {
    'a' <= c <= 'z' || 'A' <= c <= 'Z'
  }

  predicate IsClassChar(c: char) {
    IsAsciiLetter(c) || '0' <= c <= '9' || c == '-' || c == '_' || c == ':'
  }

  /** `/^[a-z][a-z0-9\-_:]*$/i` and a `length` above one: the shape the
      marker pass demands of a token. Such a token has at least two
      characters and holds no whitespace, quote, `$` or `?`. */
  function IsClassToken(tok: string): (b: bool)
    ensures b ==> |tok| > 1 && Avoids(tok, Whitespace) && Avoids(tok, Quotes) && Avoids(tok, {'$', '?'})
  {
    && tok != [] && IsAsciiLetter(tok[0]) && (forall k :: 1 <= k < |tok| ==> IsClassChar(tok[k]))
    && Utf16Length(tok) > 1
  }

  /** Whether pass `p` adds a token it split out of a capture: the quoted
      passes keep every token; the other two never keep a `$` or a single
      character below U+10000. */
  function Keep(p: Pattern, tok: string): (b: bool)
    ensures p.QuotedAttr? ==> b
    ensures b && !p.QuotedAttr? ==> '$' !in tok && tok != []
    ensures !p.QuotedAttr? && |tok| == 1 && tok[0] as int < 0x1_0000 ==> !b
  {
    match p
    case QuotedAttr(_) => true
    case TemplateAttr => TemplateKeep(tok)
    case MarkedString => IsClassToken(tok)
  }

  /** The text pass `p` splits: the template pass first blanks out `${...}`. */
  function Cleaned(p: Pattern, group: string): string {
    if p.TemplateAttr? then StripInterpolations(group) else group
  }

  /** The tokens of `ts` that pass `p` keeps, in order. */
  function Filter(p: Pattern, ts: seq<string>): (r: seq<string>)
    ensures forall x :: x in r <==> x in ts && Keep(p, x)
  {
    if ts == [] then []
    else (if Keep(p, ts[0]) then [ts[0]] else []) + Filter(p, ts[1..])
  }

  /** The tokens one capture contributes. */
  function KeptTokens(p: Pattern, group: string): seq<string> {
    Filter(p, Tokens(Cleaned(p, group)))
  }

  /** The tokens the captures of `ms` contribute. */
  function MatchesClasses(p: Pattern, ms: seq<Match>): set<string>
    decreases |ms|
  {
    if ms == [] then {}
    else MatchesClasses(p, ms[..|ms| - 1]) + Elems(KeptTokens(p, ms[|ms| - 1].group))
  }

  /** The tokens one pass of `p` over `t` contributes. */
  function PassClasses(p: Pattern, t: string): set<string> {
    MatchesClasses(p, MatchAll(p, t, 0))
  }

  /** Bundled and vendor modules are not scanned: a name that includes
      `.bundle` or `unocss-core`. A name shorter than both markers, the empty
      name among them, is never excluded. */
  function Excluded(name: string): (b: bool)
    ensures b ==> |name| >= 7
  {
    Contains(name, ".bundle") || Contains(name, "unocss-core")
  }

  /** The text of a module: `src`, else `compiled_src`, else empty. */
  function ModuleText(d: Payload): (t: string)
    ensures t != "" <==> StrTruthy(d.src) || StrTruthy(d.compiledSrc)
    ensures StrTruthy(d.src) ==> t == d.src.value
    ensures !StrTruthy(d.src) && StrTruthy(d.compiledSrc) ==> t == d.compiledSrc.value
  {
    OrStr(d.src, OrStr(d.compiledSrc, ""))
  }

  /** The text of a router: `compiled_src` first, then `src`. */
  function RouterText(d: Payload): (t: string)
    ensures t != "" <==> StrTruthy(d.compiledSrc) || StrTruthy(d.src)
    ensures StrTruthy(d.compiledSrc) ==> t == d.compiledSrc.value
    ensures !StrTruthy(d.compiledSrc) && StrTruthy(d.src) ==> t == d.src.value
  {
    OrStr(d.compiledSrc, OrStr(d.src, ""))
  }

  predicate IsHtmlAsset(d: Payload) {
    d.mimeType == Some("text/html") && StrTruthy(d.content)
  }

  predicate IsModuleAdd(r: Record) { r.kind == "module" && r.operation == "add" }
  predicate IsAssetAdd(r: Record) { r.kind == "asset" && r.operation == "add" }
  predicate IsRouterAdd(r: Record) { r.kind == "router" && r.operation == "add" }

  /** The three module passes over a non-empty module text. */
  function ModuleClasses(t: string): set<string> {
    PassClasses(QuotedAttr(ClassNameAttr), t)
      + PassClasses(TemplateAttr, t)
      + PassClasses(MarkedString, t)
  }

  /** The tokens one record contributes: only an added module, asset or
      router contributes any, and a record that contributes is counted. */
  function RecordClasses(r: Record): (cs: set<string>)
    ensures cs != {} ==> Scans(r)
    ensures !IsModuleAdd(r) && !IsAssetAdd(r) && !IsRouterAdd(r) ==> cs == {}
  {
    if IsModuleAdd(r) then
      if Excluded(r.name) || ModuleText(r.data) == "" then {} else ModuleClasses(ModuleText(r.data))
    else if IsAssetAdd(r) then
      if IsHtmlAsset(r.data) then PassClasses(QuotedAttr(ClassAttr), r.data.content.value) else {}
    else if IsRouterAdd(r) then
      if RouterText(r.data) == "" then {} else PassClasses(QuotedAttr(ClassAttr), RouterText(r.data))
    else {}
  }

  /** Whether one record counts as scanned: only an `add` of a module, asset
      or router with non-empty text to scan. */
  function Scans(r: Record): (b: bool)
    ensures b ==> r.operation == "add" && r.kind in {"module", "asset", "router"}
  {
    || (IsModuleAdd(r) && !Excluded(r.name) && ModuleText(r.data) != "")
    || (IsAssetAdd(r) && IsHtmlAsset(r.data))
    || (IsRouterAdd(r) && RouterText(r.data) != "")
  }

  /** The tokens of a whole record sequence. */
  function ClassesOf(rs: seq<Record>): set<string>
    decreases |rs|
  {
    if rs == [] then {} else ClassesOf(rs[..|rs| - 1]) + RecordClasses(rs[|rs| - 1])
  }

  /** The scanned-record counter after a whole record sequence. */
  function ScannedOf(rs: seq<Record>): nat
    decreases |rs|
  {
    if rs == [] then 0 else ScannedOf(rs[..|rs| - 1]) + (if Scans(rs[|rs| - 1]) then 1 else 0)
  }

  /** Strictly increasing in string order, hence also free of duplicates. */
  ghost predicate StrictlyAscending(s: seq<string>) {
    forall i, j :: 0 <= i < j < |s| ==> StrLe(s[i], s[j]) && s[i] != s[j]
  }

  function ClassKey(s: string): SortKey {
    SortKey(0, s)
  }

  /** One step of turning the set into a sorted sequence: inserting a new
      token keeps the sequence sorted and duplicate-free and adds just that token. */
  lemma InsertClass(x: string, s: seq<string>)
    requires SortedBy(s, ClassKey) && Distinct(s) && x !in s
    ensures SortedBy(InsertBy(x, s, ClassKey), ClassKey)
    ensures Distinct(InsertBy(x, s, ClassKey))
    ensures Elems(InsertBy(x, s, ClassKey)) == Elems(s) + {x}
  {
    InsertBySorted(x, s, ClassKey);
    InsertByDistinct(x, s, ClassKey);
    InsertByMultiset(x, s, ClassKey);
    var next := InsertBy(x, s, ClassKey);
    assert forall y :: y in next <==> y in multiset(next);
  }

  lemma SortedDistinctAscending(s: seq<string>)
    requires SortedBy(s, ClassKey) && Distinct(s)
    ensures StrictlyAscending(s)
  {
  }

  /** The accumulator of one evaluation. */
  class ScanState {
    var classes: set<string>
    var scannedRecords: nat

    constructor ()
      ensures classes == {} && scannedRecords == 0
    {
      classes := {};
      scannedRecords := 0;
    }

    /** `forEach` over the tokens of one capture, adding those pass `p` keeps. */
    method AddTokens(p: Pattern, ts: seq<string>)
      modifies this
      ensures classes == old(classes) + Elems(Filter(p, ts))
      ensures scannedRecords == old(scannedRecords)
    {
      for j := 0 to |ts|
        invariant classes == old(classes) + (set x | x in ts[..j] && Keep(p, x))
        invariant scannedRecords == old(scannedRecords)
      {
        assert ts[..j + 1] == ts[..j] + [ts[j]];
        if Keep(p, ts[j]) {
          classes := classes + {ts[j]};
        }
      }
      assert ts[..|ts|] == ts;
    }

    /** One `matchAll` loop of pass `p` over `t`. */
    method AddPass(p: Pattern, t: string)
      modifies this
      ensures classes == old(classes) + PassClasses(p, t)
      ensures scannedRecords == old(scannedRecords)
    {
      var ms := MatchAll(p, t, 0);
      for k := 0 to |ms|
        invariant classes == old(classes) + MatchesClasses(p, ms[..k])
        invariant scannedRecords == old(scannedRecords)
      {
        assert ms[..k + 1][..k] == ms[..k];
        AddTokens(p, Tokens(Cleaned(p, ms[k].group)));
      }
      assert ms[..|ms|] == ms;
    }

    /** Folds one record into the state: the set only grows, by the record's
        tokens, and the counter moves by one exactly when the record is scanned. */
    method Update(r: Record)
      modifies this
      ensures classes == old(classes) + RecordClasses(r)
      ensures scannedRecords == old(scannedRecords) + (if Scans(r) then 1 else 0)
    {
      if IsModuleAdd(r) {
        if Excluded(r.name) {
          return;
        }
        var text := ModuleText(r.data);
        if text != "" {
          AddPass(QuotedAttr(ClassNameAttr), text);
          AddPass(TemplateAttr, text);
          AddPass(MarkedString, text);
          scannedRecords := scannedRecords + 1;
        }
      }
      if IsAssetAdd(r) {
        if IsHtmlAsset(r.data) {
          var text := r.data.content.value;
          AddPass(QuotedAttr(ClassAttr), text);
          scannedRecords := scannedRecords + 1;
        }
      }
      if IsRouterAdd(r) {
        if StrTruthy(r.data.compiledSrc) || StrTruthy(r.data.src) {
          var text := RouterText(r.data);
          if text != "" {
            AddPass(QuotedAttr(ClassAttr), text);
            scannedRecords := scannedRecords + 1;
          }
        }
      }
    }

    /** `Array.from(classes).sort()` with its length and the counter; the
        parameters are accepted and ignored. */
    method Transform(params: ScanParams) returns (res: ScanResult)
      ensures StrictlyAscending(res.classes)
      ensures Elems(res.classes) == classes
      ensures res.count == |res.classes|
      ensures res.scannedRecords == scannedRecords
    {
      var rest := classes;
      var sorted: seq<string> := [];
      while rest != {}
        invariant SortedBy(sorted, ClassKey) && Distinct(sorted)
        invariant Elems(sorted) + rest == classes && Elems(sorted) !! rest
        decreases |rest|
      {
        var x :| x in rest;
        InsertClass(x, sorted);
        sorted := InsertBy(x, sorted, ClassKey);
        rest := rest - {x};
      }
      SortedDistinctAscending(sorted);
      res := ScanResult(sorted, |sorted|, scannedRecords);
    }
  }

  /** The whole query: resolve parameters, fold every record in order, transform. */
  method Run(input: Option<ScanInput>, records: seq<Record>) returns (res: ScanResult)
    ensures StrictlyAscending(res.classes)
    ensures Elems(res.classes) == ClassesOf(records)
    ensures res.count == |res.classes|
    ensures res.scannedRecords == ScannedOf(records)
  {
    var params := ResolveParams(input);
    var state := new ScanState();
    for i := 0 to |records|
      invariant state.classes == ClassesOf(records[..i])
      invariant state.scannedRecords == ScannedOf(records[..i])
    {
      assert records[..i + 1][..i] == records[..i];
      state.Update(records[i]);
    }
    assert records[..|records|] == records;
    res := state.Transform(params);
  }
}
