/** A worked evaluation of the class scanner over three records: a bundled
    module, a component module and an HTML asset. Each step is its own small
    lemma so that no proof has to unfold the scanner over a whole literal text. */
module ScanClassesScenario {
  import opened Json
  import opened Records
  import opened Text
  import opened Patterns
  import opened ScanClasses
  import opened ScanClassesProperties

  const BundleModule := Record(1, "module", "core.bundle.js", "add",
    EmptyPayload.(src := Some("className=\"bg-blue-500\"")))
  const ButtonModule := Record(2, "module", "Button", "add",
    EmptyPayload.(src := Some("className=\"flex items-center p-4\"")))
  const HtmlAsset := Record(3, "asset", "index.html", "add",
    EmptyPayload.(mimeType := Some("text/html"), content := Some("class=\"rounded-lg\"")))

  /** The bundle is excluded by name: it adds nothing and is not counted. */
  lemma BundleModuleSkipped()
    ensures RecordClasses(BundleModule) == {} && !Scans(BundleModule)
  {
    assert OccursAt("core.bundle.js", ".bundle", 4);
  }

  /** Two words separated by a space are two tokens. */
  lemma TwoWords(a: string, b: string)
    requires a != [] && Avoids(a, Whitespace)
    requires b != [] && Avoids(b, Whitespace)
    ensures Tokens(a + [' '] + b) == [a, b]
  {
    TokensSplitAtSpace(a, ' ', b);
    TokensOfWord(a);
    TokensOfWord(b);
  }

  /** Three words separated by single spaces are three tokens. */
  lemma ThreeWords(a: string, b: string, c: string)
    requires a != [] && Avoids(a, Whitespace)
    requires b != [] && Avoids(b, Whitespace)
    requires c != [] && Avoids(c, Whitespace)
    ensures Elems(Tokens(a + " " + b + " " + c)) == {a, b, c}
  {
    var bc := b + [' '] + c;
    assert a + " " + b + " " + c == a + [' '] + bc;
    TokensSplitAtSpace(a, ' ', bc);
    TokensOfWord(a);
    TwoWords(b, c);
    assert Tokens(a + [' '] + bc) == [a, b, c];
  }

  lemma ButtonGroupTokens()
    ensures Elems(Tokens("flex items-center p-4")) == {"flex", "items-center", "p-4"}
  {
    assert "flex items-center p-4" == "flex" + " " + "items-center" + " " + "p-4";
    ThreeWords("flex", "items-center", "p-4");
  }

  lemma ButtonText()
    ensures ModuleText(ButtonModule.data) == ClassNameAttr + "\"" + "flex items-center p-4" + "\""
    ensures !Excluded(ButtonModule.name)
  {
  }

  lemma ButtonPasses()
    ensures ModuleClasses(ClassNameAttr + "\"" + "flex items-center p-4" + "\"")
         == Elems(Tokens("flex items-center p-4"))
  {
    SingleClassNameModule("flex items-center p-4");
  }

  /** The component's `className` attribute yields its three tokens. */
  lemma ButtonModuleScanned()
    ensures RecordClasses(ButtonModule) == {"flex", "items-center", "p-4"} && Scans(ButtonModule)
  {
    ButtonText();
    ButtonPasses();
    ButtonGroupTokens();
  }

  lemma HtmlPass()
    ensures PassClasses(QuotedAttr(ClassAttr), ClassAttr + "\"" + "rounded-lg" + "\"")
         == Elems(Tokens("rounded-lg"))
  {
    SingleQuotedAttr(ClassAttr, "rounded-lg");
  }

  lemma HtmlGroupTokens()
    ensures Elems(Tokens("rounded-lg")) == {"rounded-lg"}
  {
    TokensOfWord("rounded-lg");
  }

  /** The HTML asset's `class` attribute yields its one token. */
  lemma HtmlAssetScanned()
    ensures RecordClasses(HtmlAsset) == {"rounded-lg"} && Scans(HtmlAsset)
  {
    assert HtmlAsset.data.content.value == ClassAttr + "\"" + "rounded-lg" + "\"";
    HtmlPass();
    HtmlGroupTokens();
  }

  /** The fold over three records is the union of what each contributes and
      the number of them that are scanned. */
  lemma FoldThree(r1: Record, r2: Record, r3: Record)
    ensures ClassesOf([r1, r2, r3]) == RecordClasses(r1) + RecordClasses(r2) + RecordClasses(r3)
    ensures ScannedOf([r1, r2, r3])
         == (if Scans(r1) then 1 else 0) + (if Scans(r2) then 1 else 0) + (if Scans(r3) then 1 else 0)
  {
    FoldOne(r1);
    FoldSnoc([r1], r2);
    FoldSnoc([r1, r2], r3);
    assert [r1] + [r2] == [r1, r2];
    assert [r1, r2] + [r3] == [r1, r2, r3];
  }

  lemma FoldOne(r: Record)
    ensures ClassesOf([r]) == RecordClasses(r)
    ensures ScannedOf([r]) == (if Scans(r) then 1 else 0)
  {
    assert [r][..0] == [];
  }

  lemma FoldSnoc(rs: seq<Record>, r: Record)
    ensures ClassesOf(rs + [r]) == ClassesOf(rs) + RecordClasses(r)
    ensures ScannedOf(rs + [r]) == ScannedOf(rs) + (if Scans(r) then 1 else 0)
  {
    assert (rs + [r])[..|rs|] == rs;
  }

  /** Folding the three records: the bundle is skipped, the other two each
      add their tokens and count once. */
  lemma ScenarioFold()
    ensures ClassesOf([BundleModule, ButtonModule, HtmlAsset]) == {"flex", "items-center", "p-4", "rounded-lg"}
    ensures ScannedOf([BundleModule, ButtonModule, HtmlAsset]) == 2
  {
    FoldThree(BundleModule, ButtonModule, HtmlAsset);
    BundleModuleSkipped();
    ButtonModuleScanned();
    HtmlAssetScanned();
  }

  /** The query's result over the three records. */
  method RunScenario() returns (res: ScanResult)
    ensures res == ScanResult(["flex", "items-center", "p-4", "rounded-lg"], 4, 2)
  {
    res := Run(None, [BundleModule, ButtonModule, HtmlAsset]);
    ScenarioFold();
    var expected := ["flex", "items-center", "p-4", "rounded-lg"];
    assert Elems(expected) == {"flex", "items-center", "p-4", "rounded-lg"};
    AscendingUnique(res.classes, expected);
  }
}
