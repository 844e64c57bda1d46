/** The generated-CSS lookup query: the latest `generate` record for one
    configuration wins, and the result has a fixed shape when there is no
    usable CSS. */
module GetGeneratedCss {
  import opened Json
  import opened Records

  /** The query parameters: the configuration whose CSS is wanted. */
  datatype CssInput = CssInput(configName: string)

  datatype CssResult = CssResult(
    found: bool,
    content: Option<string>,
    generatedAt: Option<Json>,
    classCount: int,
    recordId: Option<int>)

  /** The result when there is no usable CSS. */
  const NotFound := CssResult(false, None, None, 0, None)

  /** The records the query takes into account. */
  predicate Qualifies(r: Record, configName: string) {
    r.kind == "css-generated" && r.name == configName && r.operation == "generate"
  }

  /** The last qualifying record of `rs`. */
  function LastQualifying(rs: seq<Record>, configName: string): (w: Option<Record>)
    ensures w.Some? ==> Qualifies(w.value, configName)
    decreases |rs|
  {
    if rs == [] then None
    else if Qualifies(rs[|rs| - 1], configName) then Some(rs[|rs| - 1])
    else LastQualifying(rs[..|rs| - 1], configName)
  }

  /** `LastQualifying` finds the qualifying record with the highest position,
      and finds none exactly when no record qualifies. */
  lemma {:induction false} LastQualifyingIsLast(rs: seq<Record>, configName: string)
    ensures LastQualifying(rs, configName).None? <==>
              forall j :: 0 <= j < |rs| ==> !Qualifies(rs[j], configName)
    ensures LastQualifying(rs, configName).Some? ==>
              exists k :: 0 <= k < |rs| && rs[k] == LastQualifying(rs, configName).value
                       && forall j :: k < j < |rs| ==> !Qualifies(rs[j], configName)
    decreases |rs|
  {
    if rs != [] {
      var init := rs[..|rs| - 1];
      LastQualifyingIsLast(init, configName);
      if !Qualifies(rs[|rs| - 1], configName) {
        if LastQualifying(init, configName).Some? {
          var k :| 0 <= k < |init| && init[k] == LastQualifying(init, configName).value
                   && forall j :: k < j < |init| ==> !Qualifies(init[j], configName);
          assert rs[k] == init[k];
        }
        assert forall j :: 0 <= j < |init| ==> rs[j] == init[j];
      } else {
        assert rs[|rs| - 1] == LastQualifying(rs, configName).value;
      }
    }
  }

  /** What the query returns when `w` is the last qualifying record: its
      fields when its content is non-empty, the not-found shape otherwise. */
  function Expected(w: Option<Record>): (res: CssResult)
    ensures res.found <==> w.Some? && StrTruthy(w.value.data.content)
    ensures !res.found ==> res == NotFound
    ensures res.found ==> res.content == w.value.data.content && res.generatedAt == w.value.data.generatedAt
                          && res.recordId == Some(w.value.id)
    ensures res.found ==> res.classCount == OrInt(w.value.data.classCount, 0)
    ensures res.found && w.value.data.classCount.None? ==> res.classCount == 0
  {
    if w.Some? && StrTruthy(w.value.data.content) then
      CssResult(true, w.value.data.content, w.value.data.generatedAt,
                OrInt(w.value.data.classCount, 0), Some(w.value.id))
    else NotFound
  }

  /** The query's state. */
  class CssState {
    var cssContent: Option<string>
    var generatedAt: Option<Json>
    var classCount: int
    var recordId: Option<int>

    /** `initState`: no content, no timestamp, zero classes, no record. */
    constructor ()
      ensures cssContent == None && generatedAt == None && classCount == 0 && recordId == None
    {
      cssContent := None;
      generatedAt := None;
      classCount := 0;
      recordId := None;
    }

    /** The state holds what record `w` wrote, or the initial values when
        there is no such record. */
    ghost predicate WrittenBy(w: Option<Record>)
      reads this
    {
      match w
      case None => cssContent == None && generatedAt == None && classCount == 0 && recordId == None
      case Some(r) =>
        && cssContent == r.data.content && generatedAt == r.data.generatedAt
        && classCount == OrInt(r.data.classCount, 0) && recordId == Some(r.id)
    }

    /** `processRecord`: a qualifying record overwrites all four fields; any
        other record changes nothing. */
    method ProcessRecord(r: Record, params: CssInput)
      modifies this
      ensures Qualifies(r, params.configName) ==> WrittenBy(Some(r))
      ensures !Qualifies(r, params.configName) ==>
                cssContent == old(cssContent) && generatedAt == old(generatedAt)
                && classCount == old(classCount) && recordId == old(recordId)
    {
      if Qualifies(r, params.configName) {
        cssContent := r.data.content;
        generatedAt := r.data.generatedAt;
        classCount := OrInt(r.data.classCount, 0);
        recordId := Some(r.id);
      }
    }

    /** `getResult`: falsy content (absent or empty) gives the not-found
        shape; otherwise the state's fields pass through unchanged. */
    function GetResult(): (res: CssResult)
      reads this
      ensures res.found <==> StrTruthy(cssContent)
      ensures !res.found ==> res == NotFound
      ensures res.found ==> res.content == cssContent && res.generatedAt == generatedAt
                            && res.classCount == classCount && res.recordId == recordId
    {
      if !StrTruthy(cssContent) then NotFound
      else CssResult(true, cssContent, generatedAt, classCount, recordId)
    }

    /** The result computed from the state that record `w` left. */
    lemma ResultOfWriter(w: Option<Record>)
      requires WrittenBy(w)
      ensures GetResult() == Expected(w)
    {
    }
  }

  /** The whole query: fold every record in order, then `getResult`. The
      result depends only on the last qualifying record, so a later record
      with empty content hides an earlier one with CSS. */
  method Run(params: CssInput, records: seq<Record>) returns (res: CssResult)
    ensures res == Expected(LastQualifying(records, params.configName))
  {
    var state := new CssState();
    for i := 0 to |records|
      invariant state.WrittenBy(LastQualifying(records[..i], params.configName))
    {
      assert records[..i + 1][..i] == records[..i];
      state.ProcessRecord(records[i], params);
    }
    assert records[..|records|] == records;
    state.ResultOfWriter(LastQualifying(records, params.configName));
    res := state.GetResult();
  }

  /** A later qualifying record with empty content makes the result
      not-found, whatever came before it. */
  lemma EmptyLatestHides(rs: seq<Record>, r: Record, configName: string)
    requires Qualifies(r, configName) && !StrTruthy(r.data.content)
    ensures Expected(LastQualifying(rs + [r], configName)) == NotFound
  {
  }
}
