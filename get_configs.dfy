/** The configuration registry query: an upsert list of UnoCSS configurations
    keyed by name, where a later `create` or `update` record replaces the
    whole entry, returned sorted by name. */
module GetConfigs {
  import opened Json
  import opened Records
  import opened Sorting

  /** One stored configuration. The four collection fields always hold a
      value; the bookkeeping fields pass through as the record had them. */
  datatype Config = Config(
    name: string,
    presets: Json,
    theme: Json,
    rules: Json,
    shortcuts: Json,
    path: Option<Json>,
    createdAt: Option<Json>,
    createdBy: Option<Json>,
    updatedAt: Option<Json>,
    updatedBy: Option<Json>)

  datatype ConfigsResult = ConfigsResult(configs: seq<Config>, count: nat)

  /** The records the query takes into account. */
  predicate IsConfigWrite(r: Record) {
    r.kind == "uno-config" && (r.operation == "create" || r.operation == "update")
  }

  /** The entry a qualifying record stores, built from that record alone:
      `presets`, `theme`, `rules` and `shortcuts` fall back to `[]`, `{}`,
      `[]` and `{}` when the payload lacks them or holds a falsy value. */
  function MakeConfig(r: Record): (c: Config)
    ensures c.name == r.name
    ensures Truthy(c.presets) && Truthy(c.theme) && Truthy(c.rules) && Truthy(c.shortcuts)
    ensures r.data.presets.Some? && Truthy(r.data.presets.value) ==> c.presets == r.data.presets.value
    ensures !(r.data.presets.Some? && Truthy(r.data.presets.value)) ==> c.presets == JArr([])
    ensures r.data.theme.Some? && Truthy(r.data.theme.value) ==> c.theme == r.data.theme.value
    ensures !(r.data.theme.Some? && Truthy(r.data.theme.value)) ==> c.theme == JObj(map[])
    ensures r.data.rules.Some? && Truthy(r.data.rules.value) ==> c.rules == r.data.rules.value
    ensures !(r.data.rules.Some? && Truthy(r.data.rules.value)) ==> c.rules == JArr([])
    ensures r.data.shortcuts.Some? && Truthy(r.data.shortcuts.value) ==> c.shortcuts == r.data.shortcuts.value
    ensures !(r.data.shortcuts.Some? && Truthy(r.data.shortcuts.value)) ==> c.shortcuts == JObj(map[])
    ensures c.path == r.data.path && c.createdAt == r.data.createdAt && c.createdBy == r.data.createdBy
    ensures c.updatedAt == r.data.updatedAt && c.updatedBy == r.data.updatedBy
  {
    Config(
      r.name,
      Or(r.data.presets, JArr([])),
      Or(r.data.theme, JObj(map[])),
      Or(r.data.rules, JArr([])),
      Or(r.data.shortcuts, JObj(map[])),
      r.data.path, r.data.createdAt, r.data.createdBy, r.data.updatedAt, r.data.updatedBy)
  }

  /** `findIndex(c => c.name === name)`: the first index holding `name`, or -1. */
  function IndexOfName(cs: seq<Config>, name: string): (i: int)
    ensures -1 <= i < |cs|
    ensures 0 <= i ==> cs[i].name == name
    ensures forall j :: 0 <= j < |cs| && (i < 0 || j < i) ==> cs[j].name != name
    decreases |cs|
  {
    if cs == [] then -1
    else if cs[|cs| - 1].name == name && IndexOfName(cs[..|cs| - 1], name) < 0 then |cs| - 1
    else IndexOfName(cs[..|cs| - 1], name)
  }

  /** Replace the entry with `c`'s name, or append `c` when there is none:
      the list grows by one exactly when the name is new, `c` is stored, and
      the set of names gains `c`'s name and loses none. */
  function Upsert(cs: seq<Config>, c: Config): (u: seq<Config>)
    ensures |u| == |cs| + (if c.name in Names(cs) then 0 else 1)
    ensures c in u
    ensures Names(u) == Names(cs) + {c.name}
  {
    var i := IndexOfName(cs, c.name);
    if 0 <= i then
      ReplaceNames(cs, i, c);
      cs[i := c]
    else
      assert c.name !in Names(cs);
      cs + [c]
  }

  /** Overwriting an entry with one of the same name keeps the set of names. */
  lemma ReplaceNames(cs: seq<Config>, i: nat, c: Config)
    requires i < |cs| && cs[i].name == c.name
    ensures c in cs[i := c]
    ensures Names(cs[i := c]) == Names(cs) + {c.name}
  {
    var u := cs[i := c];
    assert u[i] == c;
    forall n ensures n in Names(u) <==> n in Names(cs) + {c.name} {
      if n in Names(u) {
        var x :| x in u && x.name == n;
        var j :| 0 <= j < |u| && u[j] == x;
        if j != i {
          assert cs[j] == x;
        }
      }
      if n in Names(cs) {
        var x :| x in cs && x.name == n;
        var j :| 0 <= j < |cs| && cs[j] == x;
        if j != i {
          assert u[j] == x;
        }
      }
    }
  }

  /** One `processRecord` step on the configuration list. */
  function Apply(cs: seq<Config>, r: Record): seq<Config> {
    if IsConfigWrite(r) then Upsert(cs, MakeConfig(r)) else cs
  }

  /** The configuration list after folding `rs` from the empty list. */
  function ConfigsOf(rs: seq<Record>): seq<Config>
    decreases |rs|
  {
    if rs == [] then [] else Apply(ConfigsOf(rs[..|rs| - 1]), rs[|rs| - 1])
  }

  function Names(cs: seq<Config>): set<string> {
    set c | c in cs :: c.name
  }

  /** No two entries share a name. */
  ghost predicate UniqueNames(cs: seq<Config>) {
    forall i, j :: 0 <= i < j < |cs| ==> cs[i].name != cs[j].name
  }

  /** The names of the qualifying records of `rs`. */
  function WrittenNames(rs: seq<Record>): set<string> {
    set r | r in rs && IsConfigWrite(r) :: r.name
  }

  /** `r` is a qualifying record for the given name. */
  predicate WritesName(r: Record, name: string) {
    IsConfigWrite(r) && r.name == name
  }

  /** The last qualifying record of `rs` with the given name. */
  function LastWrite(rs: seq<Record>, name: string): (w: Option<Record>)
    ensures w.Some? ==> w.value in rs && IsConfigWrite(w.value) && w.value.name == name
    decreases |rs|
  {
    if rs == [] then None
    else if WritesName(rs[|rs| - 1], name) then Some(rs[|rs| - 1])
    else LastWrite(rs[..|rs| - 1], name)
  }

  /** `LastWrite` finds the qualifying record with that name that comes
      latest in the log, and finds none exactly when no qualifying record has
      that name. */
  lemma {:induction false} LastWriteIsLast(rs: seq<Record>, name: string)
    ensures LastWrite(rs, name).None? <==>
              forall j :: 0 <= j < |rs| ==> !WritesName(rs[j], name)
    ensures LastWrite(rs, name).Some? ==>
              exists k :: 0 <= k < |rs| && rs[k] == LastWrite(rs, name).value
                       && forall j :: k < j < |rs| ==> !WritesName(rs[j], name)
    decreases |rs|
  {
    if rs != [] {
      var init := rs[..|rs| - 1];
      LastWriteIsLast(init, name);
      if !WritesName(rs[|rs| - 1], name) {
        if LastWrite(init, name).Some? {
          var k :| 0 <= k < |init| && init[k] == LastWrite(init, name).value
                   && forall j :: k < j < |init| ==> !WritesName(init[j], name);
          assert rs[k] == init[k];
        }
        assert forall j :: 0 <= j < |init| ==> rs[j] == init[j];
      } else {
        assert rs[|rs| - 1] == LastWrite(rs, name).value;
      }
    }
  }

  function NameKey(c: Config): SortKey {
    SortKey(0, c.name)
  }

  /** With distinct names, an upsert of an existing name replaces that entry
      at its own index and leaves every other entry where it was. */
  lemma UpsertReplaces(cs: seq<Config>, c: Config)
    requires UniqueNames(cs) && c.name in Names(cs)
    ensures |Upsert(cs, c)| == |cs|
    ensures forall j :: 0 <= j < |cs| ==>
              Upsert(cs, c)[j] == (if cs[j].name == c.name then c else cs[j])
  {
    var i := IndexOfName(cs, c.name);
    var x :| x in cs && x.name == c.name;
  }

  /** An upsert of a new name appends exactly one entry at the end. */
  lemma UpsertAppends(cs: seq<Config>, c: Config)
    requires c.name !in Names(cs)
    ensures Upsert(cs, c) == cs + [c]
  {
    if IndexOfName(cs, c.name) >= 0 {
      assert cs[IndexOfName(cs, c.name)] in cs;
    }
  }

  /** With distinct names, after an upsert the entries are `c` and the old
      entries with other names. */
  lemma UpsertMembers(cs: seq<Config>, c: Config)
    requires UniqueNames(cs)
    ensures UniqueNames(Upsert(cs, c))
    ensures Names(Upsert(cs, c)) == Names(cs) + {c.name}
    ensures forall x :: x in Upsert(cs, c) <==> x == c || (x in cs && x.name != c.name)
  {
    var u := Upsert(cs, c);
    if c.name in Names(cs) {
      UpsertReplaces(cs, c);
      var i :| 0 <= i < |cs| && cs[i].name == c.name;
      assert u[i] == c;
      forall x ensures x in u <==> x == c || (x in cs && x.name != c.name) {
        if x in cs && x.name != c.name {
          var j :| 0 <= j < |cs| && cs[j] == x;
          assert u[j] == x;
        }
      }
    } else {
      UpsertAppends(cs, c);
      assert u[|cs|] == c;
    }
  }

  /** The fold keeps names distinct and holds exactly the names written. */
  lemma {:induction false} ConfigsOfNames(rs: seq<Record>)
    ensures UniqueNames(ConfigsOf(rs))
    ensures Names(ConfigsOf(rs)) == WrittenNames(rs)
    decreases |rs|
  {
    if rs != [] {
      var init := rs[..|rs| - 1];
      var r := rs[|rs| - 1];
      ConfigsOfNames(init);
      assert rs == init + [r];
      if IsConfigWrite(r) {
        UpsertMembers(ConfigsOf(init), MakeConfig(r));
      }
      assert WrittenNames(rs) == WrittenNames(init) + (if IsConfigWrite(r) then {r.name} else {});
    }
  }

  /** Distinct names: one name per entry. */
  lemma {:induction false} UniqueNamesCount(cs: seq<Config>)
    requires UniqueNames(cs)
    ensures |Names(cs)| == |cs|
    decreases |cs|
  {
    if cs != [] {
      var init := cs[..|cs| - 1];
      UniqueNamesCount(init);
      assert cs == init + [cs[|cs| - 1]];
      assert Names(cs) == Names(init) + {cs[|cs| - 1].name};
      assert cs[|cs| - 1].name !in Names(init);
    }
  }

  /** The number of entries is the number of distinct names written. */
  lemma ConfigsOfCount(rs: seq<Record>)
    ensures |ConfigsOf(rs)| == |WrittenNames(rs)|
  {
    ConfigsOfNames(rs);
    UniqueNamesCount(ConfigsOf(rs));
  }

  /** Whole replacement: an entry is in the list exactly when it is the entry
      built from the last qualifying record with its name, with nothing
      merged from earlier records. */
  lemma {:induction false} ConfigsOfLatest(rs: seq<Record>)
    ensures forall c :: c in ConfigsOf(rs) <==>
              LastWrite(rs, c.name).Some? && c == MakeConfig(LastWrite(rs, c.name).value)
    decreases |rs|
  {
    if rs != [] {
      var init := rs[..|rs| - 1];
      var r := rs[|rs| - 1];
      ConfigsOfLatest(init);
      ConfigsOfNames(init);
      if IsConfigWrite(r) {
        UpsertMembers(ConfigsOf(init), MakeConfig(r));
      }
    }
  }

  /** The query's state. */
  class ConfigState {
    var configs: seq<Config>

    /** `initState`: no configurations. */
    constructor ()
      ensures configs == []
    {
      configs := [];
    }

    /** `processRecord`: a qualifying record replaces the entry with its name
        in place, or is appended; any other record changes nothing. */
    method ProcessRecord(r: Record)
      modifies this
      ensures !IsConfigWrite(r) ==> configs == old(configs)
      ensures IsConfigWrite(r) ==> configs == Upsert(old(configs), MakeConfig(r))
    {
      if IsConfigWrite(r) {
        var existing := -1;
        var i := 0;
        while i < |configs| && existing < 0
          invariant 0 <= i <= |configs|
          invariant existing < 0 ==> forall j :: 0 <= j < i ==> configs[j].name != r.name
          invariant 0 <= existing ==> existing == i - 1 && configs[existing].name == r.name
                                      && forall j :: 0 <= j < existing ==> configs[j].name != r.name
        {
          if configs[i].name == r.name {
            existing := i;
          }
          i := i + 1;
        }
        assert existing == IndexOfName(configs, r.name);
        var config := MakeConfig(r);
        if existing >= 0 {
          configs := configs[existing := config];
        } else {
          configs := configs + [config];
        }
      }
    }

    /** `getResult`: sorts the list by name in place and returns it with its
        length. */
    method GetResult() returns (res: ConfigsResult)
      modifies this
      ensures SortedBy(res.configs, NameKey)
      ensures multiset(res.configs) == multiset(old(configs))
      ensures res.count == |res.configs|
      ensures configs == res.configs
    {
      configs := SortBy(configs, NameKey);
      res := ConfigsResult(configs, |configs|);
    }
  }

  /** The whole query: fold every record in order, then `getResult`. The
      result lists, in name order, one entry per distinct name written, each
      built from the last qualifying record with that name. */
  method Run(records: seq<Record>) returns (res: ConfigsResult)
    ensures SortedBy(res.configs, NameKey) && UniqueNames(res.configs)
    ensures multiset(res.configs) == multiset(ConfigsOf(records))
    ensures res.count == |res.configs| == |WrittenNames(records)|
    ensures forall c :: c in res.configs <==>
              LastWrite(records, c.name).Some? && c == MakeConfig(LastWrite(records, c.name).value)
  {
    var state := new ConfigState();
    for i := 0 to |records|
      invariant state.configs == ConfigsOf(records[..i])
    {
      assert records[..i + 1][..i] == records[..i];
      state.ProcessRecord(records[i]);
    }
    assert records[..|records|] == records;
    res := state.GetResult();
    ConfigsOfNames(records);
    ConfigsOfCount(records);
    ConfigsOfLatest(records);
    forall c ensures c in res.configs <==> c in ConfigsOf(records) {
      assert c in res.configs <==> c in multiset(res.configs);
    }
    assert Names(res.configs) == Names(ConfigsOf(records));
    assert |res.configs| == |ConfigsOf(records)| by {
      assert |multiset(res.configs)| == |multiset(ConfigsOf(records))|;
    }
    UniqueNamesCount(ConfigsOf(records));
    CountedNamesUnique(res.configs);
  }

  /** A list never has more names than entries. */
  lemma {:induction false} NamesBound(cs: seq<Config>)
    ensures |Names(cs)| <= |cs|
    decreases |cs|
  {
    if cs != [] {
      var init := cs[..|cs| - 1];
      NamesBound(init);
      assert cs == init + [cs[|cs| - 1]];
      assert Names(cs) == Names(init) + {cs[|cs| - 1].name};
    }
  }

  /** As many names as entries means no name repeats. */
  lemma CountedNamesUnique(cs: seq<Config>)
    requires |Names(cs)| == |cs|
    ensures UniqueNames(cs)
  {
    forall i, j | 0 <= i < j < |cs| ensures cs[i].name != cs[j].name {
      if cs[i].name == cs[j].name {
        var d := cs[..j] + cs[j + 1..];
        assert Names(d) == Names(cs) by {
          assert cs == cs[..j] + [cs[j]] + cs[j + 1..];
          assert cs[i] == d[i];
        }
        NamesBound(d);
        assert false;
      }
    }
  }
}
