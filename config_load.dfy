/**
 * `load_config` (src/main.rs): turning the parsed configuration table into
 * styles. The TOML text has already been parsed; the loader receives the
 * top-level table as the parser's map iterates it.
 */
module ConfigLoad {
  import opened Wrappers
  import opened Decimal
  import opened Styles

  /** A TOML value, as far as the loader tells kinds apart. */
  datatype TomlValue =
    | Table(entries: seq<(string, TomlValue)>)
    | Integer(i: i64)
    | Str(s: string)
    | OtherValue  // float, boolean, datetime or array

  /** The key under which a section holds its style id. */
  const IdKey := "id"

  function NotTableError(name: string): string {
    "Unable to parse '" + name + "' as table."
  }

  function IdNotIntegerError(name: string): string {
    "ID in style '" + name + "' is not an integer."
  }

  function SettingNotStringError(key: string, name: string): string {
    "Setting '" + key + "' in style '" + name + "' is not a string."
  }

  function MissingIdError(name: string): string {
    "Missing 'id' field in style " + name + "."
  }

  /** An entry the loader refuses: an `id` that is not an integer, or another key whose value is not a string. */
  predicate BadEntry(e: (string, TomlValue)) {
    if e.0 == IdKey then !e.1.Integer? else !e.1.Str?
  }

  /** The message the loader gives for a refused entry of section `name`. */
  function EntryError(name: string, e: (string, TomlValue)): string {
    if e.0 == IdKey then IdNotIntegerError(name) else SettingNotStringError(e.0, name)
  }

  predicate NoBadEntry(es: seq<(string, TomlValue)>) {
    forall k :: 0 <= k < |es| ==> !BadEntry(es[k])
  }

  /** `k` is the first refused entry of `es`. */
  predicate FirstBad(es: seq<(string, TomlValue)>, k: int) {
    0 <= k < |es| && BadEntry(es[k]) && NoBadEntry(es[..k])
  }

  /** `id` is what the section says the style id is: the value of its last `id` entry, or the sentinel when it has none. */
  predicate IdIs(es: seq<(string, TomlValue)>, id: i64) {
    || (exists k :: 0 <= k < |es| && es[k] == (IdKey, Integer(id)) &&
          forall j :: k < j < |es| ==> es[j].0 != IdKey)
    || (id == UnsetId && forall k :: 0 <= k < |es| ==> es[k].0 != IdKey)
  }

  /** The settings a well-typed section stands for: its non-`id` entries, in order, with empty comments. */
  function NonIdSettings(es: seq<(string, TomlValue)>): seq<Setting>
    requires NoBadEntry(es)
  {
    if |es| == 0 then []
    else
      var head := if es[0].0 == IdKey then [] else [Setting(es[0].0, es[0].1.s, "")];
      head + NonIdSettings(es[1..])
  }

  /**
   * The id and settings after the loader's inner loop has read the first
   * entries of section `name`, or the error of the entry that stopped it.
   */
  function ScanSection(name: string, es: seq<(string, TomlValue)>): Result<(i64, seq<Setting>), string> {
    if |es| == 0 then Success((UnsetId, []))
    else
      match ScanSection(name, es[..|es| - 1])
      case Failure(e) => Failure(e)
      case Success((id, settings)) =>
        var (key, val) := es[|es| - 1];
        if key == IdKey then
          if val.Integer? then Success((val.i, settings)) else Failure(IdNotIntegerError(name))
        else if val.Str? then Success((id, settings + [Setting(key, val.s, "")]))
        else Failure(SettingNotStringError(key, name))
  }

  /** One section turned into a style, or the reason it cannot be. */
  function DecodeStyle(name: string, v: TomlValue): Result<StyleRecord, string> {
    if !v.Table? then Failure(NotTableError(name))
    else
      match ScanSection(name, v.entries)
      case Failure(e) => Failure(e)
      case Success((id, settings)) =>
        if id == UnsetId then Failure(MissingIdError(name))
        else Success(StyleRecord(id, name, settings))
  }

  /** The styles of a whole configuration table, stopping at the first section that fails. */
  function DecodeConfig(table: seq<(string, TomlValue)>): Result<seq<StyleRecord>, string> {
    if |table| == 0 then Success([])
    else
      match DecodeConfig(table[..|table| - 1])
      case Failure(e) => Failure(e)
      case Success(styles) =>
        match DecodeStyle(table[|table| - 1].0, table[|table| - 1].1)
        case Failure(e) => Failure(e)
        case Success(style) => Success(styles + [style])
  }

  lemma {:induction false} NonIdSettingsAppend(es: seq<(string, TomlValue)>, e: (string, TomlValue))
    requires NoBadEntry(es) && !BadEntry(e)
    ensures NoBadEntry(es + [e])
    ensures NonIdSettings(es + [e]) ==
      NonIdSettings(es) + (if e.0 == IdKey then [] else [Setting(e.0, e.1.s, "")])
  {
    if |es| > 0 {
      assert (es + [e])[1..] == es[1..] + [e];
      NonIdSettingsAppend(es[1..], e);
    }
  }

  /**
   * The inner loop of `load_config`: it fails exactly when some entry has the
   * wrong kind, naming the first such entry; otherwise every non-`id` entry
   * becomes one setting, in order, and the id is the section's last `id`.
   */
  lemma {:induction false} ScanSectionSpec(name: string, es: seq<(string, TomlValue)>)
    ensures ScanSection(name, es).Success? <==> NoBadEntry(es)
    ensures ScanSection(name, es).Failure? ==>
      exists k :: FirstBad(es, k) && ScanSection(name, es).error == EntryError(name, es[k])
    ensures ScanSection(name, es).Success? ==>
      var (id, settings) := ScanSection(name, es).value;
      IdIs(es, id) && settings == NonIdSettings(es)
  {
    if |es| > 0 {
      var init, e := es[..|es| - 1], es[|es| - 1];
      assert es == init + [e];
      ScanSectionSpec(name, init);
      if ScanSection(name, init).Failure? {
        var k :| FirstBad(init, k) && ScanSection(name, init).error == EntryError(name, init[k]);
        FirstBadExtends(init, e, k);
      } else if BadEntry(e) {
        FirstBadLast(init, e);
      } else {
        NonIdSettingsAppend(init, e);
        IdIsExtends(init, e, ScanSection(name, init).value.0);
      }
    }
  }

  lemma FirstBadExtends(es: seq<(string, TomlValue)>, e: (string, TomlValue), k: int)
    requires FirstBad(es, k)
    ensures FirstBad(es + [e], k) && (es + [e])[k] == es[k]
  {
    assert (es + [e])[..k] == es[..k];
  }

  lemma FirstBadLast(es: seq<(string, TomlValue)>, e: (string, TomlValue))
    requires NoBadEntry(es) && BadEntry(e)
    ensures FirstBad(es + [e], |es|) && !NoBadEntry(es + [e])
  {
    assert (es + [e])[..|es|] == es;
  }

  /** A later `id` entry overrides the id; any other entry keeps it. */
  lemma IdIsExtends(es: seq<(string, TomlValue)>, e: (string, TomlValue), id: i64)
    requires IdIs(es, id) && !BadEntry(e)
    ensures IdIs(es + [e], if e.0 == IdKey then e.1.i else id)
  {
    var es' := es + [e];
    if e.0 == IdKey {
      assert es'[|es|] == (IdKey, Integer(e.1.i));
    } else if exists k :: 0 <= k < |es| && es[k] == (IdKey, Integer(id)) && forall j :: k < j < |es| ==> es[j].0 != IdKey {
      var k :| 0 <= k < |es| && es[k] == (IdKey, Integer(id)) && forall j :: k < j < |es| ==> es[j].0 != IdKey;
      assert es'[k] == (IdKey, Integer(id));
    } else {
      assert forall k :: 0 <= k < |es| ==> es'[k] == es[k];
    }
  }

  lemma IdIsUnique(es: seq<(string, TomlValue)>, a: i64, b: i64)
    requires IdIs(es, a) && IdIs(es, b)
    ensures a == b
  {
    if exists k :: 0 <= k < |es| && es[k] == (IdKey, Integer(a)) && forall j :: k < j < |es| ==> es[j].0 != IdKey {
      var k :| 0 <= k < |es| && es[k] == (IdKey, Integer(a)) && forall j :: k < j < |es| ==> es[j].0 != IdKey;
      var m :| 0 <= m < |es| && es[m] == (IdKey, Integer(b)) && forall j :: m < j < |es| ==> es[j].0 != IdKey;
      assert k == m;
    }
  }

  /**
   * One section of `load_config`: a non-table fails first; then the first
   * wrongly typed entry; then a section whose id is still the sentinel
   * (missing, or written as -1). Otherwise the style carries the section
   * name, its id and its non-`id` entries as settings.
   */
  lemma DecodeStyleSpec(name: string, v: TomlValue)
    ensures !v.Table? ==> DecodeStyle(name, v) == Failure(NotTableError(name))
    ensures v.Table? && !NoBadEntry(v.entries) ==>
      exists k :: FirstBad(v.entries, k) && DecodeStyle(name, v) == Failure(EntryError(name, v.entries[k]))
    ensures v.Table? && NoBadEntry(v.entries) && IdIs(v.entries, UnsetId) ==>
      DecodeStyle(name, v) == Failure(MissingIdError(name))
    ensures DecodeStyle(name, v).Success? <==> v.Table? && NoBadEntry(v.entries) && !IdIs(v.entries, UnsetId)
    ensures DecodeStyle(name, v).Success? ==>
      var r := DecodeStyle(name, v).value;
      r.name == name && r.id != UnsetId && IdIs(v.entries, r.id) && r.settings == NonIdSettings(v.entries)
  {
    if v.Table? {
      ScanSectionSpec(name, v.entries);
      if NoBadEntry(v.entries) {
        var (id, settings) := ScanSection(name, v.entries).value;
        if IdIs(v.entries, UnsetId) {
          IdIsUnique(v.entries, id, UnsetId);
        }
      }
    }
  }

  /**
   * The whole configuration: it loads exactly when every section does, one
   * style per section in table order; otherwise the error is that of the
   * first section that fails.
   */
  lemma {:induction false} DecodeConfigSpec(table: seq<(string, TomlValue)>)
    ensures DecodeConfig(table).Success? <==>
      forall i :: 0 <= i < |table| ==> DecodeStyle(table[i].0, table[i].1).Success?
    ensures DecodeConfig(table).Success? ==>
      |DecodeConfig(table).value| == |table| &&
      forall i :: 0 <= i < |table| ==> DecodeConfig(table).value[i] == DecodeStyle(table[i].0, table[i].1).value
    ensures DecodeConfig(table).Failure? ==>
      exists k :: 0 <= k < |table| && DecodeStyle(table[k].0, table[k].1).Failure? &&
        (forall i :: 0 <= i < k ==> DecodeStyle(table[i].0, table[i].1).Success?) &&
        DecodeConfig(table).error == DecodeStyle(table[k].0, table[k].1).error
  {
    if |table| > 0 {
      var init := table[..|table| - 1];
      assert table == init + [table[|table| - 1]];
      DecodeConfigSnoc(init, table[|table| - 1]);
      DecodeConfigSpec(init);
    }
  }

  /** Every style `load_config` returns has its id set and the name of its section. */
  lemma DecodedStylesHaveIds(table: seq<(string, TomlValue)>)
    requires DecodeConfig(table).Success?
    ensures |DecodeConfig(table).value| == |table|
    ensures forall i :: 0 <= i < |table| ==>
      DecodeConfig(table).value[i].id != UnsetId && DecodeConfig(table).value[i].name == table[i].0
  {
    DecodeConfigSpec(table);
    forall i | 0 <= i < |table|
      ensures DecodeConfig(table).value[i].id != UnsetId && DecodeConfig(table).value[i].name == table[i].0
    {
      DecodeStyleSpec(table[i].0, table[i].1);
    }
  }

  /** Once an entry of a section is refused, the entries after it do not matter: the loader has returned. */
  lemma {:induction false} ScanSectionPrefixFails(name: string, es: seq<(string, TomlValue)>, m: nat)
    requires m <= |es| && ScanSection(name, es[..m]).Failure?
    ensures ScanSection(name, es) == ScanSection(name, es[..m])
    decreases |es|
  {
    if m < |es| {
      assert es[..|es| - 1][..m] == es[..m];
      ScanSectionPrefixFails(name, es[..|es| - 1], m);
    } else {
      assert es[..m] == es;
    }
  }

  /** Once a section fails, the sections after it do not matter: the loader has returned. */
  lemma {:induction false} DecodeConfigPrefixFails(table: seq<(string, TomlValue)>, m: nat)
    requires m <= |table| && DecodeConfig(table[..m]).Failure?
    ensures DecodeConfig(table) == DecodeConfig(table[..m])
    decreases |table|
  {
    if m < |table| {
      assert table[..|table| - 1][..m] == table[..m];
      DecodeConfigPrefixFails(table[..|table| - 1], m);
    } else {
      assert table[..m] == table;
    }
  }

  /**
   * The inner loop of `load_config`: reads the entries of section `name` into
   * `style`, assigning the id and pushing one setting per other key, and
   * stops at the first entry of the wrong kind with its message.
   */
  method ReadSection(style: Style, name: string, entries: seq<(string, TomlValue)>) returns (err: Option<string>)
    requires style.id == UnsetId && style.settings == []
    modifies style
    ensures style.name == old(style.name)
    ensures err.None? <==> ScanSection(name, entries).Success?
    ensures err.Some? ==> err.value == ScanSection(name, entries).error
    ensures err.None? ==> ScanSection(name, entries).value == (style.id, style.settings)
  {
    var k := 0;
    while k < |entries|
      invariant 0 <= k <= |entries|
      invariant style.name == old(style.name)
      invariant ScanSection(name, entries[..k]) == Success((style.id, style.settings))
    {
      assert entries[..k + 1][..k] == entries[..k];
      var (key, val) := entries[k];
      if key == IdKey {
        if !val.Integer? {
          ScanSectionPrefixFails(name, entries, k + 1);
          return Some(IdNotIntegerError(name));
        }
        style.id := val.i;
      } else {
        if !val.Str? {
          ScanSectionPrefixFails(name, entries, k + 1);
          return Some(SettingNotStringError(key, name));
        }
        style.settings := style.settings + [Setting(key, val.s, "")];
      }
      k := k + 1;
    }
    assert entries[..k] == entries;
    return None;
  }

  /**
   * `load_config` after parsing: one fresh `Style` per section, or the first
   * error met.
   */
  method LoadConfig(table: seq<(string, TomlValue)>) returns (r: Result<seq<Style>, string>)
    ensures r.Success? <==> DecodeConfig(table).Success?
    ensures r.Failure? ==> r.error == DecodeConfig(table).error
    ensures r.Success? ==> Records(r.value) == DecodeConfig(table).value
    ensures r.Success? ==> forall i :: 0 <= i < |r.value| ==> fresh(r.value[i])
    ensures r.Success? ==> forall i, j :: 0 <= i < j < |r.value| ==> r.value[i] != r.value[j]
  {
    var styles: seq<Style> := [];
    var n := 0;
    while n < |table|
      invariant 0 <= n <= |table|
      invariant DecodeConfig(table[..n]) == Success(Records(styles))
      invariant forall i :: 0 <= i < |styles| ==> fresh(styles[i])
      invariant forall i, j :: 0 <= i < j < |styles| ==> styles[i] != styles[j]
    {
      ghost var done := Records(styles);
      var style := LoadStyle(table[n].0, table[n].1);
      if style.Failure? {
        DecodeConfigStopsAt(table, n);
        return Failure(style.error);
      }
      assert Records(styles) == done && style.value !in styles;
      DecodeConfigStep(table, n, style.value.Record());
      var styles' := styles + [style.value];
      assert styles'[..|styles|] == styles;
      styles := styles';
      n := n + 1;
    }
    assert table[..n] == table;
    return Success(styles);
  }

  /**
   * One pass of the outer loop of `load_config`: a fresh `Style` for section
   * `name`, or the error that stops the load.
   */
  method LoadStyle(name: string, v: TomlValue) returns (r: Result<Style, string>)
    ensures r.Success? <==> DecodeStyle(name, v).Success?
    ensures r.Failure? ==> r.error == DecodeStyle(name, v).error
    ensures r.Success? ==> fresh(r.value) && r.value.Record() == DecodeStyle(name, v).value
  {
    if !v.Table? {
      return Failure(NotTableError(name));
    }
    var style := new Style(name);
    var err := ReadSection(style, name, v.entries);
    if err.Some? {
      return Failure(err.value);
    }
    if style.id == UnsetId {
      return Failure(MissingIdError(name));
    }
    return Success(style);
  }

  /** How one more section changes the decoded table. */
  lemma DecodeConfigSnoc(init: seq<(string, TomlValue)>, t: (string, TomlValue))
    ensures var d := DecodeStyle(t.0, t.1);
      DecodeConfig(init + [t]) ==
        if DecodeConfig(init).Failure? then DecodeConfig(init)
        else if d.Failure? then Failure(d.error)
        else Success(DecodeConfig(init).value + [d.value])
  {
    assert (init + [t])[..|init|] == init;
  }

  /** One more decoded section extends the decoded prefix by its style. */
  lemma DecodeConfigStep(table: seq<(string, TomlValue)>, n: nat, r: StyleRecord)
    requires n < |table| && DecodeConfig(table[..n]).Success?
    requires DecodeStyle(table[n].0, table[n].1) == Success(r)
    ensures DecodeConfig(table[..n + 1]) == Success(DecodeConfig(table[..n]).value + [r])
  {
    assert table[..n + 1] == table[..n] + [table[n]];
    DecodeConfigSnoc(table[..n], table[n]);
  }

  /** The first section that fails decides the error of the whole table. */
  lemma {:induction false} DecodeConfigStopsAt(table: seq<(string, TomlValue)>, n: nat)
    requires n < |table| && DecodeConfig(table[..n]).Success?
    requires DecodeStyle(table[n].0, table[n].1).Failure?
    ensures DecodeConfig(table) == Failure(DecodeStyle(table[n].0, table[n].1).error)
    decreases |table|
  {
    var init, last := table[..|table| - 1], table[|table| - 1];
    assert table == init + [last];
    DecodeConfigSnoc(init, last);
    if n < |init| {
      assert init[..n] == table[..n] && init[n] == table[n];
      DecodeConfigStopsAt(init, n);
    } else {
      assert init == table[..n];
    }
  }

  /** A section holding only its id yields a style without settings. */
  lemma OnlyIdSection()
    ensures DecodeConfig([("style", Table([(IdKey, Integer(13))]))]) == Success([StyleRecord(13, "style", [])])
  {
    var es := [(IdKey, Integer(13))];
    assert es[..0] == [];
    assert ScanSection("style", es) == Success((13, []));
    var table := [("style", Table(es))];
    assert table[..0] == [];
    var style := StyleRecord(13, "style", []);
    assert DecodeStyle("style", Table(es)) == Success(style);
    assert [] + [style] == [style];
  }

  /** A top-level key that is not a section is refused (the Rust test `with_style_not_table__is_a_parse_table_error`, src/tests/load_config.rs). */
  lemma NotTableExample()
    ensures DecodeConfig([("key", Str("val"))]) == Failure("Unable to parse 'key' as table.")
  {
    var t := [("key", Str("val"))];
    assert t[..0] == [];
    assert DecodeStyle("key", Str("val")) == Failure(NotTableError("key"));
    assert NotTableError("key") == "Unable to parse 'key' as table.";
  }

  /** An `id` written as a string is refused (the Rust test `with_id_string__is_id_not_integer_error`, src/tests/load_config.rs). */
  lemma IdNotIntegerExample()
    ensures DecodeConfig([("style", Table([(IdKey, Str("test"))]))]) == Failure("ID in style 'style' is not an integer.")
  {
    var es := [(IdKey, Str("test"))];
    assert es[..0] == [];
    assert ScanSection("style", es) == Failure(IdNotIntegerError("style"));
    var t := [("style", Table(es))];
    assert t[..0] == [];
    assert DecodeStyle("style", Table(es)) == Failure(IdNotIntegerError("style"));
    assert IdNotIntegerError("style") == "ID in style 'style' is not an integer.";
  }

  /** A setting written as an integer is refused (the Rust test `with_integer_setting__is_setting_not_string_error`, src/tests/load_config.rs). */
  lemma SettingNotStringExample()
    ensures DecodeConfig([("style", Table([("foobar", Integer(13))]))]) ==
      Failure("Setting 'foobar' in style 'style' is not a string.")
  {
    var es := [("foobar", Integer(13))];
    assert es[..0] == [];
    assert ScanSection("style", es) == Failure(SettingNotStringError("foobar", "style"));
    var t := [("style", Table(es))];
    assert t[..0] == [];
    assert DecodeStyle("style", Table(es)) == Failure(SettingNotStringError("foobar", "style"));
    assert "Setting '" + "foobar" == "Setting 'foobar";
    assert "Setting 'foobar" + "' in style '" == "Setting 'foobar' in style '";
    assert "Setting 'foobar' in style '" + "style" == "Setting 'foobar' in style 'style";
    assert "Setting 'foobar' in style 'style" + "' is not a string." == "Setting 'foobar' in style 'style' is not a string.";
  }

  /** A section without an `id` is refused (the Rust test `with_style_missing_id__is_missing_id_error`, src/tests/load_config.rs). */
  lemma MissingIdExample()
    ensures DecodeConfig([("style", Table([("foobar", Str("setting"))]))]) == Failure("Missing 'id' field in style style.")
  {
    var es := [("foobar", Str("setting"))];
    assert es[..0] == [];
    assert "foobar" != IdKey;
    var settings: seq<Setting> := [];
    assert settings + [Setting("foobar", "setting", "")] == [Setting("foobar", "setting", "")];
    assert ScanSection("style", es) == Success((UnsetId, [Setting("foobar", "setting", "")]));
    var t := [("style", Table(es))];
    assert t[..0] == [];
    assert DecodeStyle("style", Table(es)) == Failure(MissingIdError("style"));
    assert MissingIdError("style") == "Missing 'id' field in style style.";
  }
}
