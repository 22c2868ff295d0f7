/**
 * `save_style_settings` (src/main.rs): the text written back to the
 * configuration file. Writing the file is not part of this model.
 */
module ConfigSave {
  import opened Wrappers
  import opened Decimal
  import opened Text
  import opened Styles

  /** The section header of a style. */
  function HeaderLine(r: StyleRecord): string {
    "[" + r.name + "]"
  }

  function IdLine(r: StyleRecord): string {
    "id = " + IntToString(r.id as int)
  }

  /** A setting as a line: its value quoted but not escaped, its comment appended verbatim. */
  function SettingLine(st: Setting): string {
    st.key + " = \"" + st.val + "\"" + st.comment
  }

  /** The setting lines of a style, in order. */
  function SettingLines(ss: seq<Setting>): seq<string> {
    seq(|ss|, i requires 0 <= i < |ss| => SettingLine(ss[i]))
  }

  /** The lines written for one style: header, id, then one line per setting. */
  function StyleLines(r: StyleRecord): seq<string> {
    [HeaderLine(r), IdLine(r)] + SettingLines(r.settings)
  }

  /** The lines written for a list of styles, style after style. */
  function Lines(rs: seq<StyleRecord>): seq<string> {
    if |rs| == 0 then [] else Lines(rs[..|rs| - 1]) + StyleLines(rs[|rs| - 1])
  }

  /** The text the inner loop appends for the settings of a style. */
  function SettingsText(ss: seq<Setting>): string {
    if |ss| == 0 then "" else SettingsText(ss[..|ss| - 1]) + SettingLine(ss[|ss| - 1]) + "\n"
  }

  /** The header and id lines the outer loop writes for a style. */
  function StyleHeader(r: StyleRecord): string {
    "[" + r.name + "]\nid = " + IntToString(r.id as int) + "\n"
  }

  /** The text the outer loop appends for one style. */
  function StyleText(r: StyleRecord): string {
    StyleHeader(r) + SettingsText(r.settings)
  }

  /** The whole file as `save_style_settings` builds it. */
  function Serialize(rs: seq<StyleRecord>): string {
    if |rs| == 0 then "" else Serialize(rs[..|rs| - 1]) + StyleText(rs[|rs| - 1])
  }

  /** `save_style_settings` without the file write: accumulates the text style by style, setting by setting. */
  method SaveStyleSettings(styles: seq<Style>) returns (output: string)
    ensures output == Serialize(Records(styles))
  {
    ghost var rs := Records(styles);
    output := "";
    var n := 0;
    while n < |styles|
      invariant 0 <= n <= |styles|
      invariant output == Serialize(rs[..n])
    {
      var style := styles[n];
      var settings := style.settings;
      var header := "[" + style.name + "]\nid = " + IntToString(style.id as int) + "\n";
      assert header == StyleHeader(rs[n]);
      output := output + header;
      ghost var start := output;
      var k := 0;
      while k < |settings|
        invariant 0 <= k <= |settings|
        invariant output == start + SettingsText(settings[..k])
      {
        var setting := settings[k];
        var line := setting.key + " = \"" + setting.val + "\"" + setting.comment + "\n";
        SettingsTextStep(settings, k);
        AppendAssoc(start, SettingsText(settings[..k]), line);
        output := output + line;
        k := k + 1;
      }
      assert settings[..k] == settings;
      SerializeStep(rs, n);
      n := n + 1;
    }
    assert rs[..n] == rs;
  }

  lemma SettingsTextStep(ss: seq<Setting>, k: nat)
    requires k < |ss|
    ensures SettingsText(ss[..k + 1]) ==
      SettingsText(ss[..k]) + (ss[k].key + " = \"" + ss[k].val + "\"" + ss[k].comment + "\n")
  {
    assert ss[..k + 1][..k] == ss[..k];
    AppendAssoc(SettingsText(ss[..k]), SettingLine(ss[k]), "\n");
  }

  lemma SerializeStep(rs: seq<StyleRecord>, n: nat)
    requires n < |rs|
    ensures Serialize(rs[..n + 1]) == Serialize(rs[..n]) + StyleHeader(rs[n]) + SettingsText(rs[n].settings)
  {
    assert rs[..n + 1][..n] == rs[..n];
    AppendAssoc(Serialize(rs[..n]), StyleHeader(rs[n]), SettingsText(rs[n].settings));
  }

  lemma {:induction false} SettingsTextLines(ss: seq<Setting>)
    ensures SettingsText(ss) == Terminated(SettingLines(ss), '\n')
  {
    if |ss| > 0 {
      SettingsTextLines(ss[..|ss| - 1]);
      assert SettingLines(ss)[..|ss| - 1] == SettingLines(ss[..|ss| - 1]);
    }
  }

  lemma StyleTextLines(r: StyleRecord)
    ensures StyleText(r) == Terminated(StyleLines(r), '\n')
  {
    var head := [HeaderLine(r), IdLine(r)];
    TerminatedAppend(head, SettingLines(r.settings), '\n');
    SettingsTextLines(r.settings);
    assert head[..1] == [HeaderLine(r)];
    assert head[..1][..0] == [];
    assert Terminated([HeaderLine(r)], '\n') == HeaderLine(r) + "\n";
    HeaderLines(r);
  }

  /** The header text is the section line and the id line, each ended by a newline. */
  lemma HeaderLines(r: StyleRecord)
    ensures StyleHeader(r) == HeaderLine(r) + "\n" + IdLine(r) + "\n"
  {
    var a, i := "[" + r.name, IntToString(r.id as int);
    AppendAssoc(a, "]", "\n");
    assert "]" + "\n" == "]\n";
    AppendAssoc(a + "]\n", "id = ", i);
    AppendAssoc(a, "]\n", "id = ");
    assert "]\n" + "id = " == "]\nid = ";
  }

  /** The saved text is the lines of every style, in order, each ended by a newline. */
  lemma {:induction false} SerializeLines(rs: seq<StyleRecord>)
    ensures Serialize(rs) == Terminated(Lines(rs), '\n')
  {
    if |rs| > 0 {
      var init := rs[..|rs| - 1];
      SerializeLines(init);
      StyleTextLines(rs[|rs| - 1]);
      TerminatedAppend(Lines(init), StyleLines(rs[|rs| - 1]), '\n');
    }
  }

  /** No name, key, value or comment breaks a line. */
  predicate SingleLine(r: StyleRecord) {
    && '\n' !in r.name
    && forall i :: 0 <= i < |r.settings| ==>
         '\n' !in r.settings[i].key && '\n' !in r.settings[i].val && '\n' !in r.settings[i].comment
  }

  lemma NoNewlineInInt(n: int)
    ensures '\n' !in IntToString(n)
  {
    var s := IntToString(n);
    if n < 0 {
      assert forall i :: 1 <= i < |s| ==> s[i] == NatToString(-n)[i - 1];
    }
  }

  lemma {:induction false} LinesSingle(rs: seq<StyleRecord>)
    requires forall i :: 0 <= i < |rs| ==> SingleLine(rs[i])
    ensures forall i :: 0 <= i < |Lines(rs)| ==> '\n' !in Lines(rs)[i]
  {
    if |rs| > 0 {
      var init, r := rs[..|rs| - 1], rs[|rs| - 1];
      LinesSingle(init);
      NoNewlineInInt(r.id as int);
      var ls := StyleLines(r);
      forall i | 0 <= i < |ls| ensures '\n' !in ls[i] {
        if i >= 2 {
          assert ls[i] == SettingLine(r.settings[i - 2]);
        }
      }
    }
  }

  /**
   * Splitting the saved text at newlines gives back exactly the header, id
   * and setting lines of every style, in order (and the empty piece after the
   * final newline), as long as no field holds a newline itself.
   */
  lemma SavedTextLines(rs: seq<StyleRecord>)
    requires forall i :: 0 <= i < |rs| ==> SingleLine(rs[i])
    ensures Split(Serialize(rs), '\n') == Lines(rs) + [""]
  {
    SerializeLines(rs);
    LinesSingle(rs);
    SplitTerminated(Lines(rs), '\n');
  }

  /** The name in a section header line. */
  function ReadHeader(line: string): Option<string> {
    if |line| >= 2 && line[0] == '[' && line[|line| - 1] == ']' then Some(line[1..|line| - 1]) else None
  }

  /** The integer of an `id = <n>` line. */
  function ReadIdLine(line: string): Option<int> {
    if |line| >= 5 && line[..5] == "id = " then ParseInt(line[5..]) else None
  }

  /** A `key = "value"comment` line read back at its first two quotes. */
  function ReadSettingLine(line: string): Option<Setting> {
    var q := FirstIndex(line, '"');
    if q < 3 || q == |line| || line[q - 3..q] != " = " then None
    else
      var rest := line[q + 1..];
      var e := FirstIndex(rest, '"');
      if e == |rest| then None else Some(Setting(line[..q - 3], rest[..e], rest[e + 1..]))
  }

  /** A setting line is its key and ` = `, a quote, then the value, a quote and the comment. */
  lemma SettingLineShape(st: Setting)
    ensures SettingLine(st) == (st.key + " = ") + ['"'] + (st.val + ['"'] + st.comment)
  {
    var k3, q := st.key + " = ", ['"'];
    assert " = \"" == " = " + q;
    AppendAssoc(st.key, " = ", q);
    AppendAssoc(k3 + q, st.val + q, st.comment);
    AppendAssoc(k3 + q, st.val, q);
  }

  lemma ReadSettingLineRoundTrip(st: Setting)
    requires '"' !in st.key && '"' !in st.val
    ensures ReadSettingLine(SettingLine(st)) == Some(st)
  {
    var line := SettingLine(st);
    var head, tail := st.key + " = ", st.val + ['"'] + st.comment;
    SettingLineShape(st);
    FirstIndexAfter(head, '"', tail);
    var q := |st.key| + 3;
    assert line[..q] == head;
    assert line[q - 3..q] == head[q - 3..q] == " = ";
    assert line[..q - 3] == head[..q - 3] == st.key;
    var rest := line[q + 1..];
    assert rest == tail;
    FirstIndexAfter(st.val, '"', st.comment);
    assert rest[..|st.val|] == st.val;
    assert rest[|st.val| + 1..] == st.comment;
  }

  /**
   * Every line written for a style reads back to what was written: the name
   * from the header, the id from the id line, and each setting, unchanged,
   * from its line, as long as keys and values hold no double quote (values
   * are written unescaped).
   */
  lemma ReadBackStyle(r: StyleRecord)
    requires forall i :: 0 <= i < |r.settings| ==> '"' !in r.settings[i].key && '"' !in r.settings[i].val
    ensures |StyleLines(r)| == 2 + |r.settings|
    ensures ReadHeader(StyleLines(r)[0]) == Some(r.name)
    ensures ReadIdLine(StyleLines(r)[1]) == Some(r.id as int)
    ensures forall i :: 0 <= i < |r.settings| ==> ReadSettingLine(StyleLines(r)[2 + i]) == Some(r.settings[i])
  {
    var ls := StyleLines(r);
    assert ls[0][1..|ls[0]| - 1] == r.name;
    IntToStringRoundTrip(r.id as int);
    assert ls[1][..5] == "id = " && ls[1][5..] == IntToString(r.id as int);
    forall i | 0 <= i < |r.settings| ensures ReadSettingLine(ls[2 + i]) == Some(r.settings[i]) {
      ReadSettingLineRoundTrip(r.settings[i]);
    }
  }

  /** The file written for a style with the sentinel id and one setting (the Rust test `with_setting__is_file_with_setting`, src/tests/save_style_settings.rs). */
  lemma SavedExample()
    ensures Serialize([StyleRecord(-1, "style", [Setting("key", "val", "")])]) == "[style]\nid = -1\nkey = \"val\"\n"
  {
    var st := Setting("key", "val", "");
    var r := StyleRecord(-1, "style", [st]);
    assert [r][..0] == [];
    assert [st][..0] == [];
    assert IntToString(-1) == "-1";
    assert StyleHeader(r) == "[style]\nid = -1\n";
    assert SettingsText([st]) == "key = \"val\"\n";
  }

  /** The file written for styles without settings, with the sentinel id and with a set one (the Rust tests `with_no_settings_or_id__is_file_with_only_name` and `with_id__is_file_with_id`, src/tests/save_style_settings.rs). */
  lemma SavedHeaderExamples()
    ensures Serialize([StyleRecord(UnsetId, "style", [])]) == "[style]\nid = -1\n"
    ensures Serialize([StyleRecord(15, "style", [])]) == "[style]\nid = 15\n"
  {
    var r1, r2 := StyleRecord(UnsetId, "style", []), StyleRecord(15, "style", []);
    assert [r1][..0] == [] && [r2][..0] == [];
    assert IntToString(-1) == "-1";
    assert NatToString(15) == NatToString(1) + [DigitChar(5)];
    assert IntToString(15) == "15";
    assert StyleHeader(r1) == "[style]\nid = -1\n";
    assert StyleHeader(r2) == "[style]\nid = 15\n";
  }
}
