/**
 * `update_style_settings` (src/main.rs): rebuilding a style's settings from
 * the style-settings endpoint's decoded JSON response. The request and the
 * JSON parsing are not part of this model: the response is an input.
 */
module SettingsApi {
  import opened Wrappers
  import opened Decimal
  import opened Styles

  /**
   * One element of a setting's `style_setting_options`: `installKey` and
   * `value` are `Some` when the JSON field is a string; `isDefault` holds
   * when the `default` field is JSON `true`.
   */
  datatype OptionEntry = OptionEntry(installKey: Option<string>, value: Option<string>, isDefault: bool)

  /** One element of `style_settings`; `installKey` and `settingType` are `Some` when the field is a string. */
  datatype SettingEntry = SettingEntry(installKey: Option<string>, settingType: Option<string>, options: seq<OptionEntry>)

  /**
   * The decoded response: whether `not_found` and `error` are present and
   * not null, and the elements of `style_settings` (none when the field is
   * missing or not an array).
   */
  datatype Response = Response(notFound: bool, error: bool, styleSettings: seq<SettingEntry>)

  /** The prefix that turns a remote install key into a setting key. */
  const KeyPrefix := "ik-"

  const InstallKeyError := "Unable to parse install key."

  const OptionKeyError := "Unable to parse default value"

  function NotExistError(id: i64): string {
    "Style '" + IntToString(id as int) + "' does not exist."
  }

  predicate OptionsHaveKeys(opts: seq<OptionEntry>) {
    forall j :: 0 <= j < |opts| ==> opts[j].installKey.Some?
  }

  /** The setting value that selects an option. */
  function OptionKey(o: OptionEntry): string
    requires o.installKey.Some?
  {
    KeyPrefix + o.installKey.value
  }

  /** Setting types whose options are listed by their quoted value rather than by their key. */
  predicate ListsValues(settingType: string) {
    settingType == "text" || settingType == "color"
  }

  /** How an option is listed in the comment of a setting of type `settingType`. */
  function OptionLabel(settingType: string, o: OptionEntry): string
    requires o.installKey.Some?
  {
    if ListsValues(settingType) then "'" + o.value.GetOr("") + "'" else OptionKey(o)
  }

  /** The comment after the options loop has listed the first options. */
  function Comment(settingType: string, opts: seq<OptionEntry>): string
    requires OptionsHaveKeys(opts)
  {
    if |opts| == 0 then " # " + settingType + ":"
    else Comment(settingType, opts[..|opts| - 1]) + " " + OptionLabel(settingType, opts[|opts| - 1])
  }

  /** The default after the options loop has seen the first options. */
  function DefaultValue(opts: seq<OptionEntry>): string
    requires OptionsHaveKeys(opts)
  {
    if |opts| == 0 then ""
    else if opts[|opts| - 1].isDefault then OptionKey(opts[|opts| - 1])
    else DefaultValue(opts[..|opts| - 1])
  }

  /** One refreshed setting: a previous value for its key wins over the remote default. */
  function RefreshOne(previous: seq<Setting>, e: SettingEntry): Result<Setting, string> {
    if e.installKey.None? then Failure(InstallKeyError)
    else if !OptionsHaveKeys(e.options) then Failure(OptionKeyError)
    else
      var key := KeyPrefix + e.installKey.value;
      var val := match Lookup(previous, key) case Some(v) => v case None => DefaultValue(e.options);
      Success(Setting(key, val, Comment(e.settingType.GetOr(""), e.options)))
  }

  /** The settings after the outer loop has handled the first entries, or the first error. */
  function RefreshAll(previous: seq<Setting>, es: seq<SettingEntry>): Result<seq<Setting>, string> {
    if |es| == 0 then Success([])
    else
      match RefreshAll(previous, es[..|es| - 1])
      case Failure(e) => Failure(e)
      case Success(done) =>
        match RefreshOne(previous, es[|es| - 1])
        case Failure(e) => Failure(e)
        case Success(st) => Success(done + [st])
  }

  /** The new settings of style `id`, whose settings were `previous`, given the response. */
  function Refresh(previous: seq<Setting>, id: i64, resp: Response): Result<seq<Setting>, string> {
    if resp.notFound || resp.error then Failure(NotExistError(id)) else RefreshAll(previous, resp.styleSettings)
  }

  /** Once an entry fails, the entries after it do not matter: the update has returned. */
  lemma {:induction false} RefreshAllPrefixFails(previous: seq<Setting>, es: seq<SettingEntry>, m: nat)
    requires m <= |es| && RefreshAll(previous, es[..m]).Failure?
    ensures RefreshAll(previous, es) == RefreshAll(previous, es[..m])
    decreases |es|
  {
    if m < |es| {
      assert es[..|es| - 1][..m] == es[..m];
      RefreshAllPrefixFails(previous, es[..|es| - 1], m);
    } else {
      assert es[..m] == es;
    }
  }

  /** The comment and the default after one more option. */
  lemma OptionsSnoc(settingType: string, init: seq<OptionEntry>, o: OptionEntry)
    requires OptionsHaveKeys(init) && o.installKey.Some?
    ensures OptionsHaveKeys(init + [o])
    ensures Comment(settingType, init + [o]) == Comment(settingType, init) + " " + OptionLabel(settingType, o)
    ensures DefaultValue(init + [o]) == if o.isDefault then OptionKey(o) else DefaultValue(init)
  {
    assert (init + [o])[..|init|] == init;
  }

  lemma OptionStep(settingType: string, opts: seq<OptionEntry>, j: nat, comment: string, defaultValue: string)
    requires j < |opts| && OptionsHaveKeys(opts[..j]) && opts[j].installKey.Some?
    requires comment == Comment(settingType, opts[..j]) && defaultValue == DefaultValue(opts[..j])
    ensures OptionsHaveKeys(opts[..j + 1])
    ensures comment + " " + OptionLabel(settingType, opts[j]) == Comment(settingType, opts[..j + 1])
    ensures (if opts[j].isDefault then OptionKey(opts[j]) else defaultValue) == DefaultValue(opts[..j + 1])
  {
    assert opts[..j + 1] == opts[..j] + [opts[j]];
    OptionsSnoc(settingType, opts[..j], opts[j]);
  }

  lemma RefreshOneOk(previous: seq<Setting>, e: SettingEntry, comment: string, remoteDefault: string, existing: Option<string>)
    requires e.installKey.Some? && OptionsHaveKeys(e.options)
    requires comment == Comment(e.settingType.GetOr(""), e.options) && remoteDefault == DefaultValue(e.options)
    requires existing == Lookup(previous, KeyPrefix + e.installKey.value)
    ensures RefreshOne(previous, e) ==
      Success(Setting(KeyPrefix + e.installKey.value, if existing.Some? then existing.value else remoteDefault, comment))
  {
  }

  /** How one more response entry changes the rebuilt settings. */
  lemma RefreshAllSnoc(previous: seq<Setting>, init: seq<SettingEntry>, e: SettingEntry)
    ensures var d := RefreshOne(previous, e);
      RefreshAll(previous, init + [e]) ==
        if RefreshAll(previous, init).Failure? then RefreshAll(previous, init)
        else if d.Failure? then Failure(d.error)
        else Success(RefreshAll(previous, init).value + [d.value])
  {
    assert (init + [e])[..|init|] == init;
  }

  lemma RefreshAllStep(previous: seq<Setting>, es: seq<SettingEntry>, i: nat)
    requires i < |es| && RefreshAll(previous, es[..i]).Success?
    ensures RefreshOne(previous, es[i]).Success? ==>
      RefreshAll(previous, es[..i + 1]) == Success(RefreshAll(previous, es[..i]).value + [RefreshOne(previous, es[i]).value])
    ensures RefreshOne(previous, es[i]).Failure? ==> RefreshAll(previous, es) == Failure(RefreshOne(previous, es[i]).error)
  {
    assert es[..i + 1][..i] == es[..i];
    if RefreshOne(previous, es[i]).Failure? {
      RefreshAllPrefixFails(previous, es, i + 1);
    }
  }

  /**
   * The options loop of `update_style_settings`: lists each option in the
   * comment and remembers the key of the last option flagged default;
   * `ok` is false when an option has no install key.
   */
  method ScanOptions(settingType: string, opts: seq<OptionEntry>) returns (ok: bool, comment: string, defaultValue: string)
    ensures ok <==> OptionsHaveKeys(opts)
    ensures ok ==> comment == Comment(settingType, opts) && defaultValue == DefaultValue(opts)
  {
    comment := " # " + settingType + ":";
    defaultValue := "";
    var j := 0;
    while j < |opts|
      invariant 0 <= j <= |opts|
      invariant OptionsHaveKeys(opts[..j])
      invariant comment == Comment(settingType, opts[..j])
      invariant defaultValue == DefaultValue(opts[..j])
    {
      var option := opts[j];
      if option.installKey.None? {
        return false, comment, defaultValue;
      }
      var optionKey := KeyPrefix + option.installKey.value;
      var optionComment := if settingType == "text" || settingType == "color"
        then "'" + option.value.GetOr("") + "'" else optionKey;
      assert optionKey == OptionKey(option);
      assert optionComment == OptionLabel(settingType, option);
      OptionStep(settingType, opts, j, comment, defaultValue);
      comment := comment + " " + optionComment;
      if option.isDefault {
        defaultValue := optionKey;
      }
      j := j + 1;
    }
    assert opts[..j] == opts;
    return true, comment, defaultValue;
  }

  /**
   * `update_style_settings` after the request: fails naming the id when the
   * response reports an error, leaving the settings untouched; otherwise
   * drains the settings and pushes one rebuilt setting per response entry.
   */
  method UpdateStyleSettings(style: Style, resp: Response) returns (r: Outcome<string>)
    modifies style
    ensures style.id == old(style.id) && style.name == old(style.name)
    ensures r.Pass? <==> Refresh(old(style.settings), style.id, resp).Success?
    ensures r.Pass? ==> style.settings == Refresh(old(style.settings), style.id, resp).value
    ensures r.Fail? ==> r.error == Refresh(old(style.settings), style.id, resp).error
    ensures resp.notFound || resp.error ==> style.settings == old(style.settings)
    ensures r.Fail? && !resp.notFound && !resp.error ==>
      exists k :: 0 <= k < |resp.styleSettings| && RefreshOne(old(style.settings), resp.styleSettings[k]).Failure? &&
        RefreshAll(old(style.settings), resp.styleSettings[..k]) == Success(style.settings)
  {
    if resp.notFound || resp.error {
      return Fail(NotExistError(style.id));
    }
    var oldSettings := style.settings;
    style.settings := [];
    var es := resp.styleSettings;
    var i := 0;
    while i < |es|
      invariant 0 <= i <= |es|
      invariant style.id == old(style.id) && style.name == old(style.name)
      invariant RefreshAll(oldSettings, es[..i]) == Success(style.settings)
    {
      var setting := es[i];
      if setting.installKey.None? {
        RefreshAllStep(oldSettings, es, i);
        return Fail(InstallKeyError);
      }
      var installKey := KeyPrefix + setting.installKey.value;
      var settingType := setting.settingType.GetOr("");
      var optionsOk, comment, defaultValue := ScanOptions(settingType, setting.options);
      if !optionsOk {
        RefreshAllStep(oldSettings, es, i);
        return Fail(OptionKeyError);
      }
      var existing := FindSettingsVal(oldSettings, installKey);
      ghost var remoteDefault := defaultValue;
      if existing.Some? {
        defaultValue := existing.value;
      }
      RefreshOneOk(oldSettings, setting, comment, remoteDefault, existing);
      RefreshAllStep(oldSettings, es, i);
      style.settings := style.settings + [Setting(installKey, defaultValue, comment)];
      i := i + 1;
    }
    assert es[..i] == es;
    return Pass;
  }
}

module SettingsApiProperties {
  import opened Wrappers
  import opened Decimal
  import opened Text
  import opened Styles
  import opened SettingsApi

  /** `j` is the last option flagged default. */
  predicate LastDefault(opts: seq<OptionEntry>, j: int) {
    && 0 <= j < |opts|
    && opts[j].isDefault
    && forall m :: j < m < |opts| ==> !opts[m].isDefault
  }

  /** The remote default is the empty string exactly when no option is flagged default. */
  lemma {:induction false} DefaultValueEmpty(opts: seq<OptionEntry>)
    requires OptionsHaveKeys(opts)
    ensures DefaultValue(opts) == "" <==> forall j :: 0 <= j < |opts| ==> !opts[j].isDefault
  {
    if |opts| > 0 {
      var init, o := opts[..|opts| - 1], opts[|opts| - 1];
      assert opts == init + [o];
      OptionsSnoc("", init, o);
      DefaultValueEmpty(init);
      assert |OptionKey(o)| >= 3;
    }
  }

  /** The remote default is the key of the last option flagged default. */
  lemma {:induction false} DefaultValueIsLastDefault(opts: seq<OptionEntry>)
    requires OptionsHaveKeys(opts)
    ensures forall j :: LastDefault(opts, j) ==> DefaultValue(opts) == OptionKey(opts[j])
  {
    if |opts| > 0 {
      var init, o := opts[..|opts| - 1], opts[|opts| - 1];
      assert opts == init + [o];
      OptionsSnoc("", init, o);
      if !o.isDefault {
        DefaultValueIsLastDefault(init);
        forall j | LastDefault(opts, j) ensures DefaultValue(opts) == OptionKey(opts[j]) {
          assert LastDefault(init, j);
        }
      }
    }
  }

  /** The labels of the options, in order. */
  function OptionLabels(settingType: string, opts: seq<OptionEntry>): seq<string>
    requires OptionsHaveKeys(opts)
  {
    if |opts| == 0 then []
    else OptionLabels(settingType, opts[..|opts| - 1]) + [OptionLabel(settingType, opts[|opts| - 1])]
  }

  lemma SplitCommentHeader(settingType: string)
    requires ' ' !in settingType
    ensures Split(" # " + settingType + ":", ' ') == ["", "#", settingType + ":"]
  {
    var t := settingType + ":";
    var hash: string := "" + [' '] + "#";
    assert " # " + settingType + ":" == hash + [' '] + t;
    SplitAppend(hash, t, ' ');
    SplitAppend("", "#", ' ');
    SplitNoSeparator("", ' ');
    SplitNoSeparator("#", ' ');
    SplitNoSeparator(t, ' ');
  }

  /**
   * The comment names the setting type and then lists one label per option,
   * in order, each after a space: split at spaces it gives back the type and
   * the labels when none of them holds a space.
   */
  lemma {:induction false} CommentListsOptions(settingType: string, opts: seq<OptionEntry>)
    requires OptionsHaveKeys(opts)
    requires ' ' !in settingType
    requires forall j :: 0 <= j < |opts| ==> ' ' !in OptionLabel(settingType, opts[j])
    ensures Split(Comment(settingType, opts), ' ') == ["", "#", settingType + ":"] + OptionLabels(settingType, opts)
  {
    if |opts| == 0 {
      SplitCommentHeader(settingType);
    } else {
      var init, o := opts[..|opts| - 1], opts[|opts| - 1];
      assert opts == init + [o];
      OptionsSnoc(settingType, init, o);
      var last := OptionLabel(settingType, o);
      assert Comment(settingType, opts) == Comment(settingType, init) + [' '] + last;
      CommentListsOptions(settingType, init);
      SplitAppend(Comment(settingType, init), last, ' ');
      SplitNoSeparator(last, ' ');
      AppendAssoc(["", "#", settingType + ":"], OptionLabels(settingType, init), [last]);
    }
  }

  /**
   * One response entry: it fails on a missing install key, then on an
   * option without one; otherwise the setting is keyed `ik-<install_key>`,
   * carries the comment, and takes the value of the first old setting with
   * that key, else the key of the last default option, else "".
   */
  lemma RefreshOneSpec(previous: seq<Setting>, e: SettingEntry)
    ensures e.installKey.None? ==> RefreshOne(previous, e) == Failure(InstallKeyError)
    ensures e.installKey.Some? && !OptionsHaveKeys(e.options) ==> RefreshOne(previous, e) == Failure(OptionKeyError)
    ensures RefreshOne(previous, e).Success? <==> e.installKey.Some? && OptionsHaveKeys(e.options)
    ensures RefreshOne(previous, e).Success? ==>
      var st := RefreshOne(previous, e).value;
      && st.key == KeyPrefix + e.installKey.value
      && st.comment == Comment(e.settingType.GetOr(""), e.options)
      && (forall i :: FirstWithKey(previous, st.key, i) ==> st.val == previous[i].val)
      && ((forall i :: 0 <= i < |previous| ==> previous[i].key != st.key) ==>
            (forall j :: LastDefault(e.options, j) ==> st.val == OptionKey(e.options[j])) &&
            ((forall j :: 0 <= j < |e.options| ==> !e.options[j].isDefault) ==> st.val == ""))
  {
    if e.installKey.Some? && OptionsHaveKeys(e.options) {
      var key := KeyPrefix + e.installKey.value;
      LookupFindsFirst(previous, key);
      forall i | FirstWithKey(previous, key, i) ensures Lookup(previous, key) == Some(previous[i].val) {
        LookupAt(previous, key, i);
      }
      DefaultValueEmpty(e.options);
      DefaultValueIsLastDefault(e.options);
    }
  }

  /**
   * The rebuild loop: it succeeds exactly when every entry does, giving one
   * setting per entry in order; otherwise the error is that of the first
   * failing entry.
   */
  lemma {:induction false} RefreshAllSpec(previous: seq<Setting>, es: seq<SettingEntry>)
    ensures RefreshAll(previous, es).Success? <==> forall i :: 0 <= i < |es| ==> RefreshOne(previous, es[i]).Success?
    ensures RefreshAll(previous, es).Success? ==>
      |RefreshAll(previous, es).value| == |es| &&
      forall i :: 0 <= i < |es| ==> RefreshAll(previous, es).value[i] == RefreshOne(previous, es[i]).value
    ensures RefreshAll(previous, es).Failure? ==>
      exists k :: 0 <= k < |es| && RefreshOne(previous, es[k]).Failure? &&
        (forall i :: 0 <= i < k ==> RefreshOne(previous, es[i]).Success?) &&
        RefreshAll(previous, es).error == RefreshOne(previous, es[k]).error
  {
    if |es| > 0 {
      var init := es[..|es| - 1];
      assert es == init + [es[|es| - 1]];
      RefreshAllSnoc(previous, init, es[|es| - 1]);
      RefreshAllSpec(previous, init);
    }
  }

  /**
   * `update_style_settings` as a whole: a response reporting `not_found` or
   * `error` fails naming the id; otherwise it succeeds exactly when every
   * setting and option has an install key, and the new settings match the
   * response entries one to one, in order, keyed `ik-<install_key>`.
   */
  lemma RefreshSpec(previous: seq<Setting>, id: i64, resp: Response)
    ensures resp.notFound || resp.error ==> Refresh(previous, id, resp) == Failure(NotExistError(id))
    ensures Refresh(previous, id, resp).Success? <==>
      && !resp.notFound && !resp.error
      && forall i :: 0 <= i < |resp.styleSettings| ==>
           resp.styleSettings[i].installKey.Some? && OptionsHaveKeys(resp.styleSettings[i].options)
    ensures Refresh(previous, id, resp).Success? ==>
      var ss := Refresh(previous, id, resp).value;
      && |ss| == |resp.styleSettings|
      && forall i :: 0 <= i < |ss| ==>
           (ss[i] == RefreshOne(previous, resp.styleSettings[i]).value &&
            ss[i].key == KeyPrefix + resp.styleSettings[i].installKey.value)
  {
    var es := resp.styleSettings;
    RefreshAllSpec(previous, es);
    forall i | 0 <= i < |es| {
      RefreshOneSpec(previous, es[i]);
    }
  }

  /** An old setting whose key the response no longer lists does not survive a refresh. */
  lemma RefreshDropsStaleKeys(previous: seq<Setting>, id: i64, resp: Response, k: nat)
    requires Refresh(previous, id, resp).Success?
    requires k < |previous|
    requires forall i :: 0 <= i < |resp.styleSettings| ==>
      resp.styleSettings[i].installKey.Some? && KeyPrefix + resp.styleSettings[i].installKey.value != previous[k].key
    ensures forall st :: st in Refresh(previous, id, resp).value ==> st.key != previous[k].key
  {
    RefreshSpec(previous, id, resp);
  }

  /** The response names each install key at most once. */
  predicate DistinctInstallKeys(es: seq<SettingEntry>) {
    forall i, j :: 0 <= i < j < |es| ==> es[i].installKey != es[j].installKey
  }

  /**
   * Refreshing again with the same response changes nothing: each value
   * chosen the first time is found again under its own key and kept.
   */
  lemma RefreshIdempotent(previous: seq<Setting>, id: i64, resp: Response)
    requires Refresh(previous, id, resp).Success?
    requires DistinctInstallKeys(resp.styleSettings)
    ensures Refresh(Refresh(previous, id, resp).value, id, resp) == Refresh(previous, id, resp)
  {
    var es := resp.styleSettings;
    var ss := Refresh(previous, id, resp).value;
    RefreshSpec(previous, id, resp);
    forall i | 0 <= i < |es| ensures RefreshOne(ss, es[i]) == Success(ss[i]) {
      var key := ss[i].key;
      forall m | 0 <= m < i ensures ss[m].key != key {
        assert es[m].installKey != es[i].installKey;
        assert ss[m].key[3..] == es[m].installKey.value;
        assert ss[i].key[3..] == es[i].installKey.value;
      }
      assert FirstWithKey(ss, key, i);
      LookupAt(ss, key, i);
      RefreshOneSpec(previous, es[i]);
    }
    RefreshAllSpec(ss, es);
    var again := RefreshAll(ss, es);
    assert again.Success?;
    assert again.value == ss;
  }

  /** A dropdown's options listed by key (the Rust test `with_dropdown_setting__is_comment_with_options`, src/tests/update_style_settings.rs). */
  lemma DropdownComment()
    ensures Comment("dropdown", [OptionEntry(Some("tera"), None, true), OptionEntry(Some("black"), None, false)])
      == " # dropdown: ik-tera ik-black"
  {
    var opts := [OptionEntry(Some("tera"), None, true), OptionEntry(Some("black"), None, false)];
    assert opts[..1] == [opts[0]];
    assert opts[..1][..0] == [];
  }

  /**
   * A colour setting, as the Rust tests of src/tests/update_style_settings.rs
   * check it: the option listed by its quoted value, the default taken when
   * the style had no value, and an existing value kept over it.
   */
  lemma ColorSetting()
    ensures var e := SettingEntry(Some("ACCENTCOLOR"), Some("color"), [OptionEntry(Some("placeholder"), Some("#0F9D58"), true)]);
      && RefreshOne([], e) == Success(Setting("ik-ACCENTCOLOR", "ik-placeholder", " # color: '#0F9D58'"))
      && RefreshOne([Setting("ik-ACCENTCOLOR", "#f006a2", "")], e) == Success(Setting("ik-ACCENTCOLOR", "#f006a2", " # color: '#0F9D58'"))
  {
    var opts := [OptionEntry(Some("placeholder"), Some("#0F9D58"), true)];
    assert opts[..0] == [];
    assert OptionsHaveKeys(opts);
    assert DefaultValue(opts) == "ik-placeholder";
    assert OptionLabel("color", opts[0]) == "'#0F9D58'";
    assert Comment("color", opts) == " # color: '#0F9D58'";
    assert Lookup([], "ik-ACCENTCOLOR") == None;
    var e := SettingEntry(Some("ACCENTCOLOR"), Some("color"), opts);
    assert KeyPrefix + "ACCENTCOLOR" == "ik-ACCENTCOLOR";
    assert e.settingType.GetOr("") == "color";
    assert RefreshOne([], e) == Success(Setting("ik-ACCENTCOLOR", "ik-placeholder", " # color: '#0F9D58'"));
    var prev := [Setting("ik-ACCENTCOLOR", "#f006a2", "")];
    assert Lookup(prev, "ik-ACCENTCOLOR") == Some("#f006a2");
  }

  /** A response flagged `not_found` names the id in its error (the Rust test `with_zero_id__is_not_found_error`, src/tests/update_style_settings.rs). */
  lemma NotFoundExample(previous: seq<Setting>, es: seq<SettingEntry>)
    ensures Refresh(previous, 0, Response(true, false, es)) == Failure("Style '0' does not exist.")
  {
    assert IntToString(0) == "0";
    assert NotExistError(0) == "Style '0' does not exist.";
  }

  /** A response without settings leaves the style with none, whatever it had (a case the program's tests check). */
  lemma NoEntriesExample(previous: seq<Setting>, id: i64)
    ensures Refresh(previous, id, Response(false, false, [])) == Success([])
  {
  }
}
