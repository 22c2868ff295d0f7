/**
 * The request half of `get_style` (src/main.rs): the form body built from a
 * style's settings and the address it is posted to. Sending the request and
 * reading the CSS back are not part of this model.
 */
module Render {
  import opened Decimal
  import opened Text
  import opened Styles

  const StyleUri := "https://userstyles.org/styles/"

  /** A setting as it appears in the body: `key=val`, neither part encoded. */
  function Pair(st: Setting): string {
    st.key + "=" + st.val
  }

  /** The pairs of the settings, in order. */
  function Pairs(ss: seq<Setting>): seq<string> {
    if |ss| == 0 then [] else Pairs(ss[..|ss| - 1]) + [Pair(ss[|ss| - 1])]
  }

  /** The address the rendered CSS of style `id` is requested from. */
  function RequestUri(id: i64): string {
    StyleUri + IntToString(id as int) + ".css?"
  }

  lemma PairsStep(ss: seq<Setting>, k: nat)
    requires k < |ss|
    ensures Pairs(ss[..k + 1]) == Pairs(ss[..k]) + [Pair(ss[k])]
  {
    assert ss[..k + 1][..k] == ss[..k];
  }

  /** The loop's text after one more setting. */
  lemma BodyStep(ss: seq<Setting>, k: nat)
    requires k < |ss|
    ensures (if k == 0 then "" else Join(Pairs(ss[..k]), '&') + "&") + ss[k].key + "=" + ss[k].val + "&"
      == Join(Pairs(ss[..k + 1]), '&') + "&"
  {
    PairsStep(ss, k);
    var ps := Pairs(ss[..k + 1]);
    assert ps[..|ps| - 1] == Pairs(ss[..k]);
    var key, val := ss[k].key, ss[k].val;
    var a := if k == 0 then "" else Join(Pairs(ss[..k]), '&') + "&";
    AppendAssoc(a, key + "=", val);
    AppendAssoc(a, key, "=");
    assert a + key + "=" + val == a + Pair(ss[k]);
    if k == 0 {
      assert Join(ps, '&') == Pair(ss[k]);
    } else {
      assert Join(ps, '&') == a + Pair(ss[k]);
    }
  }

  /**
   * `get_style` up to the request: appends `key=val&` for every setting,
   * then drops the last character (the trailing `&`, when there is one).
   */
  method GetStyleRequest(style: Style) returns (uri: string, body: string)
    ensures body == Join(Pairs(style.settings), '&')
    ensures uri == RequestUri(style.id)
  {
    var settings := style.settings;
    var settingsStr := "";
    var k := 0;
    while k < |settings|
      invariant 0 <= k <= |settings|
      invariant settingsStr == if k == 0 then "" else Join(Pairs(settings[..k]), '&') + "&"
    {
      BodyStep(settings, k);
      settingsStr := settingsStr + settings[k].key + "=" + settings[k].val + "&";
      k := k + 1;
    }
    assert settings[..k] == settings;
    if |settingsStr| > 0 {
      settingsStr := settingsStr[..|settingsStr| - 1];
    }
    body := settingsStr;
    uri := StyleUri + IntToString(style.id as int) + ".css?";
  }

  lemma {:induction false} PairsAt(ss: seq<Setting>)
    ensures |Pairs(ss)| == |ss|
    ensures forall i :: 0 <= i < |ss| ==> Pairs(ss)[i] == Pair(ss[i])
  {
    if |ss| > 0 {
      PairsAt(ss[..|ss| - 1]);
    }
  }

  /** The body is empty exactly when the style has no settings. */
  lemma RequestBodyEmpty(ss: seq<Setting>)
    ensures Join(Pairs(ss), '&') == "" <==> |ss| == 0
  {
    if |ss| > 0 {
      var ps := Pairs(ss);
      PairsAt(ss);
      assert '=' in Pair(ss[|ss| - 1]);
      if |ss| > 1 {
        assert ps[..|ps| - 1] == Pairs(ss[..|ss| - 1]);
      }
      assert |Join(ps, '&')| >= |ps[|ps| - 1]|;
    }
  }

  /**
   * Reading the body back: as long as no key or value holds `&` or `=`,
   * splitting at `&` gives one field per setting, in order, and splitting a
   * field at `=` gives that setting's key and value.
   */
  lemma RequestBodyReadsBack(ss: seq<Setting>)
    requires |ss| > 0
    requires forall i :: 0 <= i < |ss| ==>
      '&' !in ss[i].key && '&' !in ss[i].val && '=' !in ss[i].key && '=' !in ss[i].val
    ensures |Split(Join(Pairs(ss), '&'), '&')| == |ss|
    ensures forall i :: 0 <= i < |ss| ==>
      Split(Split(Join(Pairs(ss), '&'), '&')[i], '=') == [ss[i].key, ss[i].val]
  {
    PairsAt(ss);
    SplitJoin(Pairs(ss), '&');
    forall i | 0 <= i < |ss| ensures Split(Pair(ss[i]), '=') == [ss[i].key, ss[i].val] {
      SplitAppend(ss[i].key, ss[i].val, '=');
      SplitNoSeparator(ss[i].key, '=');
      SplitNoSeparator(ss[i].val, '=');
    }
  }
}
