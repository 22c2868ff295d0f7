/**
 * The two records of src/main.rs: a userstyle (`Style`) and one of its
 * configurable properties (`Setting`), with the lookup `find_settings_val`.
 */
module Styles {
  import opened Wrappers
  import opened Decimal

  /** One configurable property of a style: its key, its value and the annotation written after it. */
  datatype Setting = Setting(key: string, val: string, comment: string)

  /** The fields of a `Style` at one moment, for specifications that speak of values. */
  datatype StyleRecord = StyleRecord(id: i64, name: string, settings: seq<Setting>)

  /** The id a style has until its `id` entry is read. */
  const UnsetId: i64 := -1

  /** A userstyle; its settings are rebuilt in place when they are refreshed. */
  class Style {
    var id: i64
    var name: string
    var settings: seq<Setting>

    /** `Style::new`: a named style with the sentinel id and no settings. */
    constructor (name: string)
      ensures id == UnsetId && this.name == name && settings == []
    {
      id := UnsetId;
      this.name := name;
      settings := [];
    }

    function Record(): StyleRecord
      reads this
    {
      StyleRecord(id, name, settings)
    }
  }

  /** The records of a list of styles, in order. */
  function Records(styles: seq<Style>): (rs: seq<StyleRecord>)
    reads styles
    ensures |rs| == |styles|
    ensures forall i :: 0 <= i < |styles| ==> rs[i] == styles[i].Record()
  {
    if |styles| == 0 then [] else Records(styles[..|styles| - 1]) + [styles[|styles| - 1].Record()]
  }

  /** `i` is the position of the first setting keyed `key`. */
  predicate FirstWithKey(settings: seq<Setting>, key: string, i: int) {
    && 0 <= i < |settings|
    && settings[i].key == key
    && forall j :: 0 <= j < i ==> settings[j].key != key
  }

  /** The value of the first setting keyed `key`, if any. */
  function Lookup(settings: seq<Setting>, key: string): Option<string> {
    if |settings| == 0 then None
    else if settings[0].key == key then Some(settings[0].val)
    else Lookup(settings[1..], key)
  }

  /** `Lookup` finds the first setting with the key, and nothing exactly when no setting has it. */
  lemma {:induction false} LookupFindsFirst(settings: seq<Setting>, key: string)
    ensures Lookup(settings, key).None? <==> forall i :: 0 <= i < |settings| ==> settings[i].key != key
    ensures Lookup(settings, key).Some? ==>
      exists i :: FirstWithKey(settings, key, i) && Lookup(settings, key).value == settings[i].val
  {
    if |settings| > 0 && settings[0].key != key {
      var rest := settings[1..];
      LookupFindsFirst(rest, key);
      if Lookup(rest, key).Some? {
        var i :| FirstWithKey(rest, key, i) && Lookup(rest, key).value == rest[i].val;
        assert FirstWithKey(settings, key, i + 1);
      } else {
        forall i | 0 <= i < |settings| ensures settings[i].key != key {
          if i > 0 { assert settings[i] == rest[i - 1]; }
        }
      }
    } else if |settings| > 0 {
      assert FirstWithKey(settings, key, 0);
    }
  }

  /** `Lookup` returns the value at any position that is the first with its key. */
  lemma LookupAt(settings: seq<Setting>, key: string, i: int)
    requires FirstWithKey(settings, key, i)
    ensures Lookup(settings, key) == Some(settings[i].val)
  {
    LookupFindsFirst(settings, key);
    var k :| FirstWithKey(settings, key, k) && Lookup(settings, key).value == settings[k].val;
    assert k == i;
  }

  /** `find_settings_val`: a linear scan that returns at the first setting keyed `key`. */
  method FindSettingsVal(settings: seq<Setting>, key: string) returns (r: Option<string>)
    ensures r.None? <==> forall i :: 0 <= i < |settings| ==> settings[i].key != key
    ensures r.Some? ==> exists i :: FirstWithKey(settings, key, i) && r.value == settings[i].val
    ensures r == Lookup(settings, key)
  {
    var n := 0;
    while n < |settings|
      invariant 0 <= n <= |settings|
      invariant forall j :: 0 <= j < n ==> settings[j].key != key
    {
      if settings[n].key == key {
        assert FirstWithKey(settings, key, n);
        LookupAt(settings, key, n);
        return Some(settings[n].val);
      }
      n := n + 1;
    }
    LookupFindsFirst(settings, key);
    return None;
  }
}
