/** Joining and splitting strings at a separator character. */
module Text {

  /** The strings of `xs` with `sep` between consecutive ones. */
  function Join(xs: seq<string>, sep: char): string {
    if |xs| == 0 then ""
    else if |xs| == 1 then xs[0]
    else Join(xs[..|xs| - 1], sep) + [sep] + xs[|xs| - 1]
  }

  /** Each string of `xs` followed by `sep`: the text of lines each ended by a newline. */
  function Terminated(xs: seq<string>, sep: char): string {
    if |xs| == 0 then "" else Terminated(xs[..|xs| - 1], sep) + xs[|xs| - 1] + [sep]
  }

  /** The pieces of `s` between occurrences of `sep`, as Rust's `str::split` yields them. */
  function Split(s: string, sep: char): (parts: seq<string>)
    ensures |parts| > 0
  {
    if |s| == 0 then [""]
    else
      var init := Split(s[..|s| - 1], sep);
      if s[|s| - 1] == sep then init + [""]
      else init[..|init| - 1] + [init[|init| - 1] + [s[|s| - 1]]]
  }

  /** The index of the first `c` in `s`, or `|s|` when there is none. */
  function FirstIndex(s: string, c: char): (i: nat)
    ensures i <= |s|
    ensures i < |s| ==> s[i] == c
    ensures forall j :: 0 <= j < i ==> s[j] != c
  {
    if |s| == 0 then 0
    else if s[0] == c then 0
    else 1 + FirstIndex(s[1..], c)
  }

  lemma {:induction false} SplitNoSeparator(s: string, sep: char)
    requires sep !in s
    ensures Split(s, sep) == [s]
  {
    if |s| > 0 {
      assert sep !in s[..|s| - 1];
      SplitNoSeparator(s[..|s| - 1], sep);
      assert s[..|s| - 1] + [s[|s| - 1]] == s;
    }
  }

  /** How one more character extends the pieces. */
  lemma SplitSnoc(s: string, c: char, sep: char)
    ensures var p := Split(s, sep);
      Split(s + [c], sep) == if c == sep then p + [""] else p[..|p| - 1] + [p[|p| - 1] + [c]]
  {
    assert (s + [c])[..|s|] == s;
  }

  /** Splitting at one separator splits the text into the pieces on either side. */
  lemma {:induction false} SplitAppend(a: string, b: string, sep: char)
    ensures Split(a + [sep] + b, sep) == Split(a, sep) + Split(b, sep)
    decreases |b|
  {
    if |b| == 0 {
      assert a + [sep] + b == a + [sep];
      SplitSnoc(a, sep, sep);
    } else {
      var b', c := b[..|b| - 1], b[|b| - 1];
      assert a + [sep] + b == (a + [sep] + b') + [c];
      assert b == b' + [c];
      SplitAppend(a, b', sep);
      SplitSnoc(a + [sep] + b', c, sep);
      SplitSnoc(b', c, sep);
      ExtendLast(Split(a, sep), Split(b', sep), c, sep);
    }
  }

  /** Extending the last piece of `pa + pb`, or starting a new one, only touches `pb`. */
  lemma ExtendLast(pa: seq<string>, pb: seq<string>, c: char, sep: char)
    requires |pb| > 0
    ensures var p := pa + pb;
      (if c == sep then p + [""] else p[..|p| - 1] + [p[|p| - 1] + [c]]) ==
      pa + (if c == sep then pb + [""] else pb[..|pb| - 1] + [pb[|pb| - 1] + [c]])
  {
    var p := pa + pb;
    if c != sep {
      assert p[..|p| - 1] == pa + pb[..|pb| - 1];
    }
  }

  /** Separators placed by `Join` are found again by `Split` when no piece holds one. */
  lemma {:induction false} SplitJoin(xs: seq<string>, sep: char)
    requires |xs| > 0
    requires forall i :: 0 <= i < |xs| ==> sep !in xs[i]
    ensures Split(Join(xs, sep), sep) == xs
  {
    if |xs| == 1 {
      SplitNoSeparator(xs[0], sep);
    } else {
      var init := xs[..|xs| - 1];
      SplitJoin(init, sep);
      SplitAppend(Join(init, sep), xs[|xs| - 1], sep);
      SplitNoSeparator(xs[|xs| - 1], sep);
      assert init + [xs[|xs| - 1]] == xs;
    }
  }

  lemma {:induction false} SplitTerminatedThen(xs: seq<string>, x: string, sep: char)
    requires sep !in x
    requires forall i :: 0 <= i < |xs| ==> sep !in xs[i]
    ensures Split(Terminated(xs, sep) + x, sep) == xs + [x]
  {
    if |xs| == 0 {
      assert Terminated(xs, sep) + x == x;
      SplitNoSeparator(x, sep);
    } else {
      var init := xs[..|xs| - 1];
      var last := xs[|xs| - 1];
      assert Terminated(xs, sep) + x == (Terminated(init, sep) + last) + [sep] + x;
      SplitAppend(Terminated(init, sep) + last, x, sep);
      SplitTerminatedThen(init, last, sep);
      SplitNoSeparator(x, sep);
      assert init + [last] == xs;
    }
  }

  /** Text of terminated lines splits into those lines and one empty piece after the last terminator. */
  lemma SplitTerminated(xs: seq<string>, sep: char)
    requires forall i :: 0 <= i < |xs| ==> sep !in xs[i]
    ensures Split(Terminated(xs, sep), sep) == xs + [""]
  {
    assert Terminated(xs, sep) + "" == Terminated(xs, sep);
    SplitTerminatedThen(xs, "", sep);
  }

  lemma {:induction false} TerminatedAppend(xs: seq<string>, ys: seq<string>, sep: char)
    ensures Terminated(xs + ys, sep) == Terminated(xs, sep) + Terminated(ys, sep)
    decreases |ys|
  {
    if |ys| == 0 {
      assert xs + ys == xs;
    } else {
      var init := ys[..|ys| - 1];
      assert (xs + ys)[..|xs + ys| - 1] == xs + init;
      TerminatedAppend(xs, init, sep);
    }
  }

  lemma AppendAssoc<T>(a: seq<T>, b: seq<T>, c: seq<T>)
    ensures a + (b + c) == a + b + c
  {
  }

  /** The first `c` after a prefix free of `c` is the one that follows the prefix. */
  lemma FirstIndexAfter(a: string, c: char, b: string)
    requires c !in a
    ensures FirstIndex(a + [c] + b, c) == |a|
  {
    var s := a + [c] + b;
    assert s[|a|] == c;
    assert forall j :: 0 <= j < |a| ==> s[j] == a[j];
  }
}
