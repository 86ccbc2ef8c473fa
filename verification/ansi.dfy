/** Terminal colour as the printer sees it: the colour library wraps text in
    ANSI "select graphic rendition" escapes, and the printer's `trueLen`
    measures text with every `ESC '[' [0-9;]* ('m'|'K')` sequence removed. */
module Ansi {
  import opened Strings

  const Esc: Byte := '\U{1B}'

  /** The graphic-rendition parameters of a colour ("38;2;74;166;239", "35;1").
      Only the text the library writes matters here, not the colour it means. */
  datatype Style = Style(sgr: Bytes)

  const NoStyle := Style([])

  predicate IsParam(b: Byte) { IsDigit(b) || b == ';' }

  predicate ValidStyle(st: Style) {
    forall i :: 0 <= i < |st.sgr| ==> IsParam(st.sgr[i])
  }

  predicate NoEsc(s: Bytes) {
    forall i :: 0 <= i < |s| ==> s[i] != Esc
  }

  /** The escape that ends every coloured span. */
  const Reset: Bytes := [Esc, '[', '0', 'm']

  /** Renders `text` in a style, as the colour library does when colour output
      is on: an empty style leaves the text alone. */
  function Sprint(st: Style, text: Bytes): (r: Bytes)
  {
    if |st.sgr| == 0 then text else [Esc, '['] + st.sgr + ['m'] + text + Reset
  }

  // ---------------------------------------------------------------------------
  // Escape sequences and their removal (`trueLen`)

  /** `x` is exactly one sequence matched by `\x1b\[[0-9;]*[mK]`. */
  predicate IsCsi(x: Bytes) {
    && |x| >= 3
    && x[0] == Esc && x[1] == '['
    && (forall i :: 2 <= i < |x| - 1 ==> IsParam(x[i]))
    && (x[|x| - 1] == 'm' || x[|x| - 1] == 'K')
  }

  /** Number of parameter bytes of `s` from position `i` on. */
  function ParamRun(s: Bytes, i: nat): (k: nat)
    requires i <= |s|
    ensures i + k <= |s|
    ensures forall j :: i <= j < i + k ==> IsParam(s[j])
    ensures i + k < |s| ==> !IsParam(s[i + k])
    decreases |s| - i
  {
    if i < |s| && IsParam(s[i]) then 1 + ParamRun(s, i + 1) else 0
  }

  /** Length of the escape sequence `s` starts with, or 0 when it starts with
      none. The regex's `[0-9;]*` can only stop at the first byte that is not a
      parameter, so at most one prefix of `s` is a sequence. */
  function CsiLength(s: Bytes): (n: nat)
    ensures n <= |s|
    ensures n > 0 ==> IsCsi(s[..n])
    ensures n == 0 ==> forall m :: 0 <= m <= |s| ==> !IsCsi(s[..m])
  {
    if |s| >= 2 && s[0] == Esc && s[1] == '[' then
      var k := ParamRun(s, 2);
      if 2 + k < |s| && (s[2 + k] == 'm' || s[2 + k] == 'K') then
        assert s[..3 + k][3 + k - 1] == s[2 + k];
        3 + k
      else
        0
    else
      0
  }

  /** The escape sequence a string starts with is unique. */
  lemma CsiPrefixUnique(s: Bytes, m: nat)
    requires m <= |s| && IsCsi(s[..m])
    ensures CsiLength(s) == m
  {
  }

  /** `regexp.ReplaceAllString(s, "")` for the escape pattern: scanning left to
      right, every escape sequence is removed and every other byte is kept. */
  function Strip(s: Bytes): (r: Bytes)
    ensures |r| <= |s|
    decreases |s|
  {
    if |s| == 0 then []
    else if CsiLength(s) > 0 then Strip(s[CsiLength(s)..])
    else [s[0]] + Strip(s[1..])
  }

  /** `trueLen`: the byte length of `s` with its escape sequences removed. */
  function TrueLen(s: Bytes): (n: nat)
    ensures n <= |s|
  {
    |Strip(s)|
  }

  /** Text without an escape byte is left unchanged, so its `trueLen` is its
      length. */
  lemma {:induction false} StripNoEsc(s: Bytes)
    requires NoEsc(s)
    ensures Strip(s) == s
    ensures TrueLen(s) == |s|
  {
    if |s| > 0 {
      assert CsiLength(s) == 0;
      StripNoEsc(s[1..]);
      assert s == [s[0]] + s[1..];
    }
  }

  /** An escape sequence at the front is removed whatever follows it. */
  lemma StripCsiPrefix(x: Bytes, t: Bytes)
    requires IsCsi(x)
    ensures Strip(x + t) == Strip(t)
  {
    assert (x + t)[..|x|] == x;
    CsiPrefixUnique(x + t, |x|);
    assert (x + t)[|x|..] == t;
  }

  /** An escape sequence cannot run across the start of a string that begins
      with the escape byte. */
  lemma CsiLengthAppend(a: Bytes, b: Bytes)
    requires |a| > 0
    requires |b| == 0 || b[0] == Esc
    ensures CsiLength(a + b) == CsiLength(a)
  {
    var s := a + b;
    if |b| == 0 {
      assert s == a;
    } else {
      var n := CsiLength(s);
      if n > 0 {
        assert forall i :: 1 <= i < n ==> s[..n][i] != Esc;
        assert s[|a|] == b[0];
        assert n <= |a|;
        assert s[..n] == a[..n];
        CsiPrefixUnique(a, n);
      } else {
        assert forall m :: 0 <= m <= |a| ==> s[..m] == a[..m];
      }
    }
  }

  /** A string that starts with the escape byte cannot be glued into an escape
      sequence that began earlier: removal distributes over the concatenation. */
  lemma {:induction false} StripAppend(a: Bytes, b: Bytes)
    requires |b| == 0 || b[0] == Esc
    ensures Strip(a + b) == Strip(a) + Strip(b)
    decreases |a|
  {
    if |a| == 0 {
      assert a + b == b;
    } else {
      CsiLengthAppend(a, b);
      var n := CsiLength(a);
      if n > 0 {
        assert (a + b)[n..] == a[n..] + b;
        StripAppend(a[n..], b);
      } else {
        assert (a + b)[1..] == a[1..] + b;
        StripAppend(a[1..], b);
        assert (a + b)[0] == a[0];
      }
    }
  }

  /** Text without an escape byte in front of something else is kept verbatim. */
  lemma {:induction false} StripPlainPrefix(a: Bytes, b: Bytes)
    requires NoEsc(a)
    ensures Strip(a + b) == a + Strip(b)
    decreases |a|
  {
    if |a| > 0 {
      var s := a + b;
      assert s[0] == a[0];
      assert CsiLength(s) == 0;
      assert s[1..] == a[1..] + b;
      StripPlainPrefix(a[1..], b);
      assert a == [a[0]] + a[1..];
    } else {
      assert a + b == b;
    }
  }

  /** Colouring only adds escape sequences: once they are removed, the
      styled text is the text itself with its own escapes removed. */
  lemma StripSprint(st: Style, text: Bytes)
    requires ValidStyle(st)
    ensures Strip(Sprint(st, text)) == Strip(text)
  {
    if |st.sgr| > 0 {
      var open := [Esc, '['] + st.sgr + ['m'];
      assert IsCsi(open);
      assert IsCsi(Reset);
      StripAppend(text, Reset);
      StripCsiPrefix(Reset, []);
      assert Strip([]) == [];
      assert Sprint(st, text) == open + (text + Reset);
      StripCsiPrefix(open, text + Reset);
    }
  }
}
