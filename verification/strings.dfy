/** The part of Go's `strings` and `strconv` packages the log pipeline relies on,
    over byte strings: a Go `string` is a sequence of bytes, and `len`, indexing
    and slicing count bytes. A byte is modelled as a `char` below 256. */
module Strings {

  type Byte = c: char | c as int < 256 witness ' '
  type Bytes = seq<Byte>

  /** `strings.HasPrefix` */
  predicate HasPrefix(s: Bytes, prefix: Bytes) {
    |prefix| <= |s| && s[..|prefix|] == prefix
  }

  /** `strings.Repeat(" ", n)` */
  function Spaces(n: nat): (r: Bytes)
    ensures |r| == n
    ensures forall i :: 0 <= i < n ==> r[i] == ' '
  {
    seq(n, _ => ' ')
  }

  /** Every byte is the blank ' ' (as `Spaces(n)` writes). */
  predicate AllBlanks(s: Bytes) {
    forall i :: 0 <= i < |s| ==> s[i] == ' '
  }

  // ---------------------------------------------------------------------------
  // ASCII case folding (`strings.ToLower`, `strings.EqualFold` on ASCII text)

  predicate IsUpper(b: Byte) { 'A' <= b <= 'Z' }

  function LowerByte(b: Byte): (r: Byte)
    ensures IsUpper(b) ==> r as int == b as int + 32
    ensures !IsUpper(b) ==> r == b
    ensures !IsUpper(r)
  {
    if IsUpper(b) then (b as int + 32) as char else b
  }

  function UpperByte(b: Byte): (r: Byte)
    ensures 'a' <= b <= 'z' ==> r as int == b as int - 32
    ensures !('a' <= b <= 'z') ==> r == b
  {
    if 'a' <= b <= 'z' then (b as int - 32) as char else b
  }

  function ToLower(s: Bytes): (r: Bytes)
    ensures |r| == |s|
    ensures forall i :: 0 <= i < |s| ==> r[i] == LowerByte(s[i])
  {
    seq(|s|, i requires 0 <= i < |s| => LowerByte(s[i]))
  }

  function ToUpper(s: Bytes): (r: Bytes)
    ensures |r| == |s|
    ensures forall i :: 0 <= i < |s| ==> r[i] == UpperByte(s[i])
  {
    seq(|s|, i requires 0 <= i < |s| => UpperByte(s[i]))
  }

  /** `strings.EqualFold`, with ASCII folding */
  predicate EqualFold(a: Bytes, b: Bytes) {
    ToLower(a) == ToLower(b)
  }

  /** Case-insensitive equality is an equivalence relation. */
  lemma EqualFoldEquivalence(a: Bytes, b: Bytes, c: Bytes)
    ensures EqualFold(a, a)
    ensures EqualFold(a, b) ==> EqualFold(b, a)
    ensures EqualFold(a, b) && EqualFold(b, c) ==> EqualFold(a, c)
  {
  }

  // ---------------------------------------------------------------------------
  // `strings.TrimSpace` (the ASCII white-space set of Go's fast path)

  predicate IsSpace(b: Byte) {
    b == '\t' || b == '\n' || b == '\U{0B}' || b == '\U{0C}' || b == '\r' || b == ' '
  }

  predicate AllSpace(s: Bytes) {
    forall i :: 0 <= i < |s| ==> IsSpace(s[i])
  }

  /** Drops the leading white space: the result is the suffix starting at the
      first non-space byte. */
  function TrimLeft(s: Bytes): (r: Bytes)
    ensures |r| <= |s| && r == s[|s| - |r|..]
    ensures AllSpace(s[..|s| - |r|])
    ensures |r| > 0 ==> !IsSpace(r[0])
  {
    if |s| > 0 && IsSpace(s[0]) then TrimLeft(s[1..]) else s
  }

  /** Drops the trailing white space: the result is the prefix ending at the
      last non-space byte. */
  function TrimRight(s: Bytes): (r: Bytes)
    ensures |r| <= |s| && r == s[..|r|]
    ensures AllSpace(s[|r|..])
    ensures |r| > 0 ==> !IsSpace(r[|r| - 1])
  {
    if |s| > 0 && IsSpace(s[|s| - 1]) then TrimRight(s[..|s| - 1]) else s
  }

  function TrimSpace(s: Bytes): (r: Bytes)
    ensures exists i, j :: 0 <= i <= j <= |s| && r == s[i..j] && AllSpace(s[..i]) && AllSpace(s[j..])
    ensures |r| > 0 ==> !IsSpace(r[0]) && !IsSpace(r[|r| - 1])
  {
    var l := TrimLeft(s);
    var r := TrimRight(l);
    TrimSpaceCut(s, l, r);
    r
  }

  /** Cutting `l` off the front and then `r` off the back leaves a slice. */
  lemma TrimSpaceCut(s: Bytes, l: Bytes, r: Bytes)
    requires |l| <= |s| && l == s[|s| - |l|..] && AllSpace(s[..|s| - |l|])
    requires |r| <= |l| && r == l[..|r|] && AllSpace(l[|r|..])
    ensures r == s[|s| - |l|..|s| - |l| + |r|] && AllSpace(s[|s| - |l| + |r|..])
  {
    var i, j := |s| - |l|, |s| - |l| + |r|;
    assert r == s[i..j];
    assert s[j..] == l[|r|..];
  }

  lemma {:induction false} TrimLeftSkipsLeadingSpace(w: Bytes, t: Bytes)
    requires AllSpace(w)
    ensures TrimLeft(w + t) == TrimLeft(t)
  {
    if |w| > 0 {
      assert (w + t)[1..] == w[1..] + t;
      TrimLeftSkipsLeadingSpace(w[1..], t);
    } else {
      assert w + t == t;
    }
  }

  /** Leading white space makes no difference to `TrimSpace`. */
  lemma TrimSpaceSkipsLeadingSpace(w: Bytes, t: Bytes)
    requires AllSpace(w)
    ensures TrimSpace(w + t) == TrimSpace(t)
  {
    TrimLeftSkipsLeadingSpace(w, t);
  }

  // ---------------------------------------------------------------------------
  // Decimal numerals (`strconv.Itoa`, `strconv.Atoi`)

  predicate IsDigit(b: Byte) { '0' <= b <= '9' }

  predicate AllDigits(s: Bytes) {
    forall i :: 0 <= i < |s| ==> IsDigit(s[i])
  }

  function DigitValue(b: Byte): (r: nat)
    requires IsDigit(b)
    ensures r < 10
  {
    b as int - '0' as int
  }

  function DigitByte(d: nat): (r: Byte)
    requires d < 10
    ensures IsDigit(r) && DigitValue(r) == d
  {
    ('0' as int + d) as char
  }

  /** The number a run of decimal digits denotes. */
  function Value(s: Bytes): nat
    requires AllDigits(s)
  {
    if |s| == 0 then 0 else 10 * Value(s[..|s| - 1]) + DigitValue(s[|s| - 1])
  }

  /** The decimal numeral of a natural number, without leading zeros. */
  function NatText(n: nat): (r: Bytes)
    ensures |r| >= 1 && AllDigits(r)
    ensures |r| > 1 ==> r[0] != '0'
  {
    if n < 10 then [DigitByte(n)] else NatText(n / 10) + [DigitByte(n % 10)]
  }

  /** `strconv.Itoa` */
  function Itoa(n: int): (r: Bytes)
    ensures |r| >= 1
  {
    if n < 0 then ['-'] + NatText(-n) else NatText(n)
  }

  /** Printing and reading back a numeral is the identity. */
  lemma {:induction false} ValueOfNatText(n: nat)
    ensures Value(NatText(n)) == n
  {
    if n >= 10 {
      var t := NatText(n);
      assert t[..|t| - 1] == NatText(n / 10);
      ValueOfNatText(n / 10);
    }
  }

}
