/** The string operations of Python that the application relies on, stated
    over `seq<char>`: `str.isspace`, `strip`, `lstrip`, `replace(c, '')`,
    ASCII case folding, substring search, `join`, `str(n)`, counting, and
    the grammar `int(x, base)` accepts. */
module Text {
  import opened Common

  /** Python's `str.isspace` for one character: the ASCII controls 9-13 and
      28-31, the space, and the Unicode spaces U+0085, U+00A0, U+1680,
      U+2000-U+200A, U+2028, U+2029, U+202F, U+205F, U+3000. */
  predicate IsSpace(c: char) {
    var n := c as int;
    (9 <= n <= 13) || (28 <= n <= 32) || n == 0x85 || n == 0xA0 || n == 0x1680
    || (0x2000 <= n <= 0x200A) || n == 0x2028 || n == 0x2029 || n == 0x202F
    || n == 0x205F || n == 0x3000
  }

  predicate AllSpace(s: string) {
    forall i :: 0 <= i < |s| ==> IsSpace(s[i])
  }

  /** Python's `s.lstrip()`. */
  function StripLeft(s: string): string {
    if s != [] && IsSpace(s[0]) then StripLeft(s[1..]) else s
  }

  /** Python's `s.rstrip()`. */
  function StripRight(s: string): string {
    if s != [] && IsSpace(s[|s| - 1]) then StripRight(s[..|s| - 1]) else s
  }

  /** Python's `s.strip()`. */
  function Strip(s: string): string {
    StripRight(StripLeft(s))
  }

  /** `lstrip` cuts off a run of whitespace and stops at a non-space. */
  lemma {:induction false} StripLeftShape(s: string) returns (p: string)
    ensures s == p + StripLeft(s) && AllSpace(p)
    ensures StripLeft(s) == [] || !IsSpace(StripLeft(s)[0])
  {
    if s != [] && IsSpace(s[0]) {
      var first, rest := s[0], s[1..];
      var p' := StripLeftShape(rest);
      p := [first] + p';
      assert StripLeft(s) == StripLeft(rest);
      assert s == [first] + rest;
      assert [first] + rest == [first] + p' + StripLeft(rest);
      AllSpaceCons(first, p');
    } else {
      p := [];
    }
  }

  /** `rstrip` cuts off a run of whitespace and stops at a non-space. */
  lemma {:induction false} StripRightShape(s: string) returns (q: string)
    ensures s == StripRight(s) + q && AllSpace(q)
    ensures StripRight(s) == [] || !IsSpace(StripRight(s)[|StripRight(s)| - 1])
  {
    if s != [] && IsSpace(s[|s| - 1]) {
      var init, last := s[..|s| - 1], s[|s| - 1];
      var q' := StripRightShape(init);
      q := q' + [last];
      assert StripRight(s) == StripRight(init);
      assert s == init + [last];
      assert init + [last] == StripRight(init) + q' + [last];
      assert StripRight(init) + q' + [last] == StripRight(init) + q;
      AllSpaceSnoc(q', last);
    } else {
      q := [];
    }
  }

  lemma AllSpaceCons(c: char, p: string)
    requires IsSpace(c) && AllSpace(p)
    ensures AllSpace([c] + p)
  {
    forall k | 0 <= k < |[c] + p|
      ensures IsSpace(([c] + p)[k])
    {
      if k > 0 {
        assert ([c] + p)[k] == p[k - 1];
      }
    }
  }

  lemma AllSpaceSnoc(q: string, c: char)
    requires AllSpace(q) && IsSpace(c)
    ensures AllSpace(q + [c])
  {
    forall k | 0 <= k < |q + [c]|
      ensures IsSpace((q + [c])[k])
    {
      if k < |q| {
        assert (q + [c])[k] == q[k];
      }
    }
  }

  /** Leading whitespace is skipped by `StripLeft` whatever follows it. */
  lemma {:induction false} StripLeftSpaces(p: string, x: string)
    requires AllSpace(p)
    ensures StripLeft(p + x) == StripLeft(x)
  {
    if p != [] {
      assert (p + x)[0] == p[0];
      assert (p + x)[1..] == p[1..] + x;
      StripLeftSpaces(p[1..], x);
    } else {
      assert p + x == x;
    }
  }

  /** Trailing whitespace is skipped by `StripRight` whatever precedes it. */
  lemma {:induction false} StripRightSpaces(x: string, q: string)
    requires AllSpace(q)
    ensures StripRight(x + q) == StripRight(x)
  {
    if q != [] {
      var n := |x + q|;
      assert (x + q)[n - 1] == q[|q| - 1];
      assert (x + q)[..n - 1] == x + q[..|q| - 1];
      StripRightSpaces(x, q[..|q| - 1]);
    } else {
      assert x + q == x;
    }
  }

  /** `Strip` is characterised by its result: whatever is cut off on either
      side is whitespace, and what remains starts and ends with a
      non-space character (or is empty). */
  lemma StripUnique(s: string, p: string, m: string, q: string)
    requires s == p + m + q && AllSpace(p) && AllSpace(q)
    requires m == [] || (!IsSpace(m[0]) && !IsSpace(m[|m| - 1]))
    ensures Strip(s) == m
  {
    assert s == p + (m + q);
    StripLeftSpaces(p, m + q);
    if m == [] {
      assert m + q == q + [];
      StripLeftSpaces(q, []);
    } else {
      assert (m + q)[0] == m[0];
      assert StripLeft(m + q) == m + q;
      StripRightSpaces(m, q);
    }
  }

  /** `s` is the whitespace `Strip` cuts off in front, the result, and the
      whitespace it cuts off behind; the result has no surrounding whitespace. */
  lemma StripSplit(s: string) returns (p: string, q: string)
    ensures s == p + Strip(s) + q && AllSpace(p) && AllSpace(q)
  {
    p := StripLeftShape(s);
    q := StripRightShape(StripLeft(s));
  }

  /** What `Strip` returns neither starts nor ends with whitespace. */
  lemma StripEnds(s: string)
    ensures Strip(s) == [] || (!IsSpace(Strip(s)[0]) && !IsSpace(Strip(s)[|Strip(s)| - 1]))
  {
    var l := StripLeft(s);
    var _ := StripLeftShape(s);
    var q := StripRightShape(l);
    var r := StripRight(l);
    if r != [] {
      assert l == r + q;
      assert r[0] == l[0];
    }
  }

  lemma StripIdempotent(s: string)
    ensures Strip(Strip(s)) == Strip(s)
  {
    StripEnds(s);
    StripNoop(Strip(s));
  }

  /** A string without surrounding whitespace is left as it is. */
  lemma StripNoop(s: string)
    requires s == [] || (!IsSpace(s[0]) && !IsSpace(s[|s| - 1]))
    ensures Strip(s) == s
  {
    assert s == [] + s + [];
    StripUnique(s, [], s, []);
  }

  lemma AllSpaceAppend(a: string, b: string)
    requires AllSpace(a) && AllSpace(b)
    ensures AllSpace(a + b)
  {
    forall i | 0 <= i < |a + b| ensures IsSpace((a + b)[i]) {
      if i < |a| { assert (a + b)[i] == a[i]; } else { assert (a + b)[i] == b[i - |a|]; }
    }
  }

  /** Trailing whitespace does not change what `Strip` returns. */
  lemma StripTrailingSpace(s: string, c: char)
    requires IsSpace(c)
    ensures Strip(s + [c]) == Strip(s)
  {
    var p, q := StripSplit(s);
    StripEnds(s);
    var m := Strip(s);
    assert s + [c] == p + m + (q + [c]);
    AllSpaceAppend(q, [c]);
    StripUnique(s + [c], p, m, q + [c]);
  }

  /** Leading whitespace does not change what `Strip` returns. */
  lemma StripLeadingSpace(s: string, c: char)
    requires IsSpace(c)
    ensures Strip([c] + s) == Strip(s)
  {
    var p, q := StripSplit(s);
    StripEnds(s);
    var m := Strip(s);
    assert [c] + s == ([c] + p) + m + q;
    AllSpaceAppend([c], p);
    StripUnique([c] + s, [c] + p, m, q);
  }

  /** Python's `s.replace(c, '')`: every occurrence of `c` removed. */
  function RemoveChar(s: string, c: char): (r: string)
    ensures c !in r
    ensures |r| <= |s|
    ensures forall x :: x in r <==> x in s && x != c
  {
    if s == [] then []
    else (if s[0] == c then [] else [s[0]]) + RemoveChar(s[1..], c)
  }

  lemma {:induction false} RemoveCharAppend(a: string, b: string, c: char)
    ensures RemoveChar(a + b, c) == RemoveChar(a, c) + RemoveChar(b, c)
  {
    if a != [] {
      assert (a + b)[0] == a[0];
      assert (a + b)[1..] == a[1..] + b;
      RemoveCharAppend(a[1..], b, c);
    } else {
      assert a + b == b;
    }
  }

  /** Removing a character that does not occur changes nothing. */
  lemma {:induction false} RemoveCharAbsent(s: string, c: char)
    requires c !in s
    ensures RemoveChar(s, c) == s
  {
    if s != [] {
      assert c !in s[1..];
      RemoveCharAbsent(s[1..], c);
      assert s == [s[0]] + s[1..];
    }
  }

  /** A string made only of `c` vanishes entirely. */
  lemma {:induction false} RemoveCharAll(s: string, c: char)
    requires forall i :: 0 <= i < |s| ==> s[i] == c
    ensures RemoveChar(s, c) == []
  {
    if s != [] {
      RemoveCharAll(s[1..], c);
    }
  }

  /** When the only whitespace in `s` is the plain space, stripping before
      removing the spaces makes no difference. */
  lemma RemoveSpacesAfterStrip(s: string)
    requires forall i :: 0 <= i < |s| && IsSpace(s[i]) ==> s[i] == ' '
    ensures RemoveChar(Strip(s), ' ') == RemoveChar(s, ' ')
  {
    var p, q := StripSplit(s);
    var m := Strip(s);
    SpacesAround(s, p, m, q);
    RemoveCharAppend(p + m, q, ' ');
    RemoveCharAppend(p, m, ' ');
    RemoveCharAll(p, ' ');
    RemoveCharAll(q, ' ');
  }

  /** Whitespace cut from a string whose only whitespace is the plain space
      is made of plain spaces. */
  lemma SpacesAround(s: string, p: string, m: string, q: string)
    requires s == p + m + q && AllSpace(p) && AllSpace(q)
    requires forall i :: 0 <= i < |s| && IsSpace(s[i]) ==> s[i] == ' '
    ensures forall k :: 0 <= k < |p| ==> p[k] == ' '
    ensures forall k :: 0 <= k < |q| ==> q[k] == ' '
  {
    forall k | 0 <= k < |p|
      ensures p[k] == ' '
    {
      assert s[k] == p[k];
    }
    forall k | 0 <= k < |q|
      ensures q[k] == ' '
    {
      assert s[|p| + |m| + k] == q[k];
    }
  }

  /** Python's `value.lstrip(c)`: every leading `c` removed. */
  function StripLeftChar(s: string, c: char): (r: string)
    ensures |r| <= |s| && r == s[|s| - |r|..]
    ensures forall i :: 0 <= i < |s| - |r| ==> s[i] == c
    ensures r == [] || r[0] != c
  {
    if s != [] && s[0] == c then StripLeftChar(s[1..], c) else s
  }

  /** ASCII case folding, the case-insensitive comparison `icontains` makes. */
  function LowerChar(c: char): char {
    if 'A' <= c <= 'Z' then (c as int + 32) as char else c
  }

  function Lower(s: string): (r: string)
    ensures |r| == |s| && forall i :: 0 <= i < |s| ==> r[i] == LowerChar(s[i])
  {
    seq(|s|, i requires 0 <= i < |s| => LowerChar(s[i]))
  }

  /** `needle` occurs in `hay` as a contiguous piece. */
  predicate Contains(hay: string, needle: string)
    decreases |hay|
  {
    |needle| <= |hay| && (hay[..|needle|] == needle || (hay != [] && Contains(hay[1..], needle)))
  }

  /** SQL `LIKE '%needle%'` without regard to (ASCII) case: Django's `icontains`. */
  predicate ContainsIgnoringCase(hay: string, needle: string) {
    Contains(Lower(hay), Lower(needle))
  }

  /** Python's `sep.join(parts)`. */
  function Join(sep: string, parts: seq<string>): string
  {
    if |parts| == 0 then ""
    else if |parts| == 1 then parts[0]
    else parts[0] + sep + Join(sep, parts[1..])
  }

  lemma {:induction false} JoinAppend(sep: string, parts: seq<string>, x: string)
    requires parts != []
    ensures Join(sep, parts + [x]) == Join(sep, parts) + sep + x
  {
    if |parts| == 1 {
      assert (parts + [x])[1..] == [x];
    } else {
      assert (parts + [x])[1..] == parts[1..] + [x];
      JoinAppend(sep, parts[1..], x);
    }
  }

  /** Joining from position `j` puts `parts[j]` and a separator in front of
      the join from `j + 1`. */
  lemma JoinFrom(sep: string, parts: seq<string>, j: nat)
    requires j + 1 < |parts|
    ensures Join(sep, parts[j..]) == parts[j] + sep + Join(sep, parts[j + 1..])
  {
    assert parts[j..][1..] == parts[j + 1..];
  }

  /** Number of occurrences of the character `c` in `s`. */
  function CountChar(c: char, s: string): nat {
    if s == [] then 0 else (if s[0] == c then 1 else 0) + CountChar(c, s[1..])
  }

  lemma {:induction false} CountCharAppend(c: char, a: string, b: string)
    ensures CountChar(c, a + b) == CountChar(c, a) + CountChar(c, b)
  {
    if a != [] {
      assert (a + b)[0] == a[0];
      assert (a + b)[1..] == a[1..] + b;
      CountCharAppend(c, a[1..], b);
    } else {
      assert a + b == b;
    }
  }

  /** Total number of occurrences of `c` over all the parts. */
  function CountInParts(c: char, parts: seq<string>): nat {
    if parts == [] then 0 else CountChar(c, parts[0]) + CountInParts(c, parts[1..])
  }

  /** Joining adds exactly one separator between neighbouring parts. */
  lemma {:induction false} CountCharJoin(c: char, sep: string, parts: seq<string>)
    requires parts != []
    ensures CountChar(c, Join(sep, parts)) == CountInParts(c, parts) + (|parts| - 1) * CountChar(c, sep)
  {
    if |parts| == 1 {
      assert parts[1..] == [];
    } else {
      CountCharJoin(c, sep, parts[1..]);
      CountCharAppend(c, parts[0] + sep, Join(sep, parts[1..]));
      CountCharAppend(c, parts[0], sep);
      var n := CountChar(c, sep);
      assert (|parts| - 1) * n == (|parts[1..]| - 1) * n + n;
    }
  }

  function DigitChar(d: nat): char
    requires d < 10
  {
    ('0' as int + d) as char
  }

  /** Python's `str(n)` for a natural number. */
  function NatToString(n: nat): (r: string)
    ensures |r| >= 1
    ensures forall i :: 0 <= i < |r| ==> '0' <= r[i] <= '9'
  {
    if n < 10 then [DigitChar(n)] else NatToString(n / 10) + [DigitChar(n % 10)]
  }

  predicate IsAsciiDigit(c: char) {
    '0' <= c <= '9'
  }

  /** The value of a digit in bases up to 16; 36 for anything that is not a
      hexadecimal digit (so it is no digit of any base up to 16). */
  function DigitValue(c: char): nat {
    if '0' <= c <= '9' then c as int - '0' as int
    else if 'a' <= c <= 'f' then c as int - 'a' as int + 10
    else if 'A' <= c <= 'F' then c as int - 'A' as int + 10
    else 36
  }

  /** Digits of `base`, single underscores allowed between two digits. */
  predicate UnderscoredDigits(s: string, base: nat) {
    && |s| > 0
    && DigitValue(s[0]) < base
    && DigitValue(s[|s| - 1]) < base
    && (forall i :: 0 <= i < |s| ==> s[i] == '_' || DigitValue(s[i]) < base)
    && (forall i :: 0 <= i < |s| - 1 ==> !(s[i] == '_' && s[i + 1] == '_'))
  }

  /** The number the digits of `s` denote, underscores skipped. */
  function DigitsValue(s: string, base: nat): nat {
    if s == [] then 0
    else if s[|s| - 1] == '_' || DigitValue(s[|s| - 1]) >= base then DigitsValue(s[..|s| - 1], base)
    else DigitsValue(s[..|s| - 1], base) * base + DigitValue(s[|s| - 1])
  }

  /** The sign of a number literal: whether it is negative, and the rest. */
  function SplitSign(t: string): (bool, string) {
    if t != [] && (t[0] == '+' || t[0] == '-') then (t[0] == '-', t[1..]) else (false, t)
  }

  /** For base 16, an optional `0x`/`0X` prefix, which may be followed by one
      underscore, is skipped. */
  function SkipPrefix(u: string, base: nat): string {
    if base == 16 && |u| >= 2 && u[0] == '0' && (u[1] == 'x' || u[1] == 'X') then
      var b := u[2..];
      if |b| > 0 && b[0] == '_' then b[1..] else b
    else u
  }

  /** Python's `int(s, base)` for base 10 or 16: surrounding whitespace, an
      optional sign, for base 16 an optional prefix, then the digits with
      single underscores between them. `None` is the `ValueError`. Only
      ASCII digits are recognised. */
  function PyInt(s: string, base: nat): Option<int>
    requires base == 10 || base == 16
  {
    var t := Strip(s);
    if t == [] then None
    else
      var (neg, u) := SplitSign(t);
      var digits := SkipPrefix(u, base);
      if UnderscoredDigits(digits, base) then
        var v: int := DigitsValue(digits, base);
        Some(if neg then -v else v)
      else None
  }

  /** A non-empty string of hexadecimal digits is accepted by `int(s, 16)`. */
  lemma HexDigitsParse(s: string)
    requires |s| > 0 && forall i :: 0 <= i < |s| ==> DigitValue(s[i]) < 16
    ensures PyInt(s, 16).Some?
  {
    assert DigitValue(s[0]) < 16 && DigitValue(s[|s| - 1]) < 16;
    StripNoop(s);
    assert SplitSign(s) == (false, s);
    assert |s| >= 2 ==> DigitValue(s[1]) < 16;
    assert SkipPrefix(s, 16) == s;
    assert UnderscoredDigits(s, 16);
  }

  /** Two ASCII digits are read by `int(s)` as the number they spell. */
  lemma TwoDigitsParse(s: string)
    requires |s| == 2 && IsAsciiDigit(s[0]) && IsAsciiDigit(s[1])
    ensures PyInt(s, 10) == Some(10 * DigitValue(s[0]) + DigitValue(s[1]))
  {
    StripNoop(s);
    assert SplitSign(s) == (false, s);
    assert SkipPrefix(s, 10) == s;
    assert UnderscoredDigits(s, 10);
    assert s[..1][..0] == [];
    assert s[..|s| - 1] == s[..1];
    assert DigitsValue(s[..1], 10) == DigitValue(s[0]);
  }
}
