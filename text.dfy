/** The parts of java.lang.String and java.lang.Long that the logged lines and the
    SQL utilities depend on: trim(), toLowerCase() on ASCII, decimal rendering of
    integers, startsWith() and replace(). */
module Text {

  /** The characters String.trim() removes: every code point up to U+0020. */
  predicate IsBlank(c: char) { c <= ' ' }

  /** A string that String.trim() leaves alone. */
  predicate IsTrimmed(s: string) {
    s == [] || (!IsBlank(s[0]) && !IsBlank(s[|s| - 1]))
  }

  predicate AllBlank(s: string) {
    forall i :: 0 <= i < |s| ==> IsBlank(s[i])
  }

  /** Number of leading blanks. */
  function Lead(s: string): (k: nat)
    ensures k <= |s|
    ensures AllBlank(s[..k])
    ensures k < |s| ==> !IsBlank(s[k])
  {
    if s == [] || !IsBlank(s[0]) then 0
    else
      var k := 1 + Lead(s[1..]);
      assert s[..k] == [s[0]] + s[1..][..k - 1];
      k
  }

  /** Length of s without its trailing blanks. */
  function Trail(s: string): (k: nat)
    ensures k <= |s|
    ensures AllBlank(s[k..])
    ensures k > 0 ==> !IsBlank(s[k - 1])
  {
    if s == [] || !IsBlank(s[|s| - 1]) then |s|
    else
      var k := Trail(s[..|s| - 1]);
      assert s[k..] == s[..|s| - 1][k..] + [s[|s| - 1]];
      k
  }

  /** String.trim(): the blanks at both ends removed; a string of blanks only becomes empty. */
  function Trim(s: string): (r: string)
    ensures IsTrimmed(r)
    ensures r == [] <==> AllBlank(s)
  {
    var lo := Lead(s);
    if lo == |s| then
      assert s[..lo] == s;
      []
    else
      var hi := Trail(s);
      assert lo < hi;
      assert !AllBlank(s) by { assert s[lo] == s[..|s|][lo]; }
      assert s[lo..hi][0] == s[lo] && s[lo..hi][hi - lo - 1] == s[hi - 1];
      s[lo..hi]
  }

  /** What trim() removes is blank, and what it keeps is a contiguous part of the input. */
  lemma TrimInfix(s: string)
    ensures Lead(s) + |Trim(s)| <= |s|
    ensures s == s[..Lead(s)] + Trim(s) + s[Lead(s) + |Trim(s)|..]
    ensures AllBlank(s[Lead(s) + |Trim(s)|..])
  {
    var lo := Lead(s);
    if lo == |s| {
      assert s[..lo] == s;
    } else {
      var hi := Trail(s);
      assert lo < hi;
      assert s == s[..lo] + s[lo..hi] + s[hi..];
    }
  }

  /** Trimming twice is trimming once. */
  lemma TrimIdempotent(s: string)
    ensures Trim(Trim(s)) == Trim(s)
  {
    var t := Trim(s);
    if t != [] {
      assert Lead(t) == 0;
      assert Trail(t) == |t|;
      assert t[0..|t|] == t;
    }
  }

  /** Blanks in front of a non-blank character are exactly what Lead counts. */
  lemma {:induction false} LeadOf(pre: string, rest: string)
    requires AllBlank(pre) && rest != [] && !IsBlank(rest[0])
    ensures Lead(pre + rest) == |pre|
    decreases |pre|
  {
    if pre == [] {
      assert pre + rest == rest;
    } else {
      var s := pre + rest;
      assert s[0] == pre[0] && IsBlank(pre[0]);
      assert s[1..] == pre[1..] + rest;
      var tail := pre[1..];
      assert AllBlank(tail) by {
        forall i | 0 <= i < |tail|
          ensures IsBlank(tail[i])
        {
          assert tail[i] == pre[i + 1];
        }
      }
      LeadOf(pre[1..], rest);
    }
  }

  /** Blanks after a non-blank character are exactly what Trail cuts off. */
  lemma {:induction false} TrailOf(core: string, post: string)
    requires AllBlank(post) && core != [] && !IsBlank(core[|core| - 1])
    ensures Trail(core + post) == |core|
    decreases |post|
  {
    if post == [] {
      assert core + post == core;
    } else {
      var s := core + post;
      assert s[|s| - 1] == post[|post| - 1] && IsBlank(post[|post| - 1]);
      assert s[..|s| - 1] == core + post[..|post| - 1];
      var init := post[..|post| - 1];
      assert AllBlank(init) by {
        forall i | 0 <= i < |init|
          ensures IsBlank(init[i])
        {
          assert init[i] == post[i];
        }
      }
      TrailOf(core, post[..|post| - 1]);
    }
  }

  /** trim() gives back the non-blank core from between blanks. */
  lemma TrimOf(pre: string, core: string, post: string)
    requires AllBlank(pre) && AllBlank(post) && core != [] && IsTrimmed(core)
    ensures Trim(pre + core + post) == core
  {
    var s := pre + core + post;
    assert s == pre + (core + post);
    LeadOf(pre, core + post);
    TrailOf(pre + core, post);
    assert s[|pre|..|pre| + |core|] == core;
  }

  predicate StartsWith(s: string, prefix: string) {
    |prefix| <= |s| && s[..|prefix|] == prefix
  }

  lemma Associative(a: string, b: string, c: string)
    ensures (a + b) + c == a + (b + c)
  {
  }

  /** A prefix of a string is a prefix of anything appended to it. */
  lemma StartsWithExtend(s: string, more: string, prefix: string)
    requires StartsWith(s, prefix)
    ensures StartsWith(s + more, prefix)
  {
    assert (s + more)[..|prefix|] == s[..|prefix|];
  }

  /** toLowerCase() restricted to ASCII letters; other characters are kept. */
  function LowerChar(c: char): (r: char)
    ensures 'A' <= c <= 'Z' ==> 'a' <= r <= 'z' && r as int == c as int + 32
    ensures !('A' <= c <= 'Z') ==> r == c
  {
    if 'A' <= c <= 'Z' then (c as int + 32) as char else c
  }

  function Lower(s: string): (r: string)
    ensures |r| == |s|
    ensures forall i :: 0 <= i < |s| ==> r[i] == LowerChar(s[i])
  {
    seq(|s|, i requires 0 <= i < |s| => LowerChar(s[i]))
  }

  // ---------------------------------------------------------------------
  // Decimal rendering, as "" + n for int and long values

  predicate IsDigit(c: char) { '0' <= c <= '9' }

  /** The characters a rendered integer is made of. */
  predicate IsNumeral(c: char) { IsDigit(c) || c == '-' }

  predicate AllNumeral(s: string) {
    forall i :: 0 <= i < |s| ==> IsNumeral(s[i])
  }

  function DigitChar(d: nat): (c: char)
    requires d < 10
    ensures IsDigit(c)
  {
    (48 + d) as char
  }

  function NatToString(n: nat): (r: string)
    ensures r != [] && IsDigit(r[0])
    ensures forall i :: 0 <= i < |r| ==> IsDigit(r[i])
    ensures n < 10 <==> |r| == 1
  {
    if n < 10 then [DigitChar(n)]
    else
      var front := NatToString(n / 10);
      front + [DigitChar(n % 10)]
  }

  /** Long.toString / Integer.toString: a minus sign before the digits of a negative value. */
  function IntToString(n: int): (r: string)
    ensures r != [] && AllNumeral(r)
    ensures n < 0 <==> r[0] == '-'
  {
    if n < 0 then "-" + NatToString(-n) else NatToString(n)
  }

  /** Different values are rendered differently. */
  lemma {:induction false} NatToStringInjective(a: nat, b: nat)
    requires NatToString(a) == NatToString(b)
    ensures a == b
  {
    var ra, rb := NatToString(a), NatToString(b);
    if a >= 10 && b >= 10 {
      assert ra[..|ra| - 1] == NatToString(a / 10);
      assert rb[..|rb| - 1] == NatToString(b / 10);
      NatToStringInjective(a / 10, b / 10);
      assert DigitChar(a % 10) == ra[|ra| - 1] == DigitChar(b % 10);
    }
  }

  lemma IntToStringInjective(a: int, b: int)
    requires IntToString(a) == IntToString(b)
    ensures a == b
  {
    if a < 0 {
      assert NatToString(-a) == IntToString(a)[1..] == IntToString(b)[1..] == NatToString(-b);
      NatToStringInjective(-a, -b);
    } else {
      NatToStringInjective(a, b);
    }
  }

  /** Length of the run of numerals a string starts with. */
  function NumeralRun(s: string): (k: nat)
    ensures k <= |s|
  {
    if s == [] || !IsNumeral(s[0]) then 0 else 1 + NumeralRun(s[1..])
  }

  lemma {:induction false} NumeralRunOf(a: string, b: string)
    requires AllNumeral(a)
    requires b == [] || !IsNumeral(b[0])
    ensures NumeralRun(a + b) == |a|
  {
    if a != [] {
      assert (a + b)[1..] == a[1..] + b;
      NumeralRunOf(a[1..], b);
    } else {
      assert a + b == b;
    }
  }

  /** A rendered number followed by a non-numeral, or by nothing, can be cut off again unambiguously:
      the basis for reading identities and times back out of a log line. */
  lemma SplitAfterNumeral(a: string, b: string, a': string, b': string)
    requires AllNumeral(a) && AllNumeral(a')
    requires b == [] || !IsNumeral(b[0])
    requires b' == [] || !IsNumeral(b'[0])
    requires a + b == a' + b'
    ensures a == a' && b == b'
  {
    NumeralRunOf(a, b);
    NumeralRunOf(a', b');
    assert a == (a + b)[..|a|] == (a' + b')[..|a|] == a';
    assert b == (a + b)[|a|..] == (a' + b')[|a|..] == b';
  }

  // ---------------------------------------------------------------------
  // String.replace(CharSequence, CharSequence)

  /** Every non-overlapping occurrence of `target`, scanning from the left, replaced by `replacement`. */
  function Replace(s: string, target: string, replacement: string): (r: string)
    requires target != []
    decreases |s|
  {
    if |s| < |target| then s
    else if s[..|target|] == target then replacement + Replace(s[|target|..], target, replacement)
    else [s[0]] + Replace(s[1..], target, replacement)
  }

  /** Text without the first character of the target passes through unchanged. */
  lemma {:induction false} ReplaceSkips(a: string, b: string, target: string, replacement: string)
    requires target != [] && target[0] !in a
    ensures Replace(a + b, target, replacement) == a + Replace(b, target, replacement)
    decreases |a|
  {
    if a != [] {
      var s := a + b;
      if |s| < |target| {
        ReplaceShort(b, target, replacement);
      } else {
        assert s[..|target|][0] == a[0] != target[0];
        assert s[1..] == a[1..] + b;
        ReplaceSkips(a[1..], b, target, replacement);
      }
    } else {
      assert a + b == b;
    }
  }

  lemma ReplaceShort(s: string, target: string, replacement: string)
    requires target != [] && |s| < |target|
    ensures Replace(s, target, replacement) == s
  {
  }

  lemma ReplaceAbsent(s: string, target: string, replacement: string)
    requires target != [] && target[0] !in s
    ensures Replace(s, target, replacement) == s
  {
    ReplaceSkips(s, [], target, replacement);
    assert s + [] == s;
  }
}
