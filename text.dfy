/**
 * The Python 2 string operations the plugin relies on, over byte strings
 * modelled as `seq<char>`: `split`, `rsplit(sep, 1)`, `strip`/`lstrip`
 * with and without a character set, `lower`, `splitlines`, `endswith`
 * and the decimal `int()` conversion.
 */
module Text {
  import opened Wrappers

  type String = seq<char>

  /** The bytes Python 2's `str.strip()` and `int()` treat as whitespace. */
  const Whitespace: set<char> := {' ', '\t', '\n', '\U{B}', '\U{C}', '\r'}

  // ---------------------------------------------------------------- strip

  /** `s.lstrip(cs)`: drop every leading character that is in `cs`. */
  function LStrip(s: String, cs: set<char>): (r: String)
    ensures |r| <= |s| && r == s[|s| - |r|..]
    ensures forall i :: 0 <= i < |s| - |r| ==> s[i] in cs
    ensures r == [] || r[0] !in cs
    decreases |s|
  {
    if |s| > 0 && s[0] in cs then LStrip(s[1..], cs) else s
  }

  /** `s.rstrip(cs)`: drop every trailing character that is in `cs`. */
  function RStrip(s: String, cs: set<char>): (r: String)
    ensures |r| <= |s| && r == s[..|r|]
    ensures forall i :: |r| <= i < |s| ==> s[i] in cs
    ensures r == [] || r[|r| - 1] !in cs
    decreases |s|
  {
    if |s| > 0 && s[|s| - 1] in cs then RStrip(s[..|s| - 1], cs) else s
  }

  /** `s.strip(cs)`: drop characters of `cs` from both ends. */
  function Strip(s: String, cs: set<char>): (r: String)
    ensures |r| <= |s|
    ensures r == [] || (r[0] !in cs && r[|r| - 1] !in cs)
  {
    RStrip(LStrip(s, cs), cs)
  }

  /**
   * What `strip` leaves is the infix of `s` that starts at the first
   * character not in `cs` and ends at the last one: everything before and
   * after it is in `cs`.
   */
  lemma StripInfix(s: String, cs: set<char>)
    ensures var lo := |s| - |LStrip(s, cs)|; var r := Strip(s, cs);
      && lo + |r| <= |s| && r == s[lo..lo + |r|]
      && (forall i :: 0 <= i < lo ==> s[i] in cs)
      && (forall i :: lo + |r| <= i < |s| ==> s[i] in cs)
  {
    var l := LStrip(s, cs);
    var r := RStrip(l, cs);
    var lo := |s| - |l|;
    assert l == s[lo..];
    assert r == l[..|r|];
    forall i | lo + |r| <= i < |s| ensures s[i] in cs {
      assert s[i] == l[i - lo];
    }
  }

  /** Stripping characters off a line leaves a line. */
  lemma StripOfLine(s: String, cs: set<char>)
    requires IsLine(s)
    ensures IsLine(Strip(s, cs))
  {
    var l := LStrip(s, cs);
    assert l == s[|s| - |l|..|s|];
    LineSlice(s, |s| - |l|, |s|);
    var r := RStrip(l, cs);
    assert r == l[0..|r|];
    LineSlice(l, 0, |r|);
  }

  /** `s.strip()` with no argument: trim surrounding whitespace. */
  function Trim(s: String): String
  {
    Strip(s, Whitespace)
  }

  /** Stripping a string that has no `cs` character at either end changes nothing. */
  lemma {:induction false} StripUnchanged(s: String, cs: set<char>)
    requires s == [] || (s[0] !in cs && s[|s| - 1] !in cs)
    ensures Strip(s, cs) == s
  {
  }

  // ---------------------------------------------------------------- lower

  /** `str.lower` on one byte: only the ASCII capitals change. */
  function LowerChar(c: char): char
  {
    if 'A' <= c <= 'Z' then (c as int - 'A' as int + 'a' as int) as char else c
  }

  /** True when `s` holds no ASCII capital. */
  predicate IsLower(s: String)
  {
    forall i :: 0 <= i < |s| ==> !('A' <= s[i] <= 'Z')
  }

  /** `s.lower()`: same length, every capital replaced by its small letter. */
  function Lower(s: String): (r: String)
    ensures |r| == |s| && IsLower(r)
    ensures forall i :: 0 <= i < |s| && !('A' <= s[i] <= 'Z') ==> r[i] == s[i]
    ensures forall i :: 0 <= i < |s| && 'A' <= s[i] <= 'Z' ==> r[i] as int == s[i] as int - 'A' as int + 'a' as int
  {
    seq(|s|, i requires 0 <= i < |s| => LowerChar(s[i]))
  }

  /** Lower-casing twice is lower-casing once; a lower-case string is its own lower case. */
  lemma LowerOfLower(s: String)
    requires IsLower(s)
    ensures Lower(s) == s
  {
    assert forall i :: 0 <= i < |s| ==> Lower(s)[i] == s[i];
  }

  // ---------------------------------------------------------------- split

  /** Number of occurrences of `c` in `s`. */
  function Count(s: String, c: char): nat
    decreases |s|
  {
    if s == [] then 0 else (if s[0] == c then 1 else 0) + Count(s[1..], c)
  }

  lemma {:induction false} CountZero(s: String, c: char)
    ensures Count(s, c) == 0 <==> c !in s
    decreases |s|
  {
    if s != [] {
      CountZero(s[1..], c);
      assert s == [s[0]] + s[1..];
    }
  }

  /** `sep.join(parts)`. */
  function Join(parts: seq<String>, sep: char): String
    decreases |parts|
  {
    if |parts| == 0 then []
    else if |parts| == 1 then parts[0]
    else parts[0] + [sep] + Join(parts[1..], sep)
  }

  /**
   * `s.split(sep)` for a one-character separator: the pieces between the
   * separators, one more piece than there are separators, empty pieces kept.
   */
  function Split(s: String, sep: char): (parts: seq<String>)
    ensures |parts| == Count(s, sep) + 1
    decreases |s|
  {
    if s == [] then [[]]
    else
      var rest := Split(s[1..], sep);
      if s[0] == sep then [[]] + rest else [[s[0]] + rest[0]] + rest[1..]
  }

  /** The pieces hold no separator, and joining them with it gives the string back. */
  lemma {:induction false} JoinSplit(s: String, sep: char)
    ensures forall j :: 0 <= j < |Split(s, sep)| ==> sep !in Split(s, sep)[j]
    ensures Join(Split(s, sep), sep) == s
    decreases |s|
  {
    if s != [] {
      JoinSplit(s[1..], sep);
      var rest := Split(s[1..], sep);
      var parts := Split(s, sep);
      SplitAt(s, 0);
      if s[0] == sep {
        assert parts == [[]] + rest && parts[1..] == rest;
        assert Join(parts, sep) == [] + [sep] + Join(rest, sep);
      } else {
        assert parts[0] == [s[0]] + rest[0] && parts[1..] == rest[1..];
        assert sep !in parts[0];
        if |rest| > 1 {
          assert Join(rest, sep) == rest[0] + [sep] + Join(rest[1..], sep);
          assert Join(parts, sep) == [s[0]] + rest[0] + [sep] + Join(rest[1..], sep);
        }
      }
    }
  }

  /** Splitting the join of separator-free pieces gives the pieces back. */
  lemma {:induction false} SplitJoin(parts: seq<String>, sep: char)
    requires |parts| > 0
    requires forall p :: p in parts ==> sep !in p
    ensures Split(Join(parts, sep), sep) == parts
    decreases |parts|
  {
    if |parts| > 1 {
      SplitJoin(parts[1..], sep);
      SplitPrefix(parts[0], Join(parts[1..], sep), sep);
      assert parts == [parts[0]] + parts[1..];
    } else {
      SplitNoSep(parts[0], sep);
      var s := parts[0];
      var r := Split(s, sep);
      CountZero(s, sep);
      assert |r| == 1 && Join(r, sep) == r[0];
    }
  }

  /** Splitting `a + sep + b`, where `a` has no separator, puts `a` first. */
  lemma {:induction false} SplitPrefix(a: String, b: String, sep: char)
    requires sep !in a
    ensures Split(a + [sep] + b, sep) == [a] + Split(b, sep)
    decreases |a|
  {
    var s := a + [sep] + b;
    if a == [] {
      assert s == [sep] + b;
      assert s[1..] == b;
    } else {
      assert s[0] == a[0] && s[0] != sep;
      assert s[1..] == a[1..] + [sep] + b;
      assert sep !in a[1..] by {
        forall i | 0 <= i < |a[1..]| ensures a[1..][i] != sep { assert a[1..][i] == a[i + 1]; }
      }
      SplitPrefix(a[1..], b, sep);
      var rest := Split(s[1..], sep);
      assert rest[0] == a[1..] && rest[1..] == Split(b, sep);
      assert [a[0]] + a[1..] == a;
    }
  }

  /** A string without the separator splits into itself alone. */
  lemma {:induction false} SplitNoSep(a: String, sep: char)
    requires sep !in a
    ensures Split(a, sep) == [a]
    decreases |a|
  {
    if a != [] {
      assert a[0] != sep;
      assert sep !in a[1..] by {
        forall i | 0 <= i < |a[1..]| ensures a[1..][i] != sep { assert a[1..][i] == a[i + 1]; }
      }
      SplitNoSep(a[1..], sep);
      assert [a[0]] + a[1..] == a;
    }
  }

  /**
   * `s.rsplit(sep, 1)` unpacked into two names: absent when `s` has no
   * separator (the unpacking raises), otherwise the text before and after
   * the LAST separator.
   */
  function RSplitLast(s: String, sep: char): (r: Option<(String, String)>)
    ensures r.None? <==> sep !in s
    ensures r.Some? ==> r.value.0 + [sep] + r.value.1 == s && sep !in r.value.1
    decreases |s|
  {
    if s == [] then None
    else if s[|s| - 1] == sep then Some((s[..|s| - 1], []))
    else
      match RSplitLast(s[..|s| - 1], sep)
      case None =>
        assert s == s[..|s| - 1] + [s[|s| - 1]];
        None
      case Some((p, q)) =>
        assert s == s[..|s| - 1] + [s[|s| - 1]];
        Some((p, q + [s[|s| - 1]]))
  }

  /**
   * Splitting on the last separator recovers the tail of a joined key as
   * long as that tail has no separator, whatever the head contains.
   */
  lemma {:induction false} RSplitLastOfJoin(head: String, tail: String, sep: char)
    requires sep !in tail
    ensures RSplitLast(head + [sep] + tail, sep) == Some((head, tail))
    decreases |tail|
  {
    var s := head + [sep] + tail;
    if tail == [] {
      assert s[..|s| - 1] == head;
    } else {
      var last := tail[|tail| - 1];
      var init := tail[..|tail| - 1];
      assert s[|s| - 1] == last && last != sep;
      assert s[..|s| - 1] == head + [sep] + init;
      RSplitLastOfJoin(head, init, sep);
      assert init + [last] == tail;
    }
  }

  // ----------------------------------------------------------- splitlines

  /** The line boundaries of Python 2's `str.splitlines`. */
  predicate IsLineBreak(c: char)
  {
    c == '\n' || c == '\r'
  }

  /** A single line: no line boundary inside. */
  predicate IsLine(l: String)
  {
    forall i :: 0 <= i < |l| ==> !IsLineBreak(l[i])
  }

  /** Index of the first line break of `s`, or `|s|` if there is none. */
  function LineEnd(s: String): (k: nat)
    ensures k <= |s|
    ensures forall i :: 0 <= i < k ==> !IsLineBreak(s[i])
    ensures k < |s| ==> IsLineBreak(s[k])
    decreases |s|
  {
    if s == [] || IsLineBreak(s[0]) then 0 else 1 + LineEnd(s[1..])
  }

  /**
   * `s.splitlines()`: the lines of `s` without their terminators, where a
   * terminator is `\r\n`, `\n` or `\r`; a final terminator does not start
   * an extra empty line.
   */
  function SplitLines(s: String): (lines: seq<String>)
    ensures forall j :: 0 <= j < |lines| ==> IsLine(lines[j])
    ensures s == [] <==> lines == []
    decreases |s|
  {
    if s == [] then []
    else
      var k := LineEnd(s);
      if k == |s| then [s]
      else
        var next := if s[k] == '\r' && k + 1 < |s| && s[k + 1] == '\n' then k + 2 else k + 1;
        [s[..k]] + SplitLines(s[next..])
  }

  /**
   * For text that only uses `\n`, `splitlines` agrees with `split('\n')`
   * once one final newline is dropped.
   */
  lemma {:induction false} SplitLinesIsSplit(s: String)
    requires '\r' !in s && s != []
    ensures SplitLines(s) == Split(DropFinalNewline(s), '\n')
    decreases |s|
  {
    var k := LineEnd(s);
    if k == |s| {
      assert '\n' !in s;
      SplitNoSep(s, '\n');
    } else {
      var line, rest := s[..k], s[k + 1..];
      FirstLine(s);
      if rest == [] {
        SplitNoSep(line, '\n');
      } else {
        SplitLinesIsSplit(rest);
        DropFinalNewlineAfter(line, rest);
        SplitPrefix(line, DropFinalNewline(rest), '\n');
      }
    }
  }

  /** In text without `\r`, a line ends at a `\n` and the rest starts after it. */
  lemma FirstLine(s: String)
    requires '\r' !in s && s != [] && LineEnd(s) < |s|
    ensures var k := LineEnd(s);
      && s[k] == '\n' && '\n' !in s[..k]
      && s == s[..k] + ['\n'] + s[k + 1..]
      && SplitLines(s) == [s[..k]] + SplitLines(s[k + 1..])
      && (s[k + 1..] == [] ==> DropFinalNewline(s) == s[..k])
  {
    var k := LineEnd(s);
    assert s[k] in s;
    assert s[k] == '\n';
    forall i | 0 <= i < k ensures s[..k][i] != '\n' {
      assert !IsLineBreak(s[i]);
    }
    SplitAt(s, k);
  }

  /** A string is what comes before position `k`, the character there, and what follows. */
  lemma SplitAt(s: String, k: nat)
    requires k < |s|
    ensures s == s[..k] + [s[k]] + s[k + 1..]
  {
    assert s[k..] == [s[k]] + s[k + 1..];
    assert s == s[..k] + s[k..];
  }

  /** A slice of a line is a line. */
  lemma LineSlice(s: String, lo: nat, hi: nat)
    requires IsLine(s) && lo <= hi <= |s|
    ensures IsLine(s[lo..hi])
  {
    forall i | 0 <= i < hi - lo ensures !IsLineBreak(s[lo..hi][i]) {
      assert s[lo..hi][i] == s[lo + i];
    }
  }

  lemma DropFinalNewlineAfter(line: String, rest: String)
    requires rest != []
    ensures DropFinalNewline(line + ['\n'] + rest) == line + ['\n'] + DropFinalNewline(rest)
  {
    var s := line + ['\n'] + rest;
    assert s[|s| - 1] == rest[|rest| - 1];
    if rest[|rest| - 1] == '\n' {
      assert s[..|s| - 1] == line + ['\n'] + rest[..|rest| - 1];
    }
  }

  /** `s` without its last character when that is a newline. */
  function DropFinalNewline(s: String): String
  {
    if s != [] && s[|s| - 1] == '\n' then s[..|s| - 1] else s
  }

  // ------------------------------------------------------------- endswith

  /** `s.endswith(suffix)`. */
  predicate EndsWith(s: String, suffix: String)
  {
    |suffix| <= |s| && s[|s| - |suffix|..] == suffix
  }

  // ------------------------------------------------------------------ int

  predicate IsDigit(c: char)
  {
    '0' <= c <= '9'
  }

  /** One or more decimal digits. */
  predicate IsDigits(d: String)
  {
    |d| > 0 && forall i :: 0 <= i < |d| ==> IsDigit(d[i])
  }

  /** The value of a run of decimal digits, most significant first. */
  function DigitsValue(d: String): (n: nat)
    requires forall i :: 0 <= i < |d| ==> IsDigit(d[i])
    decreases |d|
  {
    if d == [] then 0
    else
      assert IsDigit(d[|d| - 1]);
      10 * DigitsValue(d[..|d| - 1]) + (d[|d| - 1] as int - '0' as int)
  }

  /**
   * Python 2 `int(s)` on a byte string, as far as the plugin's data needs
   * it: optional surrounding whitespace, an optional sign that whitespace
   * may also follow, then one or more decimal digits; anything else
   * raises, which is `None` here.
   */
  function ParseInt(s: String): Option<int>
  {
    ParseTrimmed(Trim(s))
  }

  /** `int()` once the surrounding whitespace is gone. */
  function ParseTrimmed(t: String): Option<int>
  {
    if |t| > 0 && (t[0] == '-' || t[0] == '+') then
      var d := LStrip(t[1..], Whitespace);
      if IsDigits(d) then
        var v: int := DigitsValue(d);
        Some(if t[0] == '-' then -v else v)
      else None
    else if IsDigits(t) then
      Some(DigitsValue(t))
    else None
  }

  /** A string that starts with no character of `cs` is its own `lstrip`. */
  lemma LStripNone(s: String, cs: set<char>)
    requires s == [] || s[0] !in cs
    ensures LStrip(s, cs) == s
  {
  }

  /**
   * `int()` of a text that trims to a sign followed by digits: whitespace
   * between the sign and the digits is skipped, so `int('- 5') == -5`, and
   * the digits carry the sign.
   */
  lemma ParseSigned(s: String, t: String)
    requires Trim(s) == t && |t| > 0 && (t[0] == '-' || t[0] == '+')
    requires IsDigits(LStrip(t[1..], Whitespace))
    ensures var v: int := DigitsValue(LStrip(t[1..], Whitespace)); ParseInt(s) == Some(if t[0] == '-' then -v else v)
  {
    TrimmedSigned(t);
  }

  /** `ParseTrimmed` of a sign followed by text that `lstrip`s to digits. */
  lemma TrimmedSigned(t: String)
    requires |t| > 0 && (t[0] == '-' || t[0] == '+')
    requires IsDigits(LStrip(t[1..], Whitespace))
    ensures var v: int := DigitsValue(LStrip(t[1..], Whitespace)); ParseTrimmed(t) == Some(if t[0] == '-' then -v else v)
  {
  }

  /** `int()` of a text whose trimmed form is all digits. */
  lemma ParseUnsigned(s: String)
    requires IsDigits(Trim(s))
    ensures ParseInt(s) == Some(DigitsValue(Trim(s)))
  {
    var t := Trim(s);
    assert IsDigit(t[0]);
  }

  function DigitChar(d: nat): char
    requires d < 10
  {
    ('0' as int + d) as char
  }

  /** The decimal digits of `n`, as `str(n)` writes them for `n >= 0`. */
  function ShowNat(n: nat): (d: String)
    ensures IsDigits(d)
  {
    if n < 10 then [DigitChar(n)] else ShowNat(n / 10) + [DigitChar(n % 10)]
  }

  /** `str(n)` for any integer. */
  function ShowInt(n: int): String
  {
    if n < 0 then ['-'] + ShowNat(-n) else ShowNat(n)
  }

  lemma {:induction false} DigitsValueOfShowNat(n: nat)
    ensures DigitsValue(ShowNat(n)) == n
  {
    if n >= 10 {
      DigitsValueOfShowNat(n / 10);
      var d := ShowNat(n);
      assert d[..|d| - 1] == ShowNat(n / 10);
    }
  }

  /** `int(str(n)) == n`: the parser reads back every integer's decimal form. */
  lemma ParseShowInt(n: int)
    ensures ParseInt(ShowInt(n)) == Some(n)
  {
    if n < 0 {
      ParseShowNegative(n);
    } else {
      var s := ShowNat(n);
      assert s[0] !in Whitespace && s[|s| - 1] !in Whitespace;
      StripUnchanged(s, Whitespace);
      DigitsValueOfShowNat(n);
      ParseUnsigned(s);
    }
  }

  lemma ParseShowNegative(n: int)
    requires n < 0
    ensures ParseInt(ShowInt(n)) == Some(n)
  {
    var s := ShowInt(n);
    var d := ShowNat(-n);
    assert |s| > 1 && s[0] == '-' && s[1..] == d by {
      assert s == ['-'] + d;
    }
    DigitsValueOfShowNat(-n);
    ParseNegativeDigits(s, d, -n);
  }

  /** `int()` of a minus sign directly followed by the digits of `m`. */
  lemma ParseNegativeDigits(s: String, d: String, m: nat)
    requires |s| > 1 && s[0] == '-' && s[1..] == d && IsDigits(d) && DigitsValue(d) == m
    ensures ParseInt(s) == Some(-(m as int))
  {
    assert s[|s| - 1] == d[|d| - 1];
    StripUnchanged(s, Whitespace);
    LStripNone(d, Whitespace);
    ParseSigned(s, s);
  }

  /** Whitespace on either side, in any amounts, does not change what `int()` reads. */
  lemma ParseIntIgnoresPadding(s: String, pre: String, post: String)
    requires forall i :: 0 <= i < |pre| ==> pre[i] in Whitespace
    requires forall i :: 0 <= i < |post| ==> post[i] in Whitespace
    ensures ParseInt(pre + s + post) == ParseInt(s)
  {
    PaddedTrim(s, pre, post);
    assert ParseInt(pre + s + post) == ParseTrimmed(Trim(s));
  }

  lemma PaddedTrim(s: String, pre: String, post: String)
    requires forall i :: 0 <= i < |pre| ==> pre[i] in Whitespace
    requires forall i :: 0 <= i < |post| ==> post[i] in Whitespace
    ensures Trim(pre + s + post) == Trim(s)
  {
    var ls := LStrip(s, Whitespace);
    LStripPadded(s, pre, post, Whitespace);
    if ls != [] {
      RStripSkips(ls, post, Whitespace);
    }
  }

  lemma LStripPadded(s: String, pre: String, post: String, cs: set<char>)
    requires forall i :: 0 <= i < |pre| ==> pre[i] in cs
    requires forall i :: 0 <= i < |post| ==> post[i] in cs
    ensures LStrip(pre + s + post, cs) == if LStrip(s, cs) == [] then [] else LStrip(s, cs) + post
  {
    assert pre + s + post == pre + (s + post);
    LStripSkips(pre, s + post, cs);
    LStripAppend(s, post, cs);
    if LStrip(s, cs) == [] {
      LStripAll(post, cs);
    }
  }

  lemma {:induction false} LStripSkips(p: String, s: String, cs: set<char>)
    requires forall i :: 0 <= i < |p| ==> p[i] in cs
    ensures LStrip(p + s, cs) == LStrip(s, cs)
    decreases |p|
  {
    if p != [] {
      assert (p + s)[0] == p[0];
      assert (p + s)[1..] == p[1..] + s;
      LStripSkips(p[1..], s, cs);
    } else {
      assert p + s == s;
    }
  }

  lemma {:induction false} LStripAll(p: String, cs: set<char>)
    requires forall i :: 0 <= i < |p| ==> p[i] in cs
    ensures LStrip(p, cs) == []
  {
    LStripSkips(p, [], cs);
    assert p + [] == p;
  }

  lemma {:induction false} LStripAppend(s: String, t: String, cs: set<char>)
    ensures LStrip(s, cs) != [] ==> LStrip(s + t, cs) == LStrip(s, cs) + t
    ensures LStrip(s, cs) == [] ==> LStrip(s + t, cs) == LStrip(t, cs)
    decreases |s|
  {
    if s != [] {
      assert (s + t)[0] == s[0];
      if s[0] in cs {
        assert (s + t)[1..] == s[1..] + t;
        LStripAppend(s[1..], t, cs);
      }
    } else {
      assert s + t == t;
    }
  }

  lemma {:induction false} RStripSkips(s: String, p: String, cs: set<char>)
    requires forall i :: 0 <= i < |p| ==> p[i] in cs
    ensures RStrip(s + p, cs) == RStrip(s, cs)
    decreases |p|
  {
    if p != [] {
      assert (s + p)[..|s + p| - 1] == s + p[..|p| - 1];
      RStripSkips(s, p[..|p| - 1], cs);
    } else {
      assert s + p == s;
    }
  }
}
