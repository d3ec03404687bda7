/**
 * String primitives of the two host languages, written out for the models
 * above them: Python's `str.split(c)[0]`, `str.strip()`
 * and `str.strip(chars)`, JavaScript's `String.prototype.split`, `trim` and
 * `substring`, and decimal rendering of a natural number.
 */
module Text {

  /** Index of the first `c` in `s`, or `|s|` when there is none. */
  function IndexOf(s: string, c: char): (i: nat)
    ensures i <= |s|
    ensures i < |s| ==> s[i] == c
  {
    if s == [] then 0
    else if s[0] == c then 0
    else 1 + IndexOf(s[1..], c)
  }

  /** No `c` comes before `IndexOf(s, c)`. */
  lemma {:induction false} IndexOfFirst(s: string, c: char)
    ensures forall k :: 0 <= k < IndexOf(s, c) ==> s[k] != c
  {
    if s != [] && s[0] != c {
      IndexOfFirst(s[1..], c);
      assert forall k :: 0 < k < |s| ==> s[k] == s[1..][k - 1];
    }
  }

  /** `IndexOf` finds exactly the first occurrence, or reports `|s|` when there is none. */
  lemma {:induction false} IndexOfIs(s: string, c: char, i: nat)
    requires i <= |s| && (i < |s| ==> s[i] == c)
    requires forall k :: 0 <= k < i ==> s[k] != c
    ensures IndexOf(s, c) == i
  {
    if s != [] && s[0] != c {
      IndexOfIs(s[1..], c, i - 1);
    }
  }

  /**
   * `s.split(c)` for a one-character separator, the same in Python and in
   * JavaScript: the pieces between separators, so that `""` gives `[""]`
   * and `"a;"` gives `["a", ""]`.
   */
  function Split(s: string, c: char): (parts: seq<string>)
    ensures |parts| >= 1
    ensures parts[0] == s[..IndexOf(s, c)]
    decreases |s|
  {
    var i := IndexOf(s, c);
    if i == |s| then [s] else [s[..i]] + Split(s[i + 1..], c)
  }

  /** Joining the pieces of `Split(s, c)` with `c` gives `s` back. */
  function Join(parts: seq<string>, c: char): string
  {
    if |parts| <= 1 then (if parts == [] then "" else parts[0])
    else parts[0] + [c] + Join(parts[1..], c)
  }

  lemma {:induction false} SplitJoin(s: string, c: char)
    ensures Join(Split(s, c), c) == s
    ensures forall k :: 0 <= k < |Split(s, c)| ==> c !in Split(s, c)[k]
    decreases |s|
  {
    var i := IndexOf(s, c);
    IndexOfFirst(s, c);
    assert c !in s[..i];
    if i == |s| {
      assert s[..i] == s;
    } else {
      var tail := s[i + 1..];
      SplitJoin(tail, c);
      var rest := Split(tail, c);
      assert Split(s, c) == [s[..i]] + rest;
      assert Join(Split(s, c), c) == s[..i] + [c] + Join(rest, c);
      assert s == s[..i] + [c] + tail;
      forall k | 0 <= k < |Split(s, c)| ensures c !in Split(s, c)[k] {
        if k > 0 { assert Split(s, c)[k] == rest[k - 1]; }
      }
    }
  }

  /** Appending a separator and more text does not move the first separator of `a`. */
  lemma IndexOfConcat(a: string, b: string, c: char)
    ensures IndexOf(a + [c] + b, c) == IndexOf(a, c)
  {
    var s := a + [c] + b;
    var i := IndexOf(a, c);
    IndexOfFirst(a, c);
    assert forall k :: 0 <= k < |a| ==> s[k] == a[k];
    assert s[|a|] == c;
    IndexOfIs(s, c, i);
  }

  /** Splitting at a separator placed between two strings splits each of them. */
  lemma {:induction false} SplitConcat(a: string, b: string, c: char)
    ensures Split(a + [c] + b, c) == Split(a, c) + Split(b, c)
    decreases |a|
  {
    var i := IndexOf(a, c);
    IndexOfConcat(a, b, c);
    if i == |a| {
      SplitConcatNoSeparator(a, b, c);
    } else {
      var rest := a[i + 1..];
      SplitConcat(rest, b, c);
      SplitConcatStep(a, b, c, i, rest);
    }
  }

  /** `SplitConcat` when `a` holds no separator. */
  lemma SplitConcatNoSeparator(a: string, b: string, c: char)
    requires IndexOf(a, c) == |a|
    requires IndexOf(a + [c] + b, c) == |a|
    ensures Split(a + [c] + b, c) == [a] + Split(b, c)
    ensures Split(a, c) == [a]
  {
    SliceAround(a, b, c, |a|);
    assert a[..|a|] == a;
    SplitAtFirst(a + [c] + b, c, |a|, a, b);
  }

  /** The pieces of `a + [c] + b` before and after a position `i` inside `a` or at the separator. */
  lemma SliceAround(a: string, b: string, c: char, i: nat)
    requires i <= |a|
    ensures (a + [c] + b)[..i] == a[..i]
    ensures i < |a| ==> (a + [c] + b)[i + 1..] == a[i + 1..] + [c] + b
    ensures i == |a| ==> (a + [c] + b)[i + 1..] == b
  {
    if i < |a| {
      assert (a + [c] + b)[i + 1..] == a[i + 1..] + [c] + b;
    }
  }

  /** `Split` at its first separator, with the two sides named. */
  lemma SplitAtFirst(s: string, c: char, i: nat, head: string, tail: string)
    requires i == IndexOf(s, c) && i < |s|
    requires head == s[..i] && tail == s[i + 1..]
    ensures Split(s, c) == [head] + Split(tail, c)
  {
  }

  /** One step of `SplitConcat`: the first piece of `a` comes off both sides. */
  lemma SplitConcatStep(a: string, b: string, c: char, i: nat, rest: string)
    requires i == IndexOf(a, c) && i < |a| && rest == a[i + 1..]
    requires IndexOf(a + [c] + b, c) == i
    requires Split(rest + [c] + b, c) == Split(rest, c) + Split(b, c)
    ensures Split(a + [c] + b, c) == Split(a, c) + Split(b, c)
  {
    SliceAround(a, b, c, i);
    SplitAtFirst(a + [c] + b, c, i, a[..i], rest + [c] + b);
    SplitAtFirst(a, c, i, a[..i], rest);
    AppendAssoc([a[..i]], Split(rest, c), Split(b, c));
  }

  /** Concatenation of pieces is associative. */
  lemma AppendAssoc(x: seq<string>, y: seq<string>, z: seq<string>)
    ensures x + (y + z) == (x + y) + z
  {
  }

  /** `s` with every leading character that satisfies `p` removed. */
  function DropWhile(s: string, p: char -> bool): (r: string)
    ensures |r| <= |s| && r == s[|s| - |r|..]
    ensures r == [] || !p(r[0])
  {
    if s != [] && p(s[0]) then DropWhile(s[1..], p) else s
  }

  /** `s` with every trailing character that satisfies `p` removed. */
  function DropWhileEnd(s: string, p: char -> bool): (r: string)
    ensures |r| <= |s| && r == s[..|r|]
    ensures r == [] || !p(r[|r| - 1])
  {
    if s != [] && p(s[|s| - 1]) then DropWhileEnd(s[..|s| - 1], p) else s
  }

  /** Both ends stripped of the characters that satisfy `p`. */
  function Strip(s: string, p: char -> bool): (r: string)
    ensures r == [] || (!p(r[0]) && !p(r[|r| - 1]))
    ensures |r| <= |s|
  {
    DropWhileEnd(DropWhile(s, p), p)
  }

  /** `DropWhile` removes only characters that satisfy `p`. */
  lemma {:induction false} DropWhileRemoves(s: string, p: char -> bool)
    ensures forall k :: 0 <= k < |s| - |DropWhile(s, p)| ==> p(s[k])
  {
    if s != [] && p(s[0]) {
      DropWhileRemoves(s[1..], p);
      assert forall k :: 0 < k < |s| ==> s[k] == s[1..][k - 1];
    }
  }

  /** `DropWhileEnd` removes only characters that satisfy `p`. */
  lemma {:induction false} DropWhileEndRemoves(s: string, p: char -> bool)
    ensures forall k :: |DropWhileEnd(s, p)| <= k < |s| ==> p(s[k])
  {
    if s != [] && p(s[|s| - 1]) {
      DropWhileEndRemoves(s[..|s| - 1], p);
    }
  }

  /**
   * What `Strip` keeps: the piece of `s` that starts after the leading run
   * of characters satisfying `p`; everything cut off on either side
   * satisfies `p`.
   */
  lemma StripKeepsMiddle(s: string, p: char -> bool)
    ensures var r := Strip(s, p);
      var i := |s| - |DropWhile(s, p)|;
      && i + |r| <= |s| && r == s[i..i + |r|]
      && (forall k :: 0 <= k < i ==> p(s[k]))
      && (forall k :: i + |r| <= k < |s| ==> p(s[k]))
  {
    var d := DropWhile(s, p);
    var i := |s| - |d|;
    var r := DropWhileEnd(d, p);
    assert d == s[i..];
    assert r == d[..|r|];
    assert r == s[i..i + |r|];
    DropWhileRemoves(s, p);
    DropWhileEndRemoves(d, p);
    forall k | i + |r| <= k < |s| ensures p(s[k]) {
      assert s[k] == d[k - i];
    }
  }

  /** A leading run of `p`-characters in front of a clean `x` is dropped, and only that. */
  lemma {:induction false} DropWhileSkips(run: string, x: string, p: char -> bool)
    requires forall k :: 0 <= k < |run| ==> p(run[k])
    requires x == [] || !p(x[0])
    ensures DropWhile(run + x, p) == x
    decreases |run|
  {
    if run == [] {
      assert run + x == x;
    } else {
      assert (run + x)[1..] == run[1..] + x;
      DropWhileSkips(run[1..], x, p);
    }
  }

  /** A trailing run of `p`-characters after a clean `x` is dropped, and only that. */
  lemma {:induction false} DropWhileEndSkips(x: string, run: string, p: char -> bool)
    requires forall k :: 0 <= k < |run| ==> p(run[k])
    requires x == [] || !p(x[|x| - 1])
    ensures DropWhileEnd(x + run, p) == x
    decreases |run|
  {
    if run == [] {
      assert x + run == x;
    } else {
      var s := x + run;
      assert s[|s| - 1] == run[|run| - 1];
      assert s[..|s| - 1] == x + run[..|run| - 1];
      DropWhileEndSkips(x, run[..|run| - 1], p);
    }
  }

  /** Stripping a string whose two ends are already clean changes nothing. */
  lemma StripNoop(s: string, p: char -> bool)
    requires s == [] || (!p(s[0]) && !p(s[|s| - 1]))
    ensures Strip(s, p) == s
  {
    assert DropWhile(s, p) == s;
    assert DropWhileEnd(s, p) == s;
  }

  /** The character set removed by Python's `str.strip()` (`str.isspace`). */
  predicate PyIsSpace(c: char)
  {
    || ('\t' <= c <= '\r')            // U+0009 .. U+000D
    || ('\U{1C}' <= c <= '\U{1F}')    // information separators
    || c == ' ' || c == '\U{85}' || c == '\U{A0}' || c == '\U{1680}'
    || ('\U{2000}' <= c <= '\U{200A}')
    || c == '\U{2028}' || c == '\U{2029}' || c == '\U{202F}'
    || c == '\U{205F}' || c == '\U{3000}'
  }

  /** The character set removed by JavaScript's `String.prototype.trim`. */
  predicate JsIsSpace(c: char)
  {
    || ('\t' <= c <= '\r')            // tab, line feed, vertical tab, form feed, carriage return
    || c == ' ' || c == '\U{A0}' || c == '\U{1680}'
    || ('\U{2000}' <= c <= '\U{200A}')
    || c == '\U{2028}' || c == '\U{2029}' || c == '\U{202F}'
    || c == '\U{205F}' || c == '\U{3000}' || c == '\U{FEFF}'
  }

  /** Python `s.strip()`. */
  function PyStrip(s: string): (r: string)
    ensures r == [] || (!PyIsSpace(r[0]) && !PyIsSpace(r[|r| - 1]))
  {
    Strip(s, PyIsSpace)
  }

  /** JavaScript `s.trim()`. */
  function JsTrim(s: string): (r: string)
    ensures r == [] || (!JsIsSpace(r[0]) && !JsIsSpace(r[|r| - 1]))
  {
    Strip(s, JsIsSpace)
  }

  /**
   * JavaScript `s.substring(start, end)`: both bounds are clamped to the
   * length of `s` and swapped when `start > end`.
   */
  function JsSubstring(s: string, start: nat, end: nat): (r: string)
    ensures |r| <= |s|
    ensures start <= end <= |s| ==> r == s[start..end]
    ensures exists i :: 0 <= i <= |s| && r <= s[i..]
  {
    var a := if start < |s| then start else |s|;
    var b := if end < |s| then end else |s|;
    if a <= b then
      assert s[a..b] <= s[a..];
      s[a..b]
    else
      assert s[b..a] <= s[b..];
      s[b..a]
  }

  /** JavaScript `s.substring(start)`. */
  function JsSubstringFrom(s: string, start: nat): (r: string)
    ensures r == JsSubstring(s, start, |s|)
    ensures start <= |s| ==> r == s[start..]
    ensures start > |s| ==> r == []
  {
    if start < |s| then s[start..] else []
  }

  /** Comparing the first `|t|` characters with `t`, as `getCookie` does, is a prefix test. */
  lemma SubstringEqualsIsPrefix(s: string, t: string)
    ensures (JsSubstring(s, 0, |t|) == t) <==> (t <= s)
  {
    if |s| < |t| {
      assert JsSubstring(s, 0, |t|) == s;
    }
  }

  /** Decimal digit for `d < 10`. */
  function Digit(d: nat): (c: char)
    requires d < 10
    ensures '0' <= c <= '9' && c as int - '0' as int == d
  {
    ['0', '1', '2', '3', '4', '5', '6', '7', '8', '9'][d]
  }

  /** JavaScript's rendering of a non-negative integer in a template string. */
  function NatToString(n: nat): (s: string)
    ensures |s| >= 1
    ensures forall k :: 0 <= k < |s| ==> '0' <= s[k] <= '9'
  {
    if n < 10 then [Digit(n)] else NatToString(n / 10) + [Digit(n % 10)]
  }

  /** The number a run of decimal digits denotes, most significant digit first. */
  function DecimalValue(s: string): nat
    requires forall k :: 0 <= k < |s| ==> '0' <= s[k] <= '9'
  {
    if s == [] then 0
    else DecimalValue(s[..|s| - 1]) * 10 + (s[|s| - 1] as int - '0' as int)
  }

  /**
   * The rendering is the decimal notation of `n`: its digits denote `n`, and
   * it has no leading zero except for `0` itself.
   */
  lemma {:induction false} NatToStringValue(n: nat)
    ensures DecimalValue(NatToString(n)) == n
    ensures NatToString(n)[0] == '0' ==> n == 0
  {
    if n >= 10 {
      var s := NatToString(n);
      NatToStringValue(n / 10);
      assert s[..|s| - 1] == NatToString(n / 10);
    }
  }

  /** The rendering is a single digit exactly when `n < 10`. */
  lemma {:induction false} NatToStringLength(n: nat)
    ensures |NatToString(n)| == 1 <==> n < 10
  {
    if n >= 10 {
      assert |NatToString(n)| == |NatToString(n / 10)| + 1;
    }
  }

  /** Distinct numbers have distinct renderings. */
  lemma {:induction false} NatToStringInjective(a: nat, b: nat)
    requires NatToString(a) == NatToString(b)
    ensures a == b
  {
    NatToStringLength(a);
    NatToStringLength(b);
    if a >= 10 && b >= 10 {
      var sa, sb := NatToString(a), NatToString(b);
      assert sa == NatToString(a / 10) + [Digit(a % 10)];
      assert sb == NatToString(b / 10) + [Digit(b % 10)];
      assert sa[..|sa| - 1] == NatToString(a / 10);
      assert sb[..|sb| - 1] == NatToString(b / 10);
      NatToStringInjective(a / 10, b / 10);
      assert Digit(a % 10) == sa[|sa| - 1] == sb[|sb| - 1] == Digit(b % 10);
    } else if a < 10 && b < 10 {
      assert Digit(a) == NatToString(a)[0] == NatToString(b)[0] == Digit(b);
    }
  }
}
