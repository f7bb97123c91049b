/** String operations of the JavaScript runtime that the handlers rely on:
    `trim`, `toLowerCase`, `startsWith`, `split` on a one-character separator,
    and the decimal rendering of a number inside a template string. */
module Strings {

  /** ECMAScript WhiteSpace and LineTerminator code points, the set `String.prototype.trim` strips. */
  predicate IsWhitespace(c: char) {
    c == '\t' || c == '\n' || c == '\U{000B}' || c == '\U{000C}' || c == '\r' || c == ' '
    || c == '\U{00A0}' || c == '\U{1680}' || ('\U{2000}' <= c <= '\U{200A}')
    || c == '\U{2028}' || c == '\U{2029}' || c == '\U{202F}' || c == '\U{205F}'
    || c == '\U{3000}' || c == '\U{FEFF}'
  }

  predicate AllWhitespace(s: string) {
    forall i :: 0 <= i < |s| ==> IsWhitespace(s[i])
  }

  /** Drops the leading whitespace: the result is the suffix that starts at the first other character. */
  function TrimStart(s: string): (r: string)
    ensures |r| <= |s| && r == s[|s| - |r|..]
    ensures AllWhitespace(s[..|s| - |r|])
    ensures r == [] || !IsWhitespace(r[0])
  {
    if s == [] || !IsWhitespace(s[0]) then s
    else
      var r := TrimStart(s[1..]);
      assert s[1..][..|s[1..]| - |r|] == s[1..|s| - |r|];
      r
  }

  /** Drops the trailing whitespace: the result is the prefix that ends at the last other character. */
  function TrimEnd(s: string): (r: string)
    ensures |r| <= |s| && r == s[..|r|]
    ensures AllWhitespace(s[|r|..])
    ensures r == [] || !IsWhitespace(r[|r| - 1])
  {
    if s == [] || !IsWhitespace(s[|s| - 1]) then s
    else
      var r := TrimEnd(s[..|s| - 1]);
      assert s[..|s| - 1][|r|..] == s[|r|..|s| - 1];
      r
  }

  /** `String.prototype.trim`. */
  function Trim(s: string): (r: string)
    ensures |r| <= |s|
    ensures r == [] || (!IsWhitespace(r[0]) && !IsWhitespace(r[|r| - 1]))
  {
    TrimEnd(TrimStart(s))
  }

  /** `trim` removes exactly the surrounding whitespace: its result is the stretch of the input
      between a whitespace prefix and a whitespace suffix. */
  lemma TrimKeepsTheMiddle(s: string)
    ensures exists a, b :: 0 <= a <= b <= |s| && Trim(s) == s[a..b] && AllWhitespace(s[..a]) && AllWhitespace(s[b..])
  {
    var t := TrimStart(s);
    var r := Trim(s);
    var a, b := |s| - |t|, |s| - |t| + |r|;
    assert t[..|r|] == s[a..b];
    assert t[|r|..] == s[b..];
  }

  /** `trim` gives the empty string exactly for an input that is all whitespace. */
  lemma TrimEmptyExactlyWhitespace(s: string)
    ensures Trim(s) == [] <==> AllWhitespace(s)
  {
    var t := TrimStart(s);
    var a := |s| - |t|;
    if Trim(s) == [] {
      assert t == [];
      assert s == s[..a];
    } else {
      assert s[a] == t[0] == Trim(s)[0];
    }
  }

  lemma TrimIdempotent(s: string)
    ensures Trim(Trim(s)) == Trim(s)
  {
    var t := Trim(s);
    if t != [] {
      assert TrimStart(t) == t;
      assert TrimEnd(t) == t;
    }
  }

  /** Surrounding whitespace never changes what `trim` returns. */
  lemma {:induction false} TrimIgnoresPadding(pre: string, s: string, post: string)
    requires AllWhitespace(pre) && AllWhitespace(post)
    ensures Trim(pre + s + post) == Trim(s)
  {
    assert pre + s + post == pre + (s + post);
    TrimStartPadding(pre, s + post);
    TrimStartAppend(s, post);
    assert Trim(pre + s + post) == TrimEnd(TrimStart(s + post));
  }

  lemma {:induction false} TrimStartPadding(pre: string, s: string)
    requires AllWhitespace(pre)
    ensures TrimStart(pre + s) == TrimStart(s)
  {
    if pre != [] {
      assert (pre + s)[0] == pre[0];
      assert (pre + s)[1..] == pre[1..] + s;
      TrimStartPadding(pre[1..], s);
    } else {
      assert pre + s == s;
    }
  }

  lemma {:induction false} TrimEndPadding(s: string, post: string)
    requires AllWhitespace(post)
    ensures TrimEnd(s + post) == TrimEnd(s)
  {
    if post != [] {
      var shorter := post[..|post| - 1];
      assert (s + post)[..|s + post| - 1] == s + shorter;
      TrimEndPadding(s, shorter);
    } else {
      assert s + post == s;
    }
  }

  /** Trimming the front commutes with appending trailing whitespace, up to a final `TrimEnd`. */
  lemma {:induction false} TrimStartAppend(s: string, post: string)
    requires AllWhitespace(post)
    ensures TrimEnd(TrimStart(s + post)) == TrimEnd(TrimStart(s))
  {
    if s == [] {
      assert s + post == post;
      var r := TrimStart(post);
      assert AllWhitespace(r);
      AllWhitespaceTrimEnd(r);
    } else if !IsWhitespace(s[0]) {
      assert TrimStart(s + post) == s + post;
      TrimEndPadding(s, post);
    } else {
      assert (s + post)[1..] == s[1..] + post;
      TrimStartAppend(s[1..], post);
    }
  }

  lemma AllWhitespaceTrimEnd(s: string)
    requires AllWhitespace(s)
    ensures TrimEnd(s) == []
  {
  }

  /** `toLowerCase` on one character (the ASCII letters; see README for the rest of Unicode). */
  function ToLowerChar(c: char): (r: char)
    ensures 'A' <= c <= 'Z' ==> r != c && 'a' <= r <= 'z'
    ensures !('A' <= c <= 'Z') ==> r == c
    ensures !('A' <= r <= 'Z')
  {
    if 'A' <= c <= 'Z' then (c as int + 32) as char else c
  }

  function ToUpperChar(c: char): char {
    if 'a' <= c <= 'z' then (c as int - 32) as char else c
  }

  /** `String.prototype.toLowerCase`. */
  function ToLower(s: string): (r: string)
    ensures |r| == |s|
    ensures forall i :: 0 <= i < |s| ==> r[i] == ToLowerChar(s[i])
  {
    if s == [] then [] else [ToLowerChar(s[0])] + ToLower(s[1..])
  }

  /** `String.prototype.toUpperCase`, only used to state that lower-casing forgets case. */
  function ToUpper(s: string): (r: string)
    ensures |r| == |s|
    ensures forall i :: 0 <= i < |s| ==> r[i] == ToUpperChar(s[i])
  {
    if s == [] then [] else [ToUpperChar(s[0])] + ToUpper(s[1..])
  }

  lemma ToLowerIdempotent(s: string)
    ensures ToLower(ToLower(s)) == ToLower(s)
  {
  }

  /** Lower-casing maps a string and its upper-cased variant to the same value. */
  lemma ToLowerForgetsCase(s: string)
    ensures ToLower(ToUpper(s)) == ToLower(s)
  {
  }

  /** Neither trimming nor lower-casing creates whitespace at the ends, so each undoes nothing of the other. */
  lemma {:induction false} ToLowerKeepsWhitespace(s: string)
    ensures forall i :: 0 <= i < |s| ==> (IsWhitespace(ToLower(s)[i]) <==> IsWhitespace(s[i]))
  {
  }

  predicate StartsWith(s: string, prefix: string) {
    |prefix| <= |s| && s[..|prefix|] == prefix
  }

  /** Concatenates the pieces with `sep` between consecutive ones (`Array.prototype.join`). */
  function Join(pieces: seq<string>, sep: char): string {
    if pieces == [] then []
    else if |pieces| == 1 then pieces[0]
    else pieces[0] + [sep] + Join(pieces[1..], sep)
  }

  /** `String.prototype.split` on a one-character separator: the pieces between separators, including
      empty ones, so the result is never empty and joining it back gives the input. */
  function Split(s: string, sep: char): (r: seq<string>)
    ensures |r| >= 1
    ensures forall k :: 0 <= k < |r| ==> sep !in r[k]
    ensures Join(r, sep) == s
  {
    if s == [] then [[]]
    else
      var rest := Split(s[1..], sep);
      if s[0] == sep then
        assert Join([[]] + rest, sep) == [sep] + Join(rest, sep);
        [[]] + rest
      else
        var r := [[s[0]] + rest[0]] + rest[1..];
        assert r[1..] == rest[1..];
        r
  }

  /** Splitting undoes joining when no piece contains the separator. */
  lemma {:induction false} SplitJoin(pieces: seq<string>, sep: char)
    requires |pieces| >= 1
    requires forall k :: 0 <= k < |pieces| ==> sep !in pieces[k]
    ensures Split(Join(pieces, sep), sep) == pieces
  {
    if |pieces| == 1 {
      SplitNoSeparator(pieces[0], sep);
    } else {
      var tail := pieces[1..];
      SplitJoin(tail, sep);
      SplitPrefix(pieces[0], Join(tail, sep), sep);
      assert [tail[0]] + tail[1..] == tail;
    }
  }

  lemma {:induction false} SplitNoSeparator(s: string, sep: char)
    requires sep !in s
    ensures Split(s, sep) == [s]
  {
    if s != [] {
      SplitNoSeparator(s[1..], sep);
    }
  }

  /** Splitting `a + sep + b` when `a` holds no separator: `a` becomes the first piece. */
  lemma {:induction false} SplitPrefix(a: string, b: string, sep: char)
    requires sep !in a
    ensures Split(a + [sep] + b, sep) == [a] + Split(b, sep)
  {
    if a == [] {
      assert a + [sep] + b == [sep] + b;
      assert ([sep] + b)[1..] == b;
    } else {
      assert (a + [sep] + b)[1..] == a[1..] + [sep] + b;
      SplitPrefix(a[1..], b, sep);
      assert [a[0]] + a[1..] == a;
    }
  }

  predicate IsDigit(c: char) {
    '0' <= c <= '9'
  }

  function DigitChar(d: nat): (c: char)
    requires d < 10
    ensures IsDigit(c)
  {
    ('0' as int + d) as char
  }

  /** The decimal rendering of a natural number, as a template string prints it. */
  function NatToDecimal(n: nat): (r: string)
    ensures |r| >= 1
    ensures forall i :: 0 <= i < |r| ==> IsDigit(r[i])
    ensures r[0] == '0' ==> n == 0
  {
    if n < 10 then [DigitChar(n)] else NatToDecimal(n / 10) + [DigitChar(n % 10)]
  }

  /** The value of a string of decimal digits. */
  function DecimalValue(s: string): nat
    requires forall i :: 0 <= i < |s| ==> IsDigit(s[i])
  {
    if s == [] then 0
    else
      assert IsDigit(s[|s| - 1]);
      10 * DecimalValue(s[..|s| - 1]) + (s[|s| - 1] as int - '0' as int)
  }

  /** Reading back a rendered number gives the number. */
  lemma {:induction false} DecimalRoundTrip(n: nat)
    ensures DecimalValue(NatToDecimal(n)) == n
  {
    var r := NatToDecimal(n);
    if n >= 10 {
      DecimalRoundTrip(n / 10);
      assert r[..|r| - 1] == NatToDecimal(n / 10);
    } else {
      assert r[..0] == [];
    }
  }

  /** The decimal rendering of an integer, with a minus sign when negative. */
  function IntToDecimal(i: int): string {
    if i < 0 then "-" + NatToDecimal(-i) else NatToDecimal(i)
  }
}
