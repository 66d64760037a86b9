/**
 * String helpers shared by the model. A JavaScript string is a sequence of
 * UTF-16 code units; here it is a `seq<char>` of Unicode scalar values, so
 * `.length` is modelled by `|s|`, which counts characters rather than code
 * units (the two agree on text without supplementary-plane characters), and
 * `substring(0, n)` is a prefix.
 */
module Strings {

  /** The characters `String.prototype.trim` strips: ECMAScript WhiteSpace and LineTerminator. */
  predicate IsJsWhitespace(c: char) {
    var n := c as int;
    n == 0x09 || n == 0x0A || n == 0x0B || n == 0x0C || n == 0x0D || n == 0x20
    || n == 0xA0 || n == 0x1680 || (0x2000 <= n <= 0x200A) || n == 0x2028 || n == 0x2029
    || n == 0x202F || n == 0x205F || n == 0x3000 || n == 0xFEFF
  }

  predicate AllWhitespace(s: string) {
    forall i :: 0 <= i < |s| ==> IsJsWhitespace(s[i])
  }

  /** `s.substring(0, n)`: the first `min(|s|, n)` characters of `s`. */
  function Prefix(s: string, n: nat): (r: string)
    ensures |r| == if |s| < n then |s| else n
    ensures r <= s
  {
    if |s| < n then s else s[..n]
  }

  /** `parts.join(sep)`. */
  function Join(parts: seq<string>, sep: string): string
    decreases |parts|
  {
    if |parts| == 0 then ""
    else if |parts| == 1 then parts[0]
    else parts[0] + sep + Join(parts[1..], sep)
  }

  /** The joined string is empty for no parts; otherwise it starts with the first part and ends with the last. */
  lemma {:induction false} JoinEnds(parts: seq<string>, sep: string)
    ensures |parts| == 0 ==> Join(parts, sep) == ""
    ensures |parts| > 0 ==> var r, first := Join(parts, sep), parts[0];
      |first| <= |r| && r[..|first|] == first
    ensures |parts| > 0 ==> var r, last := Join(parts, sep), parts[|parts| - 1];
      |last| <= |r| && r[|r| - |last|..] == last
    decreases |parts|
  {
    if |parts| > 1 {
      var rest := Join(parts[1..], sep);
      JoinEnds(parts[1..], sep);
      var r := parts[0] + sep + rest;
      assert r[..|parts[0]|] == parts[0];
      assert r[|r| - |rest|..] == rest;
    }
  }

  /** Appending one part extends the joined string by the separator and that part. */
  lemma {:induction false} JoinSnoc(parts: seq<string>, p: string, sep: string)
    requires |parts| > 0
    ensures Join(parts + [p], sep) == Join(parts, sep) + sep + p
    decreases |parts|
  {
    if |parts| == 1 {
      assert parts + [p] == [parts[0], p];
      assert (parts + [p])[1..] == [p];
    } else {
      assert (parts + [p])[1..] == parts[1..] + [p];
      JoinSnoc(parts[1..], p, sep);
    }
  }

  function DigitChar(d: nat): (c: char)
    requires d < 10
    ensures '0' <= c <= '9'
  {
    "0123456789"[d]
  }

  /** The decimal rendering of `n`, as a template literal `${n}` gives it. */
  function NatToString(n: nat): (r: string)
    ensures |r| > 0
    ensures forall i :: 0 <= i < |r| ==> '0' <= r[i] <= '9'
    ensures n < 10 ==> r == [DigitChar(n)]
    decreases n
  {
    if n < 10 then [DigitChar(n)] else NatToString(n / 10) + [DigitChar(n % 10)]
  }

  /** `s.trimStart()`: drops the leading whitespace and nothing else. */
  function TrimStart(s: string): (r: string)
    ensures |r| <= |s| && r == s[|s| - |r|..]
    ensures AllWhitespace(s[..|s| - |r|])
    ensures r == [] || !IsJsWhitespace(r[0])
    decreases |s|
  {
    if |s| > 0 && IsJsWhitespace(s[0]) then
      var r := TrimStart(s[1..]);
      var n := |s| - |r|;
      assert s[..n] == [s[0]] + s[1..][..n - 1];
      AllWhitespaceConcat([s[0]], s[1..][..n - 1]);
      r
    else
      s
  }

  /** `s.trimEnd()`: drops the trailing whitespace and nothing else. */
  function TrimEnd(s: string): (r: string)
    ensures |r| <= |s| && r == s[..|r|]
    ensures AllWhitespace(s[|r|..])
    ensures r == [] || !IsJsWhitespace(r[|r| - 1])
    decreases |s|
  {
    if |s| > 0 && IsJsWhitespace(s[|s| - 1]) then
      var init := s[..|s| - 1];
      var r := TrimEnd(init);
      assert s[|r|..] == init[|r|..] + [s[|s| - 1]];
      AllWhitespaceConcat(init[|r|..], [s[|s| - 1]]);
      r
    else
      s
  }

  /** `s.trim()`: `s` without its leading and trailing whitespace; it neither starts nor ends with whitespace. */
  function Trim(s: string): (r: string)
    ensures |r| <= |s|
    ensures r == [] || (!IsJsWhitespace(r[0]) && !IsJsWhitespace(r[|r| - 1]))
  {
    TrimEnd(TrimStart(s))
  }

  /**
   * The trimmed string is the infix of `s` that is left once the leading
   * whitespace (of length `k`) and the trailing whitespace are removed.
   */
  lemma TrimIsInfix(s: string) returns (k: nat)
    ensures var r := Trim(s);
      k + |r| <= |s| && r == s[k..k + |r|] && AllWhitespace(s[..k]) && AllWhitespace(s[k + |r|..])
  {
    var t := TrimStart(s);
    var r := TrimEnd(t);
    k := |s| - |t|;
    SliceOfSuffix(s, k, |r|);
  }

  lemma {:induction false} TrimStartOfWhitespacePrefix(a: string, m: string)
    requires AllWhitespace(a)
    requires m == [] || !IsJsWhitespace(m[0])
    ensures TrimStart(a + m) == m
    decreases |a|
  {
    if |a| > 0 {
      assert (a + m)[1..] == a[1..] + m;
      TrimStartOfWhitespacePrefix(a[1..], m);
    } else {
      assert a + m == m;
    }
  }

  lemma {:induction false} TrimEndOfWhitespaceSuffix(m: string, b: string)
    requires AllWhitespace(b)
    requires m == [] || !IsJsWhitespace(m[|m| - 1])
    ensures TrimEnd(m + b) == m
    decreases |b|
  {
    if |b| > 0 {
      assert (m + b)[..|m + b| - 1] == m + b[..|b| - 1];
      TrimEndOfWhitespaceSuffix(m, b[..|b| - 1]);
    } else {
      assert m + b == m;
    }
  }

  /**
   * Trim is determined by its contract: whatever whitespace surrounds a string
   * that neither starts nor ends with whitespace is exactly what trim removes.
   */
  lemma {:induction false} TrimCharacterization(a: string, m: string, b: string)
    requires AllWhitespace(a) && AllWhitespace(b)
    requires m == [] || (!IsJsWhitespace(m[0]) && !IsJsWhitespace(m[|m| - 1]))
    ensures Trim(a + m + b) == m
  {
    if m == [] {
      assert a + m + b == a + b;
      assert AllWhitespace(a + b);
      TrimStartOfWhitespacePrefix(a + b, []);
      assert a + b + [] == a + b;
    } else {
      assert a + m + b == a + (m + b);
      TrimStartOfWhitespacePrefix(a, m + b);
      TrimEndOfWhitespaceSuffix(m, b);
    }
  }

  /** Trimming twice is trimming once. */
  lemma TrimIdempotent(s: string)
    ensures Trim(Trim(s)) == Trim(s)
  {
    var r := Trim(s);
    assert TrimStart(r) == r;
    assert TrimEnd(r) == r;
  }

  lemma AllWhitespaceConcat(u: string, v: string)
    requires AllWhitespace(u) && AllWhitespace(v)
    ensures AllWhitespace(u + v)
  {
    forall i | 0 <= i < |u + v| ensures IsJsWhitespace((u + v)[i]) {
      if i < |u| { assert (u + v)[i] == u[i]; } else { assert (u + v)[i] == v[i - |u|]; }
    }
  }

  /** Whitespace appended at the end does not change the trimmed string. */
  lemma TrimIgnoresTrailingWhitespace(s: string, w: string)
    requires AllWhitespace(w)
    ensures Trim(s + w) == Trim(s)
  {
    var r := Trim(s);
    var k := TrimIsInfix(s);
    var a, b := s[..k], s[k + |r|..];
    var ar := a + r;
    SplitAround(s, k, r);
    AllWhitespaceConcat(b, w);
    var bw := b + w;
    AppendAssoc(ar, b, w);
    TrimCharacterization(a, r, bw);
  }

  /** Taking a prefix of a suffix, and the rest of that suffix, as slices of the whole. */
  lemma SliceOfSuffix(s: string, k: nat, n: nat)
    requires k + n <= |s|
    ensures s[k..][..n] == s[k..k + n] && s[k..][n..] == s[k + n..]
  {
  }

  lemma AppendAssoc(x: string, y: string, z: string)
    ensures x + y + z == x + (y + z)
  {
  }

  lemma SplitAround(s: string, k: nat, r: string)
    requires k + |r| <= |s| && r == s[k..k + |r|]
    ensures s == s[..k] + r + s[k + |r|..]
  {
  }
}
