/**
 * The JavaScript string and array primitives the citation formatter is built
 * from: `String.prototype.split` with a non-empty separator, `Array.prototype.join`,
 * `String.prototype.trim`, `String.prototype.includes`, `Array.prototype.indexOf`
 * and the decimal rendering of a non-negative number (`"" + n`).
 */
module JsString {

  /** The characters `trim()` removes: ECMAScript WhiteSpace and LineTerminator. */
  predicate IsSpace(c: char) {
    || c == ' ' || c == '\t' || c == '\n' || c == '\r' || c == '\U{B}' || c == '\U{C}'
    || c == '\U{A0}' || c == '\U{1680}' || ('\U{2000}' <= c <= '\U{200A}')
    || c == '\U{2028}' || c == '\U{2029}' || c == '\U{202F}' || c == '\U{205F}'
    || c == '\U{3000}' || c == '\U{FEFF}'
  }

  predicate AllSpace(s: string) {
    forall i :: 0 <= i < |s| ==> IsSpace(s[i])
  }

  /** Neither end of `s` is a space: what `trim()` leaves. */
  predicate Trimmed(s: string) {
    s == [] || (!IsSpace(s[0]) && !IsSpace(s[|s| - 1]))
  }

  function TrimStart(s: string): string {
    if s != [] && IsSpace(s[0]) then TrimStart(s[1..]) else s
  }

  function TrimEnd(s: string): string {
    if s != [] && IsSpace(s[|s| - 1]) then TrimEnd(s[..|s| - 1]) else s
  }

  /** `s.trim()`: `s` without its leading and trailing spaces. */
  function Trim(s: string): string {
    TrimEnd(TrimStart(s))
  }

  /** `TrimStart` drops exactly the leading spaces. */
  lemma {:induction false} TrimStartSpec(s: string)
    ensures var r := TrimStart(s);
      && |r| <= |s| && r == s[|s| - |r|..]
      && AllSpace(s[..|s| - |r|])
      && (r == [] || !IsSpace(r[0]))
  {
    if s != [] && IsSpace(s[0]) {
      TrimStartSpec(s[1..]);
      var r := TrimStart(s);
      assert s[..|s| - |r|] == [s[0]] + s[1..][..|s| - 1 - |r|];
    }
  }

  /** `TrimEnd` drops exactly the trailing spaces. */
  lemma {:induction false} TrimEndSpec(s: string)
    ensures var r := TrimEnd(s);
      && |r| <= |s| && r == s[..|r|]
      && AllSpace(s[|r|..])
      && (r == [] || !IsSpace(r[|r| - 1]))
  {
    if s != [] && IsSpace(s[|s| - 1]) {
      TrimEndSpec(s[..|s| - 1]);
      var r := TrimEnd(s);
      assert s[|r|..] == s[..|s| - 1][|r|..] + [s[|s| - 1]];
    }
  }

  /**
   * `trim()` cuts `s` into leading spaces, a trimmed middle and trailing
   * spaces, and returns the middle.
   */
  lemma TrimSpec(s: string)
    ensures var i := |s| - |TrimStart(s)|; var r := Trim(s);
      && 0 <= i && i + |r| <= |s| && r == s[i..i + |r|]
      && AllSpace(s[..i]) && AllSpace(s[i + |r|..])
      && Trimmed(r)
  {
    var t := TrimStart(s);
    TrimStartSpec(s);
    TrimEndSpec(t);
    var i := |s| - |t|;
    var r := Trim(s);
    assert r == s[i..i + |r|];
    assert s[i + |r|..] == t[|r|..];
    assert r != [] ==> r[0] == t[0];
  }

  lemma {:induction false} TrimStartPadded(a: string, s: string)
    requires AllSpace(a) && (s == [] || !IsSpace(s[0]))
    ensures TrimStart(a + s) == s
    decreases |a|
  {
    if a != [] {
      assert (a + s)[1..] == a[1..] + s;
      TrimStartPadded(a[1..], s);
    } else {
      assert a + s == s;
    }
  }

  lemma {:induction false} TrimEndPadded(s: string, b: string)
    requires AllSpace(b) && (s == [] || !IsSpace(s[|s| - 1]))
    ensures TrimEnd(s + b) == s
    decreases |b|
  {
    if b != [] {
      assert (s + b)[..|s + b| - 1] == s + b[..|b| - 1];
      TrimEndPadded(s, b[..|b| - 1]);
    } else {
      assert s + b == s;
    }
  }

  /** Trimming removes exactly the surrounding spaces: trim(a + s + b) == s. */
  lemma TrimPadded(a: string, s: string, b: string)
    requires AllSpace(a) && AllSpace(b) && Trimmed(s)
    ensures Trim(a + s + b) == s
  {
    if s == [] {
      assert a + s + b == a + b;
      TrimAllSpace(a + b);
    } else {
      assert a + s + b == a + (s + b);
      assert (s + b)[0] == s[0];
      TrimStartPadded(a, s + b);
      TrimEndPadded(s, b);
    }
  }

  lemma TrimAllSpace(s: string)
    requires AllSpace(s)
    ensures Trim(s) == []
  {
    TrimStartSpec(s);
  }

  /** A string without surrounding spaces is its own trim. */
  lemma TrimTrimmed(s: string)
    requires Trimmed(s)
    ensures Trim(s) == s
  {
    assert "" + s + "" == s;
    TrimPadded("", s, "");
  }

  /** `sub` occurs in `s` starting at index `j`. */
  predicate OccursAt(s: string, sub: string, j: int) {
    0 <= j && j + |sub| <= |s| && s[j..j + |sub|] == sub
  }

  lemma OccursAtTail(s: string, sub: string, j: int)
    requires s != [] && 0 <= j
    ensures OccursAt(s, sub, j + 1) <==> OccursAt(s[1..], sub, j)
  {
    if j + 1 + |sub| <= |s| {
      assert s[1..][j..j + |sub|] == s[j + 1..j + 1 + |sub|];
    }
  }

  /** `s.indexOf(sub)`: the first index at which `sub` occurs, or -1. */
  function Find(s: string, sub: string): (r: int)
    ensures -1 <= r && (r >= 0 ==> r + |sub| <= |s|)
    decreases |s|
  {
    if |s| < |sub| then -1
    else if s[..|sub|] == sub then 0
    else
      var r := Find(s[1..], sub);
      if r < 0 then -1 else r + 1
  }

  /** `Find` returns the first occurrence, or -1 when there is none. */
  lemma {:induction false} FindSpec(s: string, sub: string)
    ensures var r := Find(s, sub);
      && -1 <= r <= |s|
      && (r >= 0 ==> OccursAt(s, sub, r))
      && (forall j :: 0 <= j && (r < 0 || j < r) ==> !OccursAt(s, sub, j))
    decreases |s|
  {
    if |s| >= |sub| && s[..|sub|] != sub {
      var r := Find(s, sub);
      var rest := Find(s[1..], sub);
      assert r == if rest < 0 then -1 else rest + 1;
      FindSpec(s[1..], sub);
      if rest >= 0 {
        OccursAtTail(s, sub, rest);
      }
      forall j | 0 <= j && (r < 0 || j < r) ensures !OccursAt(s, sub, j) {
        if j > 0 {
          OccursAtTail(s, sub, j - 1);
        }
      }
    }
  }

  /** `s.includes(sub)`. */
  predicate Contains(s: string, sub: string) {
    Find(s, sub) >= 0
  }

  lemma ContainsAt(s: string, sub: string, j: int)
    requires OccursAt(s, sub, j)
    ensures Contains(s, sub)
  {
    FindSpec(s, sub);
  }

  /** A string holding `long` also holds every prefix of `long`. */
  lemma ContainsPrefix(s: string, long: string, short: string)
    requires Contains(s, long) && short <= long
    ensures Contains(s, short)
  {
    FindSpec(s, long);
    var j := Find(s, long);
    assert s[j..j + |short|] == s[j..j + |long|][..|short|];
    ContainsAt(s, short, j);
  }

  /** `s.split(sep)` for a non-empty separator. */
  function Split(s: string, sep: string): (parts: seq<string>)
    requires sep != []
    ensures |parts| >= 1
    decreases |s|
  {
    var i := Find(s, sep);
    if i < 0 then [s] else [s[..i]] + Split(s[i + |sep|..], sep)
  }

  /** No part that `split` produces contains the separator. */
  lemma {:induction false} SplitPartsClean(s: string, sep: string)
    requires sep != []
    ensures forall k :: 0 <= k < |Split(s, sep)| ==> !Contains(Split(s, sep)[k], sep)
    decreases |s|
  {
    var i := Find(s, sep);
    FindSpec(s, sep);
    if i >= 0 {
      SplitPartsClean(s[i + |sep|..], sep);
      assert !Contains(s[..i], sep) by {
        FindSpec(s[..i], sep);
        forall j | 0 <= j ensures !OccursAt(s[..i], sep, j) {
          if j + |sep| <= i {
            assert s[..i][j..j + |sep|] == s[j..j + |sep|];
            assert !OccursAt(s, sep, j);
          }
        }
      }
    }
  }

  /** `parts.join(sep)`; the join of no parts is the empty string. */
  function Join(parts: seq<string>, sep: string): string {
    if |parts| == 0 then ""
    else if |parts| == 1 then parts[0]
    else parts[0] + sep + Join(parts[1..], sep)
  }

  /** Joining what `split` produced gives back the string. */
  lemma {:induction false} JoinSplit(s: string, sep: string)
    requires sep != []
    ensures Join(Split(s, sep), sep) == s
    decreases |s|
  {
    var i := Find(s, sep);
    FindSpec(s, sep);
    if i >= 0 {
      var rest := s[i + |sep|..];
      assert Split(s, sep) == [s[..i]] + Split(rest, sep);
      JoinSplit(rest, sep);
      JoinCons(s[..i], Split(rest, sep), sep);
      assert s == s[..i] + sep + rest by {
        assert s[i..i + |sep|] == sep;
      }
    }
  }

  lemma JoinCons(x: string, ys: seq<string>, sep: string)
    requires |ys| >= 1
    ensures Join([x] + ys, sep) == x + sep + Join(ys, sep)
  {
    assert ([x] + ys)[1..] == ys;
  }

  /**
   * No occurrence of `sep` starts inside `p`, even when `p` is followed by
   * `sep`: `p` can stand as a part that `split` cuts out unchanged.
   */
  predicate SeparatorFree(p: string, sep: string) {
    forall j :: 0 <= j < |p| ==> !OccursAt(p + sep, sep, j)
  }

  /**
   * A part is separator-free when some character of `sep` occurs neither in
   * the part nor earlier in `sep`.
   */
  lemma SeparatorFreeByChar(p: string, sep: string, c: nat)
    requires c < |sep| && sep[c] !in p && sep[c] !in sep[..c]
    ensures SeparatorFree(p, sep)
  {
    forall j | 0 <= j < |p| ensures !OccursAt(p + sep, sep, j) {
      if j + |sep| <= |p + sep| {
        var w := (p + sep)[j..j + |sep|];
        assert w[c] == (p + sep)[j + c];
        if j + c < |p| {
          assert (p + sep)[j + c] == p[j + c];
        } else {
          assert (p + sep)[j + c] == sep[j + c - |p|];
          assert sep[j + c - |p|] == sep[..c][j + c - |p|];
        }
      }
    }
  }

  lemma FindAfterPart(p: string, sep: string, rest: string)
    requires sep != [] && SeparatorFree(p, sep)
    ensures Find(p + sep + rest, sep) == |p|
  {
    var s := p + sep + rest;
    FindSpec(s, sep);
    assert s[|p|..|p| + |sep|] == sep;
    assert OccursAt(s, sep, |p|);
    forall j | 0 <= j < |p| ensures !OccursAt(s, sep, j) {
      assert s[j..j + |sep|] == (p + sep)[j..j + |sep|];
      assert !OccursAt(p + sep, sep, j);
    }
  }

  lemma FindInPart(p: string, sep: string)
    requires sep != [] && SeparatorFree(p, sep)
    ensures Find(p, sep) == -1
  {
    FindSpec(p, sep);
    forall j | 0 <= j ensures !OccursAt(p, sep, j) {
      if j + |sep| <= |p| {
        assert (p + sep)[j..j + |sep|] == p[j..j + |sep|];
        assert !OccursAt(p + sep, sep, j);
      }
    }
  }

  /** A separator-free string is not cut at all. */
  lemma SplitWhole(s: string, sep: string)
    requires sep != [] && SeparatorFree(s, sep)
    ensures Split(s, sep) == [s]
  {
    FindInPart(s, sep);
  }

  /** A separator-free first part is cut off at the separator that follows it. */
  lemma SplitFirst(p: string, sep: string, rest: string)
    requires sep != [] && SeparatorFree(p, sep)
    ensures Split(p + sep + rest, sep) == [p] + Split(rest, sep)
  {
    var s := p + sep + rest;
    FindAfterPart(p, sep, rest);
    assert s[..|p|] == p;
    assert s[|p| + |sep|..] == rest;
  }

  /** A separator-free part does not contain the separator. */
  lemma SeparatorFreeNotContains(p: string, sep: string)
    requires sep != [] && SeparatorFree(p, sep)
    ensures !Contains(p, sep)
  {
    FindInPart(p, sep);
  }

  /**
   * Splitting a join gives back the parts, when every part but the last is
   * separator-free and the last does not contain the separator.
   */
  lemma {:induction false} SplitJoin(parts: seq<string>, sep: string)
    requires sep != [] && |parts| >= 1
    requires forall k :: 0 <= k < |parts| - 1 ==> SeparatorFree(parts[k], sep)
    requires !Contains(parts[|parts| - 1], sep)
    ensures Split(Join(parts, sep), sep) == parts
  {
    if |parts| > 1 {
      var rest := Join(parts[1..], sep);
      SplitFirst(parts[0], sep, rest);
      SplitJoin(parts[1..], sep);
      assert parts == [parts[0]] + parts[1..];
    }
  }

  /** `xs.indexOf(x)`: the first index holding `x`, or -1. */
  function IndexOf<T(==)>(xs: seq<T>, x: T): (r: int)
    ensures -1 <= r < |xs|
    ensures r >= 0 ==> xs[r] == x && x !in xs[..r]
    ensures r < 0 <==> x !in xs
  {
    if xs == [] then -1
    else if xs[0] == x then 0
    else
      var r := IndexOf(xs[1..], x);
      assert xs == [xs[0]] + xs[1..];
      if r < 0 then -1
      else
        assert xs[..r + 1] == [xs[0]] + xs[1..][..r];
        r + 1
  }

  predicate IsDigit(c: char) {
    '0' <= c <= '9'
  }

  predicate AllDigits(s: string) {
    forall i :: 0 <= i < |s| ==> IsDigit(s[i])
  }

  function Digit(d: nat): (c: char)
    requires d < 10
    ensures IsDigit(c) && c as int - '0' as int == d
  {
    ('0' as int + d) as char
  }

  /** `"" + n`: the decimal digits of `n`, without leading zeros. */
  function Decimal(n: nat): (r: string)
    ensures |r| >= 1 && AllDigits(r)
    ensures r[0] == '0' ==> n == 0
    decreases n
  {
    if n < 10 then [Digit(n)] else Decimal(n / 10) + [Digit(n % 10)]
  }

  /** The number a string of decimal digits denotes. */
  function DecimalValue(s: string): nat
    requires AllDigits(s)
  {
    if s == [] then 0
    else DecimalValue(s[..|s| - 1]) * 10 + (s[|s| - 1] as int - '0' as int)
  }

  /** Reading back the decimal rendering gives the number. */
  lemma {:induction false} DecimalRoundTrip(n: nat)
    ensures DecimalValue(Decimal(n)) == n
    decreases n
  {
    if n >= 10 {
      DecimalRoundTrip(n / 10);
      var r := Decimal(n);
      assert r[..|r| - 1] == Decimal(n / 10);
    }
  }

  /** Distinct numbers render as distinct strings. */
  lemma DecimalInjective(m: nat, n: nat)
    requires Decimal(m) == Decimal(n)
    ensures m == n
  {
    DecimalRoundTrip(m);
    DecimalRoundTrip(n);
  }
}
