/** String helpers with the meaning of the JavaScript and Rust library calls the sources use. */
module Text {
  import opened Wrappers

  /** The code points `String.prototype.trim` removes: ECMAScript WhiteSpace and LineTerminator. */
  predicate IsJsSpace(c: char) {
    c == ' ' || c == '\t' || c == '\n' || c == '\r' || c == '\U{000B}' || c == '\U{000C}'
    || c == '\U{00A0}' || c == '\U{1680}' || ('\U{2000}' <= c <= '\U{200A}')
    || c == '\U{2028}' || c == '\U{2029}' || c == '\U{202F}' || c == '\U{205F}'
    || c == '\U{3000}' || c == '\U{FEFF}'
  }

  predicate IsBlank(s: string) {
    forall i :: 0 <= i < |s| ==> IsJsSpace(s[i])
  }

  /** `s.trimStart()`. */
  function TrimStart(s: string): (r: string)
    ensures |r| <= |s|
  {
    if s != [] && IsJsSpace(s[0]) then TrimStart(s[1..]) else s
  }

  /** `trimStart` drops the run of spaces in front, and only that: what is left is a suffix that starts with a non-space. */
  lemma {:induction false} TrimStartSpec(s: string)
    ensures var r := TrimStart(s);
      r == s[|s| - |r|..] && (r == [] || !IsJsSpace(r[0]))
      && forall i :: 0 <= i < |s| - |r| ==> IsJsSpace(s[i])
  {
    if s != [] && IsJsSpace(s[0]) {
      TrimStartSpec(s[1..]);
      var r := TrimStart(s);
      forall i | 0 <= i < |s| - |r|
        ensures IsJsSpace(s[i])
      {
        if i > 0 {
          assert s[i] == s[1..][i - 1];
        }
      }
    }
  }

  /** `s.trimEnd()`. */
  function TrimEnd(s: string): (r: string)
    ensures |r| <= |s|
  {
    if s != [] && IsJsSpace(s[|s| - 1]) then TrimEnd(s[..|s| - 1]) else s
  }

  /** `trimEnd` drops the run of spaces at the end, and only that. */
  lemma {:induction false} TrimEndSpec(s: string)
    ensures var r := TrimEnd(s);
      r == s[..|r|] && (r == [] || !IsJsSpace(r[|r| - 1]))
      && forall i :: |r| <= i < |s| ==> IsJsSpace(s[i])
  {
    if s != [] && IsJsSpace(s[|s| - 1]) {
      var p := s[..|s| - 1];
      TrimEndSpec(p);
      var r := TrimEnd(s);
      assert r == TrimEnd(p);
      assert p[..|r|] == s[..|r|];
      forall i | |r| <= i < |s|
        ensures IsJsSpace(s[i])
      {
        if i < |s| - 1 {
          assert s[i] == p[i];
        }
      }
    }
  }

  /** `s.trim()`. */
  function Trim(s: string): (r: string)
    ensures |r| <= |s|
    ensures r == [] <==> IsBlank(s)
  {
    var a := TrimStart(s);
    TrimEmptyIffBlank(s);
    TrimEnd(a)
  }

  /** The trim is the longest slice of `s` that starts and ends with a non-space. */
  lemma TrimSpec(s: string)
    ensures var r := Trim(s);
      (r == [] || (!IsJsSpace(r[0]) && !IsJsSpace(r[|r| - 1])))
      && |r| <= |TrimStart(s)| && r == TrimStart(s)[..|r|]
      && TrimStart(s) == s[|s| - |TrimStart(s)|..]
  {
    var a := TrimStart(s);
    TrimStartSpec(s);
    TrimEndSpec(a);
    var r := TrimEnd(a);
    if r != [] {
      assert r[0] == a[0];
    }
  }

  lemma TrimEmptyIffBlank(s: string)
    ensures TrimEnd(TrimStart(s)) == [] <==> IsBlank(s)
  {
    var a := TrimStart(s);
    TrimStartSpec(s);
    TrimEndSpec(a);
    if TrimEnd(a) == [] {
      assert a == [];
    } else {
      assert !IsJsSpace(s[|s| - |a|]);
    }
  }

  lemma {:induction false} TrimIdempotent(s: string)
    ensures Trim(Trim(s)) == Trim(s)
  {
    var t := Trim(s);
    TrimSpec(s);
    if t != [] {
      assert TrimStart(t) == t;
      assert TrimEnd(t) == t;
    }
  }

  /** Text that neither starts nor ends with a space is its own trim. */
  lemma TrimUnspaced(s: string)
    requires s == [] || (!IsJsSpace(s[0]) && !IsJsSpace(s[|s| - 1]))
    ensures Trim(s) == s
  {
    assert TrimStart(s) == s;
  }

  /** Trimming only removes characters, so a character absent from `s` is absent from its trim. */
  lemma TrimKeepsOut(s: string, c: char)
    requires c !in s
    ensures c !in Trim(s)
  {
    var a := TrimStart(s);
    var r := Trim(s);
    TrimSpec(s);
    forall i | 0 <= i < |r|
      ensures r[i] != c
    {
      assert r[i] == a[i] == s[|s| - |a| + i];
    }
  }

  /** Lower-casing neither adds nor removes a character outside A-Z. */
  lemma LowerKeeps(s: string, c: char)
    requires !('A' <= c <= 'Z') && !('a' <= c <= 'z')
    ensures c in Lower(s) <==> c in s
  {
    if c in s {
      var i :| 0 <= i < |s| && s[i] == c;
      assert Lower(s)[i] == c;
    }
  }

  /** ASCII lower-casing of one character (`toLowerCase` restricted to A-Z). */
  function LowerChar(c: char): (r: char)
    ensures 'A' <= c <= 'Z' ==> 'a' <= r <= 'z' && r as int == c as int + 32
    ensures !('A' <= c <= 'Z') ==> r == c
  {
    if 'A' <= c <= 'Z' then (c as int + 32) as char else c
  }

  function Lower(s: string): (r: string)
    ensures |r| == |s| && forall i :: 0 <= i < |s| ==> r[i] == LowerChar(s[i])
  {
    seq(|s|, i requires 0 <= i < |s| => LowerChar(s[i]))
  }

  lemma LowerIdempotent(s: string)
    ensures Lower(Lower(s)) == Lower(s)
  {
  }

  predicate IsPrefix(p: string, s: string) {
    |p| <= |s| && s[..|p|] == p
  }

  /** `s.startsWith(p, i)`. */
  predicate StartsAt(s: string, i: nat, p: string) {
    i + |p| <= |s| && s[i..i + |p|] == p
  }

  /** `hay.includes(needle)` / Rust `str::contains`. */
  predicate Contains(hay: string, needle: string) {
    exists i :: 0 <= i <= |hay| - |needle| && StartsAt(hay, i, needle)
  }

  lemma ContainsAt(hay: string, needle: string, i: nat)
    requires StartsAt(hay, i, needle)
    ensures Contains(hay, needle)
  {
  }

  lemma ContainsEmpty(hay: string)
    ensures Contains(hay, "")
  {
    assert StartsAt(hay, 0, "");
  }

  predicate IsDigit(c: char) {
    '0' <= c <= '9'
  }

  predicate AllDigits(s: string) {
    forall i :: 0 <= i < |s| ==> IsDigit(s[i])
  }

  function DigitValue(c: char): (r: nat)
    requires IsDigit(c)
    ensures r < 10
  {
    c as int - '0' as int
  }

  function DigitChar(d: nat): (c: char)
    requires d < 10
    ensures IsDigit(c) && DigitValue(c) == d
  {
    ('0' as int + d) as char
  }

  /** The value of a run of decimal digits, most significant first. */
  function DigitsValue(s: string): nat
    requires AllDigits(s)
  {
    if s == [] then 0 else DigitsValue(s[..|s| - 1]) * 10 + DigitValue(s[|s| - 1])
  }

  /** Decimal rendering of a natural number, as `String(n)` does. */
  function NatToString(n: nat): (r: string)
    ensures |r| >= 1 && AllDigits(r)
    ensures n == 0 <==> r == "0"
    ensures r[0] == '0' ==> n == 0
  {
    if n < 10 then [DigitChar(n)] else NatToString(n / 10) + [DigitChar(n % 10)]
  }

  lemma {:induction false} NatToStringValue(n: nat)
    ensures DigitsValue(NatToString(n)) == n
  {
    var r := NatToString(n);
    if n >= 10 {
      NatToStringValue(n / 10);
      assert r[..|r| - 1] == NatToString(n / 10);
    }
  }

  function IntToString(i: int): (r: string)
    ensures r != []
    ensures i < 0 <==> r[0] == '-'
    ensures i >= 0 ==> r == NatToString(i)
  {
    if i < 0 then "-" + NatToString(-i) else NatToString(i)
  }

  function Pow10(k: nat): (r: nat)
    ensures r >= 1
  {
    if k == 0 then 1 else 10 * Pow10(k - 1)
  }

  lemma {:induction false} DigitsValueBound(s: string)
    requires AllDigits(s)
    ensures DigitsValue(s) < Pow10(|s|)
  {
    if s != [] {
      DigitsValueBound(s[..|s| - 1]);
    }
  }

  lemma {:induction false} Pow10Monotone(k: nat, n: nat)
    requires k <= n
    ensures Pow10(k) <= Pow10(n)
  {
    if k < n {
      Pow10Monotone(k, n - 1);
    }
  }

  /** At most `n` digits stay below 10^n; 100 and 10000 for two and four digits. */
  lemma DigitsBelow(s: string, n: nat)
    requires AllDigits(s) && |s| <= n
    ensures DigitsValue(s) < Pow10(n)
    ensures Pow10(2) == 100 && Pow10(4) == 10000
  {
    DigitsValueBound(s);
    Pow10Monotone(|s|, n);
  }

  /** The longest prefix of `s` made of decimal digits. */
  function DigitPrefix(s: string): (r: string)
    ensures IsPrefix(r, s) && AllDigits(r)
    ensures |r| < |s| ==> !IsDigit(s[|r|])
  {
    if s != [] && IsDigit(s[0]) then [s[0]] + DigitPrefix(s[1..]) else []
  }

  /**
   * `parseInt(s)` for decimal text: leading white space, an optional sign and
   * the longest run of digits; `None` stands for NaN.
   */
  function ParseIntJs(s: string): (r: Option<int>)
    ensures r.None? <==> DigitPrefix(SignFree(TrimStart(s))) == []
  {
    var t := TrimStart(s);
    var negative := t != [] && t[0] == '-';
    var digits := DigitPrefix(SignFree(t));
    if digits == [] then None
    else
      var v: int := DigitsValue(digits);
      if negative then Some(-v) else Some(v)
  }

  function SignFree(t: string): (r: string)
    ensures r == t || (t != [] && (t[0] == '-' || t[0] == '+') && r == t[1..])
  {
    if t != [] && (t[0] == '-' || t[0] == '+') then t[1..] else t
  }

  lemma {:induction false} DigitPrefixOfDigits(s: string, rest: string)
    requires AllDigits(s)
    requires rest == [] || !IsDigit(rest[0])
    ensures DigitPrefix(s + rest) == s
  {
    if s != [] {
      assert (s + rest)[1..] == s[1..] + rest;
      DigitPrefixOfDigits(s[1..], rest);
      assert [s[0]] + s[1..] == s;
    } else {
      assert s + rest == rest;
    }
  }

  lemma ParseIntOfNat(n: nat)
    ensures ParseIntJs(NatToString(n)) == Some(n)
  {
    var r := NatToString(n);
    assert TrimStart(r) == r;
    assert SignFree(r) == r;
    DigitPrefixOfDigits(r, []);
    assert r + [] == r;
    NatToStringValue(n);
  }

  /** `s.split(c)`: the pieces between occurrences of `c`; always at least one piece. */
  function Split(s: string, c: char): (r: seq<string>)
    ensures |r| >= 1
    ensures forall k :: 0 <= k < |r| ==> c !in r[k]
    ensures c !in s ==> r == [s]
  {
    if c !in s then [s]
    else
      var i := IndexOf(s, c);
      [s[..i]] + Split(s[i + 1..], c)
  }

  function IndexOf(s: string, c: char): (i: nat)
    requires c in s
    ensures i < |s| && s[i] == c && c !in s[..i]
  {
    FirstFrom(s, c, 0)
  }

  /** The first index at or after `j` holding `c`. */
  function FirstFrom(s: string, c: char, j: nat): (i: nat)
    requires j <= |s| && exists k :: j <= k < |s| && s[k] == c
    ensures j <= i < |s| && s[i] == c
    ensures forall k :: j <= k < i ==> s[k] != c
    decreases |s| - j
  {
    if s[j] == c then j else FirstFrom(s, c, j + 1)
  }

  /** Splitting at the first separator peels off the text before it. */
  lemma SplitCons(x: string, c: char, y: string)
    requires c !in x
    ensures Split(x + [c] + y, c) == [x] + Split(y, c)
  {
    var s := x + [c] + y;
    assert s[|x|] == c;
    var i := IndexOf(s, c);
    assert s[..i] == x;
    assert s[i + 1..] == y;
  }

  function Join(parts: seq<string>, c: char): string
  {
    if parts == [] then [] else if |parts| == 1 then parts[0] else parts[0] + [c] + Join(parts[1..], c)
  }

  lemma {:induction false} JoinSplit(s: string, c: char)
    ensures Join(Split(s, c), c) == s
    decreases |s|
  {
    if c in s {
      var i := IndexOf(s, c);
      var x, y := s[..i], s[i + 1..];
      var r := Split(y, c);
      assert Split(s, c) == [x] + r;
      assert Join([x] + r, c) == x + [c] + Join(r, c) by {
        assert ([x] + r)[0] == x && ([x] + r)[1..] == r;
      }
      JoinSplit(y, c);
      SplitAround(s, i);
    }
  }

  /** A sequence is what comes before index `i`, the element at `i`, and what follows. */
  lemma SplitAround<T>(s: seq<T>, i: nat)
    requires i < |s|
    ensures s == s[..i] + [s[i]] + s[i + 1..]
  {
    assert s[i..] == [s[i]] + s[i + 1..];
    assert s == s[..i] + s[i..];
  }

  /** The index just after the last `c` among the first `n` characters of `s`, or 0 when there is none. */
  function LastCut(s: string, c: char, n: nat): (k: nat)
    requires n <= |s|
    ensures k <= n && (k == 0 || s[k - 1] == c)
    ensures forall j :: k <= j < n ==> s[j] != c
  {
    if n == 0 then 0 else if s[n - 1] == c then n else LastCut(s, c, n - 1)
  }

  /** `s.split(c).pop()`: the text after the last `c`, or all of `s` when there is none. */
  function AfterLast(s: string, c: char): (r: string)
    ensures |r| <= |s|
  {
    s[LastCut(s, c, |s|)..]
  }

  /** What is left after the last `c` is a suffix free of `c`, preceded by `c` unless it is all of `s`. */
  lemma AfterLastShape(s: string, c: char)
    ensures var r := AfterLast(s, c);
      c !in r && r == s[|s| - |r|..] && (|r| < |s| ==> s[|s| - |r| - 1] == c) && (c !in s ==> r == s)
  {
    var k := LastCut(s, c, |s|);
    assert k > 0 ==> s[k - 1] in s;
  }

  /** Cutting after the first `c` shifts the last cut by the length of the dropped prefix. */
  lemma {:induction false} LastCutShift(s: string, c: char, i: nat, n: nat)
    requires i < |s| && s[i] == c && i + 1 <= n <= |s|
    ensures LastCut(s, c, n) == i + 1 + LastCut(s[i + 1..], c, n - i - 1)
    decreases n
  {
    if n > i + 1 {
      assert s[n - 1] == s[i + 1..][n - i - 2];
      if s[n - 1] != c {
        LastCutShift(s, c, i, n - 1);
      }
    }
  }

  lemma {:induction false} AfterLastIsLastPiece(s: string, c: char)
    ensures AfterLast(s, c) == Split(s, c)[|Split(s, c)| - 1]
    decreases |s|
  {
    if c in s {
      var tail := s[IndexOf(s, c) + 1..];
      AfterLastAfterFirst(s, c);
      LastPieceAfterFirst(s, c);
      AfterLastIsLastPiece(tail, c);
    }
  }

  lemma AfterLastAfterFirst(s: string, c: char)
    requires c in s
    ensures AfterLast(s, c) == AfterLast(s[IndexOf(s, c) + 1..], c)
  {
    var i := IndexOf(s, c);
    var tail := s[i + 1..];
    LastCutShift(s, c, i, |s|);
    var k := LastCut(tail, c, |tail|);
    assert s[i + 1 + k..] == tail[k..];
  }

  lemma LastPieceAfterFirst(s: string, c: char)
    requires c in s
    ensures var rest := Split(s[IndexOf(s, c) + 1..], c);
      Split(s, c)[|Split(s, c)| - 1] == rest[|rest| - 1]
  {
    var rest := Split(s[IndexOf(s, c) + 1..], c);
    assert Split(s, c) == [s[..IndexOf(s, c)]] + rest;
  }

  /** The larger of two integers. */
  function Max(a: int, b: int): (r: int)
    ensures r >= a && r >= b && (r == a || r == b)
  {
    if a >= b then a else b
  }

  function Min(a: int, b: int): (r: int)
    ensures r <= a && r <= b && (r == a || r == b)
  {
    if a <= b then a else b
  }

  /** Two-digit zero padding, `String(n).padStart(2, '0')` for n < 100. */
  function Pad2(n: nat): (r: string)
    requires n < 100
    ensures |r| == 2 && AllDigits(r) && DigitsValue(r) == n
  {
    var r := [DigitChar(n / 10), DigitChar(n % 10)];
    assert r[..1] == [DigitChar(n / 10)];
    assert r[..1][..0] == [];
    assert DigitsValue(r[..1]) == n / 10;
    r
  }

  /** One character of `[a-zA-Z0-9_]`. */
  predicate IsKeyChar(c: char) {
    'a' <= c <= 'z' || 'A' <= c <= 'Z' || IsDigit(c) || c == '_'
  }

  /** `/^[a-zA-Z0-9_]+$/.test(s)`: the shape of a field key. */
  predicate IsKey(s: string) {
    s != [] && forall i :: 0 <= i < |s| ==> IsKeyChar(s[i])
  }

  /** Splitting the joined pieces gives the pieces back, when no piece holds the separator. */
  lemma {:induction false} SplitJoin(parts: seq<string>, c: char)
    requires parts != [] && forall k :: 0 <= k < |parts| ==> c !in parts[k]
    ensures Split(Join(parts, c), c) == parts
  {
    if |parts| > 1 {
      SplitJoin(parts[1..], c);
      SplitCons(parts[0], c, Join(parts[1..], c));
      assert parts == [parts[0]] + parts[1..];
    }
  }
}
