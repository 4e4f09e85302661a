/** The few `java.lang.String` / `Integer` operations the core relies on:
    `%d` formatting, `Integer.parseInt`, `String.split(",")`, `isBlank`,
    case mapping, `equalsIgnoreCase` and substring containment. */
module Text {
  import opened Wrappers

  const IntMin: int := -2147483648
  const IntMax: int := 2147483647

  predicate IsDigit(c: char) {
    '0' <= c <= '9'
  }

  predicate AllDigits(s: string) {
    forall i :: 0 <= i < |s| ==> IsDigit(s[i])
  }

  function DigitChar(d: nat): (c: char)
    requires d < 10
    ensures IsDigit(c)
  {
    (48 + d) as char
  }

  function DigitValue(c: char): (d: nat)
    requires IsDigit(c)
    ensures d < 10
  {
    (c as int) - 48
  }

  /** Decimal digits of `n`, most significant first, without leading zeros. */
  function FormatNat(n: nat): (s: string)
    ensures 1 <= |s| && AllDigits(s)
    ensures n >= 10 ==> |s| >= 2
    decreases n
  {
    if n < 10 then [DigitChar(n)] else FormatNat(n / 10) + [DigitChar(n % 10)]
  }

  /** What `String.format("%d", n)` prints. */
  function FormatInt(n: int): string {
    if n < 0 then "-" + FormatNat(-n) else FormatNat(n)
  }

  /** The value of a string of decimal digits. */
  function DigitsValue(s: string): nat
    requires AllDigits(s)
  {
    if s == [] then 0 else DigitsValue(s[..|s| - 1]) * 10 + DigitValue(s[|s| - 1])
  }

  /** `Integer.parseInt(s)`: an optional sign followed by at least one digit,
      whose value fits in 32 bits; `None` where Java throws
      `NumberFormatException`. */
  function ParseInt(s: string): (r: Option<int>)
    ensures r.Some? ==> IntMin <= r.value <= IntMax
    ensures r.Some? ==> s != [] && (AllDigits(s) || s[0] == '-' || s[0] == '+')
  {
    if s == [] then None
    else
      var signed := s[0] == '-' || s[0] == '+';
      var body := if signed then s[1..] else s;
      if body == [] || !AllDigits(body) then None
      else
        var v: int := if s[0] == '-' then -(DigitsValue(body) as int) else DigitsValue(body) as int;
        if IntMin <= v <= IntMax then Some(v) else None
  }

  lemma {:induction false} DigitsValueOfFormat(n: nat)
    ensures DigitsValue(FormatNat(n)) == n
    decreases n
  {
    if n >= 10 {
      var s := FormatNat(n / 10);
      var t := s + [DigitChar(n % 10)];
      assert t[..|t| - 1] == s;
      DigitsValueOfFormat(n / 10);
    }
  }

  /** Formatting with `%d` and parsing back with `Integer.parseInt` is the
      identity on 32-bit integers. */
  lemma {:induction false} ParseFormatRoundTrip(n: int)
    requires IntMin <= n <= IntMax
    ensures ParseInt(FormatInt(n)) == Some(n)
  {
    if n < 0 {
      var s := "-" + FormatNat(-n);
      assert s[1..] == FormatNat(-n);
      DigitsValueOfFormat(-n);
    } else {
      DigitsValueOfFormat(n);
    }
  }

  /** `Character.isWhitespace`: the Unicode space, line and paragraph
      separators other than the no-break spaces, and the ASCII controls
      U+0009 to U+000D and U+001C to U+001F. */
  predicate IsWhitespace(c: char) {
    c == ' ' || ('\t' <= c <= '\r') || ('\U{001C}' <= c <= '\U{001F}')
    || c == '\U{1680}' || ('\U{2000}' <= c <= '\U{2006}') || ('\U{2008}' <= c <= '\U{200A}')
    || c == '\U{2028}' || c == '\U{2029}' || c == '\U{205F}' || c == '\U{3000}'
  }

  /** `String.isBlank`: empty or whitespace only. */
  predicate IsBlank(s: string) {
    forall i :: 0 <= i < |s| ==> IsWhitespace(s[i])
  }

  /** The pieces of `s` between commas, keeping every empty piece. */
  function SplitAll(s: string): (pieces: seq<string>)
    ensures |pieces| >= 1
    ensures forall i :: 0 <= i < |pieces| ==> ',' !in pieces[i]
    ensures ',' !in s ==> pieces == [s]
  {
    if s == [] then [[]]
    else if s[0] == ',' then [[]] + SplitAll(s[1..])
    else
      var rest := SplitAll(s[1..]);
      assert [s[0]] + s[1..] == s;
      [[s[0]] + rest[0]] + rest[1..]
  }

  /** Drops the empty pieces at the end, as `split` with limit 0 does. */
  function DropTrailingEmpty(pieces: seq<string>): (r: seq<string>)
    ensures |r| <= |pieces| && r == pieces[..|r|]
    ensures r == [] || r[|r| - 1] != []
    ensures forall i :: |r| <= i < |pieces| ==> pieces[i] == []
  {
    if pieces == [] then []
    else if pieces[|pieces| - 1] == [] then DropTrailingEmpty(pieces[..|pieces| - 1])
    else pieces
  }

  /** `s.split(",")`: when `s` has no comma the result is `[s]` (so `""`
      gives `[""]`); otherwise the comma-separated pieces without the
      trailing empty ones. */
  function JavaSplit(s: string): (tokens: seq<string>)
    ensures forall i :: 0 <= i < |tokens| ==> ',' !in tokens[i]
    ensures ',' !in s ==> tokens == [s]
  {
    if ',' !in s then [s] else DropTrailingEmpty(SplitAll(s))
  }

  /** The pieces joined with commas, as SQL `GROUP_CONCAT(… separator ',')`
      builds them; no piece gives the empty string. */
  function Join(pieces: seq<string>): string {
    if pieces == [] then []
    else if |pieces| == 1 then pieces[0]
    else pieces[0] + "," + Join(pieces[1..])
  }

  /** Splitting a comma-free piece followed by a comma and a tail. */
  lemma {:induction false} SplitAllPrefix(a: string, t: string)
    requires ',' !in a
    ensures SplitAll(a + "," + t) == [a] + SplitAll(t)
    decreases |a|
  {
    if a == [] {
      assert a + "," + t == [','] + t;
      assert ([','] + t)[1..] == t;
    } else {
      var s := a + "," + t;
      assert s[0] == a[0] && s[1..] == a[1..] + "," + t;
      SplitAllPrefix(a[1..], t);
      assert [a[0]] + a[1..] == a;
    }
  }

  /** Splitting what `Join` built gives the comma-free pieces back. */
  lemma {:induction false} SplitAllOfJoin(pieces: seq<string>)
    requires |pieces| >= 1
    requires forall i :: 0 <= i < |pieces| ==> ',' !in pieces[i]
    ensures SplitAll(Join(pieces)) == pieces
    decreases |pieces|
  {
    if |pieces| > 1 {
      SplitAllPrefix(pieces[0], Join(pieces[1..]));
      SplitAllOfJoin(pieces[1..]);
      assert [pieces[0]] + pieces[1..] == pieces;
    }
  }

  /** `split(",")` undoes `Join` on comma-free pieces whose last piece is
      not empty (a trailing empty piece would be dropped). */
  lemma JavaSplitOfJoin(pieces: seq<string>)
    requires |pieces| >= 1 && pieces[|pieces| - 1] != []
    requires forall i :: 0 <= i < |pieces| ==> ',' !in pieces[i]
    ensures JavaSplit(Join(pieces)) == pieces
  {
    SplitAllOfJoin(pieces);
    if ',' in Join(pieces) {
      assert DropTrailingEmpty(pieces) == pieces;
    }
  }

  /** A formatted number is never blank and has no comma. */
  lemma FormatIntShape(n: int)
    ensures FormatInt(n) != [] && !IsBlank(FormatInt(n)) && ',' !in FormatInt(n)
  {
    var s := FormatInt(n);
    assert !IsWhitespace(s[0]);
    if n >= 0 {
      assert forall i :: 0 <= i < |s| ==> IsDigit(s[i]);
    } else {
      var t := FormatNat(-n);
      assert s == "-" + t;
      assert forall i :: 1 <= i < |s| ==> s[i] == t[i - 1];
    }
  }

  /** Lower-case mapping of ASCII and basic Cyrillic letters. */
  function ToLowerChar(c: char): char {
    if 'A' <= c <= 'Z' then (c as int + 32) as char
    else if '\U{0410}' <= c <= '\U{042F}' then (c as int + 32) as char
    else if '\U{0400}' <= c <= '\U{040F}' then (c as int + 80) as char
    else c
  }

  /** Upper-case mapping of ASCII and basic Cyrillic letters. */
  function ToUpperChar(c: char): char {
    if 'a' <= c <= 'z' then (c as int - 32) as char
    else if '\U{0430}' <= c <= '\U{044F}' then (c as int - 32) as char
    else if '\U{0450}' <= c <= '\U{045F}' then (c as int - 80) as char
    else c
  }

  function ToLower(s: string): (r: string)
    ensures |r| == |s| && forall i :: 0 <= i < |s| ==> r[i] == ToLowerChar(s[i])
  {
    seq(|s|, i requires 0 <= i < |s| => ToLowerChar(s[i]))
  }

  function ToUpper(s: string): (r: string)
    ensures |r| == |s| && forall i :: 0 <= i < |s| ==> r[i] == ToUpperChar(s[i])
  {
    seq(|s|, i requires 0 <= i < |s| => ToUpperChar(s[i]))
  }

  predicate IsUpperAscii(s: string) {
    forall i :: 0 <= i < |s| ==> 'A' <= s[i] <= 'Z'
  }

  /** Lower-casing a word of ASCII capitals and upper-casing it again gives
      the word back. */
  lemma UpperOfLower(s: string)
    requires IsUpperAscii(s)
    ensures ToUpper(ToLower(s)) == s
  {
    assert forall i :: 0 <= i < |s| ==> ToUpperChar(ToLowerChar(s[i])) == s[i];
  }

  /** `a.equalsIgnoreCase(b)`. */
  predicate EqualsIgnoreCase(a: string, b: string) {
    ToLower(a) == ToLower(b)
  }

  /** `s` has `sub` as a contiguous substring (SQL `LIKE '%sub%'` without
      wildcards in `sub`, or `String.contains`). */
  predicate Contains(s: string, sub: string)
    decreases |s|
  {
    sub <= s || (s != [] && Contains(s[1..], sub))
  }

  /** `Contains` holds exactly when `sub` occurs at some offset of `s`. */
  lemma {:induction false} ContainsAt(s: string, sub: string)
    ensures Contains(s, sub) <==> exists k :: 0 <= k <= |s| && sub <= s[k..]
    decreases |s|
  {
    if sub <= s {
      assert s[0..] == s;
    } else if s != [] {
      ContainsAt(s[1..], sub);
      if Contains(s[1..], sub) {
        var k :| 0 <= k <= |s[1..]| && sub <= s[1..][k..];
        assert s[k + 1..] == s[1..][k..];
      }
      if exists k :: 0 <= k <= |s| && sub <= s[k..] {
        var k :| 0 <= k <= |s| && sub <= s[k..];
        assert k != 0;
        assert s[1..][k - 1..] == s[k..];
      }
    } else {
      assert forall k :: 0 <= k <= |s| ==> s[k..] == [];
    }
  }
}
