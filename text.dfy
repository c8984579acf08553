/**
 * String helpers with the semantics of the Rust standard-library calls the bot
 * makes: `join`, `split`, `contains`, `starts_with`, `replace`, `trim`,
 * ASCII lower-casing, UTF-8 byte length, integer `Display` and integer `parse`.
 * A Rust `String` is modelled as a `seq<char>` of Unicode scalar values.
 */
module Text {
  import opened Wrappers

  // ---------------------------------------------------------------- joining

  /** `xs.join(sep)` */
  function Join(xs: seq<string>, sep: string): string
  {
    if xs == [] then "" else if |xs| == 1 then xs[0] else xs[0] + sep + Join(xs[1..], sep)
  }

  /** `iter().take(n)` */
  function Take<T>(xs: seq<T>, n: nat): (r: seq<T>)
    ensures |r| == if |xs| < n then |xs| else n
    ensures r == xs[..|r|]
  {
    if |xs| <= n then xs else xs[..n]
  }

  /** Joining appends the separator and the last element to the join of the others. */
  lemma {:induction false} JoinSnoc(xs: seq<string>, x: string, sep: string)
    requires xs != []
    ensures Join(xs + [x], sep) == Join(xs, sep) + sep + x
  {
    if |xs| == 1 {
      assert xs + [x] == [xs[0], x];
    } else {
      assert (xs + [x])[1..] == xs[1..] + [x];
      JoinSnoc(xs[1..], x, sep);
    }
  }

  /** With a non-empty separator, a join is empty exactly when there is nothing
      to join or the only element is empty. */
  lemma {:induction false} JoinEmptyIff(xs: seq<string>, sep: string)
    requires sep != ""
    ensures Join(xs, sep) == "" <==> (xs == [] || xs == [""])
  {
    if |xs| > 1 {
      assert |Join(xs, sep)| >= |sep|;
    }
  }

  // --------------------------------------------------------------- splitting

  /** `s.split(c)` as a sequence: always at least one piece. */
  function Split(s: string, c: char): (r: seq<string>)
    ensures |r| >= 1
  {
    if s == [] then [""]
    else
      var rest := Split(s[1..], c);
      if s[0] == c then [""] + rest else [[s[0]] + rest[0]] + rest[1..]
  }

  lemma {:induction false} SplitNoSeparator(s: string, c: char)
    requires c !in s
    ensures Split(s, c) == [s]
  {
    if s != [] {
      SplitNoSeparator(s[1..], c);
      assert [s[0]] + s[1..] == s;
    }
  }

  lemma {:induction false} SplitAtSeparator(a: string, b: string, c: char)
    requires c !in a
    ensures Split(a + [c] + b, c) == [a] + Split(b, c)
  {
    if a == [] {
      assert a + [c] + b == [c] + b;
      assert ([c] + b)[1..] == b;
    } else {
      assert (a + [c] + b)[1..] == a[1..] + [c] + b;
      SplitAtSeparator(a[1..], b, c);
      assert [a[0]] + a[1..] == a;
    }
  }

  /** The pieces that splitting `lead + Join(xs, p + [c] + q)` at `c` produces:
      `lead + xs[0] + p`, `q + xs[1] + p`, ..., `q + xs[n-1]`. */
  function Pieces(lead: string, xs: seq<string>, p: string, q: string): seq<string>
    requires xs != []
    decreases |xs|
  {
    if |xs| == 1 then [lead + xs[0]] else [lead + xs[0] + p] + Pieces(q, xs[1..], p, q)
  }

  lemma {:induction false} PiecesAt(lead: string, xs: seq<string>, p: string, q: string, i: nat)
    requires xs != [] && i < |xs|
    decreases |xs|
    ensures |Pieces(lead, xs, p, q)| == |xs|
    ensures Pieces(lead, xs, p, q)[i]
         == (if i == 0 then lead else q) + xs[i] + (if i < |xs| - 1 then p else "")
  {
    if |xs| > 1 {
      PiecesAt(q, xs[1..], p, q, if i == 0 then 0 else i - 1);
    }
  }

  /** Splitting a join at a character that occurs only in the middle of the
      separator gives back every element, decorated with the separator's ends. */
  lemma {:induction false} SplitJoin(lead: string, xs: seq<string>, p: string, c: char, q: string)
    requires xs != []
    requires c !in lead && c !in p && c !in q
    requires forall i :: 0 <= i < |xs| ==> c !in xs[i]
    ensures Split(lead + Join(xs, p + [c] + q), c) == Pieces(lead, xs, p, q)
    decreases |xs|
  {
    if |xs| == 1 {
      SplitNoSeparator(lead + xs[0], c);
    } else {
      var rest := Join(xs[1..], p + [c] + q);
      assert lead + Join(xs, p + [c] + q) == (lead + xs[0] + p) + [c] + (q + rest);
      SplitAtSeparator(lead + xs[0] + p, q + rest, c);
      SplitJoin(q, xs[1..], p, c, q);
    }
  }

  // ------------------------------------------------------------- searching

  /** `s.starts_with(prefix)` */
  predicate StartsWith(s: string, prefix: string) {
    |prefix| <= |s| && s[..|prefix|] == prefix
  }

  /** `s.contains(sub)` */
  predicate Contains(s: string, sub: string)
    decreases |s|
  {
    StartsWith(s, sub) || (s != [] && Contains(s[1..], sub))
  }

  lemma {:induction false} ContainsAt(s: string, sub: string, i: nat)
    requires i + |sub| <= |s| && s[i..i + |sub|] == sub
    ensures Contains(s, sub)
    decreases i
  {
    if i > 0 {
      assert s[1..][i - 1..i - 1 + |sub|] == s[i..i + |sub|];
      ContainsAt(s[1..], sub, i - 1);
    }
  }

  // ------------------------------------------------------------- replacing

  /** `s.replace(pat, rep)`: every non-overlapping occurrence, scanning from the left. */
  function ReplaceAll(s: string, pat: string, rep: string): string
    requires pat != []
    decreases |s|
  {
    if StartsWith(s, pat) then rep + ReplaceAll(s[|pat|..], pat, rep)
    else if s == [] then []
    else [s[0]] + ReplaceAll(s[1..], pat, rep)
  }

  /** A pattern that does not occur leaves the text unchanged. */
  lemma {:induction false} ReplaceAllAbsent(s: string, pat: string, rep: string)
    requires pat != [] && !Contains(s, pat)
    ensures ReplaceAll(s, pat, rep) == s
    decreases |s|
  {
    if s != [] {
      ReplaceAllAbsent(s[1..], pat, rep);
      assert [s[0]] + s[1..] == s;
    }
  }

  /** A character found neither in the text nor in the replacement is not introduced. */
  lemma {:induction false} ReplaceAllAvoids(s: string, pat: string, rep: string, ch: char)
    requires pat != [] && ch !in s && ch !in rep
    ensures ch !in ReplaceAll(s, pat, rep)
    decreases |s|
  {
    if StartsWith(s, pat) {
      ReplaceAllAvoids(s[|pat|..], pat, rep, ch);
    } else if s != [] {
      ReplaceAllAvoids(s[1..], pat, rep, ch);
    }
  }

  /** A text without the pattern's first character does not contain it. */
  lemma {:induction false} NotContainsWithoutFirstChar(s: string, sub: string)
    requires sub != [] && sub[0] !in s
    ensures !Contains(s, sub)
    decreases |s|
  {
    if s != [] {
      assert s[0] in s;
      assert forall k :: 0 <= k < |s[1..]| ==> s[1..][k] in s;
      NotContainsWithoutFirstChar(s[1..], sub);
    }
  }

  /** The pattern can only start where its first character is: not in
      `base`, and in `tail` only at its head, where it does not match. */
  lemma {:induction false} NotContainsAfterBase(base: string, tail: string, sub: string)
    requires sub != [] && sub[0] !in base && tail != [] && sub[0] !in tail[1..]
    requires !StartsWith(tail, sub)
    ensures !Contains(base + tail, sub)
    decreases |base|
  {
    if base == [] {
      assert base + tail == tail;
      NotContainsWithoutFirstChar(tail[1..], sub);
    } else {
      assert (base + tail)[0] == base[0] && base[0] in base;
      assert (base + tail)[1..] == base[1..] + tail;
      assert forall k :: 0 <= k < |base[1..]| ==> base[1..][k] in base;
      NotContainsAfterBase(base[1..], tail, sub);
    }
  }

  /** A pattern at the very end, whose first character does not occur
      before it, is replaced once. */
  lemma {:induction false} ReplaceAllSuffix(base: string, pat: string, rep: string)
    requires pat != [] && pat[0] !in base
    ensures ReplaceAll(base + pat, pat, rep) == base + rep
    decreases |base|
  {
    if base == [] {
      assert base + pat == pat;
      assert pat[|pat|..] == [];
      assert StartsWith(pat, pat);
    } else {
      var s := base + pat;
      assert s[0] == base[0] && base[0] in base;
      NotStartsWithOtherHead(s, pat);
      assert s[1..] == base[1..] + pat;
      assert pat[0] !in base[1..] by {
        assert forall k :: 0 <= k < |base[1..]| ==> base[1..][k] in base;
      }
      ReplaceAllSuffix(base[1..], pat, rep);
      ReplaceAllKeepsHead(s, pat, rep);
      assert [base[0]] + (base[1..] + rep) == base + rep;
    }
  }

  lemma NotStartsWithOtherHead(s: string, prefix: string)
    requires s != [] && prefix != [] && s[0] != prefix[0]
    ensures !StartsWith(s, prefix)
  {
    if |prefix| <= |s| {
      assert s[..|prefix|][0] == s[0];
    }
  }

  /** Where the pattern does not start, the first character is copied. */
  lemma ReplaceAllKeepsHead(s: string, pat: string, rep: string)
    requires pat != [] && s != [] && !StartsWith(s, pat)
    ensures ReplaceAll(s, pat, rep) == [s[0]] + ReplaceAll(s[1..], pat, rep)
  {
  }

  /** `s.replace(c, "")` for a single character. */
  function RemoveChar(s: string, c: char): (r: string)
    ensures c !in r
    ensures multiset(r) == multiset(s)[c := 0]
  {
    if s == [] then []
    else
      assert s == [s[0]] + s[1..];
      (if s[0] == c then [] else [s[0]]) + RemoveChar(s[1..], c)
  }

  // ----------------------------------------------------- case and whitespace

  function LowerChar(ch: char): char {
    if 'A' <= ch <= 'Z' then (ch as int + 32) as char else ch
  }

  /** `to_lowercase`, restricted to the ASCII letters. */
  function AsciiLower(s: string): (r: string)
    ensures |r| == |s|
    ensures forall i :: 0 <= i < |s| ==> r[i] == LowerChar(s[i])
  {
    seq(|s|, i requires 0 <= i < |s| => LowerChar(s[i]))
  }

  /** `char::is_whitespace`: the Unicode White_Space property. */
  predicate IsWhitespace(ch: char) {
    ('\U{9}' <= ch <= '\U{D}') || ch == ' ' || ch == '\U{85}' || ch == '\U{A0}'
    || ch == '\U{1680}' || ('\U{2000}' <= ch <= '\U{200A}') || ch == '\U{2028}'
    || ch == '\U{2029}' || ch == '\U{202F}' || ch == '\U{205F}' || ch == '\U{3000}'
  }

  function TrimStart(s: string): (r: string)
    ensures |r| <= |s| && r == s[|s| - |r|..]
    ensures r == [] || !IsWhitespace(r[0])
    ensures forall i :: 0 <= i < |s| - |r| ==> IsWhitespace(s[i])
  {
    if s != [] && IsWhitespace(s[0]) then TrimStart(s[1..]) else s
  }

  function TrimEnd(s: string): (r: string)
    ensures |r| <= |s| && r == s[..|r|]
    ensures r == [] || !IsWhitespace(r[|r| - 1])
    ensures forall i :: |r| <= i < |s| ==> IsWhitespace(s[i])
  {
    if s != [] && IsWhitespace(s[|s| - 1]) then TrimEnd(s[..|s| - 1]) else s
  }

  /** One step of `TrimStart`: a leading blank is dropped, anything else stops it. */
  lemma TrimStartStep(s: string)
    ensures s != [] && IsWhitespace(s[0]) ==> TrimStart(s) == TrimStart(s[1..])
    ensures s == [] || !IsWhitespace(s[0]) ==> TrimStart(s) == s
  {
  }

  /** One step of `TrimEnd`: a trailing blank is dropped, anything else stops it. */
  lemma TrimEndStep(s: string)
    ensures s != [] && IsWhitespace(s[|s| - 1]) ==> TrimEnd(s) == TrimEnd(s[..|s| - 1])
    ensures s == [] || !IsWhitespace(s[|s| - 1]) ==> TrimEnd(s) == s
  {
  }

  lemma TrimStartAfterBlank(c: char, w: string)
    requires IsWhitespace(c)
    ensures TrimStart([c] + w) == TrimStart(w)
  {
    assert ([c] + w)[1..] == w;
  }

  lemma TrimEndBeforeBlank(w: string, c: char)
    requires IsWhitespace(c)
    ensures TrimEnd(w + [c]) == TrimEnd(w)
  {
    assert (w + [c])[..|w|] == w;
  }

  /** How many leading characters `trim` drops. */
  function TrimOffset(s: string): nat { |s| - |TrimStart(s)| }

  /** `str::trim`: the slice left after dropping leading and trailing whitespace. */
  function Trim(s: string): (r: string)
    ensures TrimOffset(s) + |r| <= |s| && r == s[TrimOffset(s)..TrimOffset(s) + |r|]
    ensures r == [] || (!IsWhitespace(r[0]) && !IsWhitespace(r[|r| - 1]))
    ensures forall i :: 0 <= i < TrimOffset(s) ==> IsWhitespace(s[i])
    ensures forall i :: TrimOffset(s) + |r| <= i < |s| ==> IsWhitespace(s[i])
  {
    var t := TrimStart(s);
    var r := TrimEnd(t);
    assert forall i :: |r| <= i < |t| ==> IsWhitespace(t[i]);
    r
  }

  // --------------------------------------------------------- byte lengths

  function CharUtf8Len(ch: char): nat {
    if ch as int < 0x80 then 1 else if ch as int < 0x800 then 2
    else if ch as int < 0x10000 then 3 else 4
  }

  /** `String::len`: the number of bytes of the UTF-8 encoding. */
  function Utf8Len(s: string): (r: nat)
    ensures |s| <= r <= 4 * |s|
  {
    if s == [] then 0 else CharUtf8Len(s[0]) + Utf8Len(s[1..])
  }

  lemma {:induction false} Utf8LenAppend(a: string, b: string)
    ensures Utf8Len(a + b) == Utf8Len(a) + Utf8Len(b)
  {
    if a != [] {
      assert (a + b)[0] == a[0];
      assert (a + b)[1..] == a[1..] + b;
      Utf8LenAppend(a[1..], b);
    } else {
      assert a + b == b;
    }
  }

  // -------------------------------------------------------- decimal numbers

  predicate IsDigit(ch: char) { '0' <= ch <= '9' }

  predicate AllDigits(s: string) { forall i :: 0 <= i < |s| ==> IsDigit(s[i]) }

  function DigitChar(d: nat): (ch: char)
    requires d < 10
    ensures IsDigit(ch)
  {
    ('0' as int + d) as char
  }

  /** `Display` of a non-negative integer. */
  function NatToDecimal(n: nat): (r: string)
    ensures r != [] && AllDigits(r)
  {
    if n < 10 then [DigitChar(n)] else NatToDecimal(n / 10) + [DigitChar(n % 10)]
  }

  /** `Display` of an integer: a minus sign before the digits of a negative number. */
  function IntToDecimal(n: int): string {
    if n < 0 then "-" + NatToDecimal(-n) else NatToDecimal(n)
  }

  /** The value of a string of decimal digits, most significant first. */
  function DigitsValue(s: string): nat
    requires AllDigits(s)
  {
    if s == [] then 0 else DigitsValue(s[..|s| - 1]) * 10 + (s[|s| - 1] as int - '0' as int)
  }

  lemma {:induction false} DigitsValueOfDecimal(n: nat)
    ensures DigitsValue(NatToDecimal(n)) == n
  {
    if n >= 10 {
      var s := NatToDecimal(n);
      assert s[..|s| - 1] == NatToDecimal(n / 10);
      DigitsValueOfDecimal(n / 10);
    }
  }

  /** Rust's `str::parse` for an integer type whose range is `lo..=hi`: an
      optional `+` (or `-`, for a signed type) and then at least one ASCII digit,
      with a value inside the range. */
  function ParseInteger(s: string, lo: int, hi: int): (r: Option<int>)
    ensures r.Some? ==> lo <= r.value <= hi
  {
    var negative := s != [] && s[0] == '-' && lo < 0;
    var digits := if s != [] && (s[0] == '+' || negative) then s[1..] else s;
    if digits == [] || !AllDigits(digits) then None
    else
      var v: int := if negative then -(DigitsValue(digits) as int) else DigitsValue(digits);
      if lo <= v <= hi then Some(v) else None
  }

  const I32Min: int := -0x8000_0000
  const I32Max: int := 0x7fff_ffff

  /** `s.parse::<i32>()` */
  function ParseI32(s: string): Option<int> { ParseInteger(s, I32Min, I32Max) }

  /** `s.parse::<u8>()` */
  function ParseU8(s: string): Option<int> { ParseInteger(s, 0, 255) }

  /** Every `i32` printed in decimal parses back to itself. */
  lemma ParseI32OfDecimal(n: int)
    requires I32Min <= n <= I32Max
    ensures ParseI32(IntToDecimal(n)) == Some(n)
  {
    if n < 0 {
      var d := NatToDecimal(-n);
      var s := "-" + d;
      assert s == IntToDecimal(n);
      assert s[0] == '-' && s[1..] == d;
      DigitsValueOfDecimal(-n);
      assert DigitsValue(d) == -n;
    } else {
      var d := NatToDecimal(n);
      assert d == IntToDecimal(n);
      assert IsDigit(d[0]);
      assert d[0] != '-' && d[0] != '+';
      DigitsValueOfDecimal(n);
      assert DigitsValue(d) == n;
    }
  }

  /** A slice of two characters parses as a `u8` exactly when it is two
      decimal digits, or `+` and one decimal digit. */
  lemma ParseU8TwoChars(s: string)
    requires |s| == 2
    ensures ParseU8(s).Some? <==> (AllDigits(s) || (s[0] == '+' && IsDigit(s[1])))
    ensures AllDigits(s) ==> ParseU8(s) == Some(10 * (s[0] as int - '0' as int) + (s[1] as int - '0' as int))
  {
    if AllDigits(s) {
      assert s[..1] == [s[0]];
      assert DigitsValue(s[..1]) == s[0] as int - '0' as int by {
        assert s[..1][..0] == [];
      }
    } else if s[0] == '+' && IsDigit(s[1]) {
      assert s[1..] == [s[1]];
      assert s[1..][..0] == [];
    }
  }

  // ------------------------------------------------------------ hexadecimal

  function HexDigit(d: nat): char
    requires d < 16
  {
    if d < 10 then DigitChar(d) else ('a' as int + d - 10) as char
  }

  /** `format!("{:02x}", v)` for a byte. */
  function Hex2(v: nat): (r: string)
    requires v < 256
    ensures |r| == 2
  {
    [HexDigit(v / 16), HexDigit(v % 16)]
  }

  /** The lower-case hexadecimal digits of `v`, without leading zeros. */
  function HexDigits(v: nat): (r: string)
    ensures r != []
  {
    if v < 16 then [HexDigit(v)] else HexDigits(v / 16) + [HexDigit(v % 16)]
  }

  /** `format!("{:02x}", v)` for any unsigned value: at least two digits. */
  function Hex02(v: nat): (r: string)
    ensures |r| >= 2
    ensures v < 256 ==> r == Hex2(v)
  {
    if v < 16 then
      assert HexDigit(0) == '0' && v / 16 == 0 && v % 16 == v;
      "0" + [HexDigit(v)]
    else
      assert v < 256 ==> HexDigits(v) == [HexDigit(v / 16)] + [HexDigit(v % 16)];
      HexDigits(v)
  }

  predicate IsLowerHexDigit(ch: char) { IsDigit(ch) || ('a' <= ch <= 'f') }

  function HexValue(ch: char): nat
    requires IsLowerHexDigit(ch)
  {
    if IsDigit(ch) then ch as int - '0' as int else ch as int - 'a' as int + 10
  }

  /** `u8::from_str_radix(s, 16)` restricted to two lower-case digits. */
  function ParseHex2(s: string): Option<int>
  {
    if |s| == 2 && IsLowerHexDigit(s[0]) && IsLowerHexDigit(s[1])
    then Some(16 * HexValue(s[0]) + HexValue(s[1])) else None
  }

  /** Two-digit lower-case hexadecimal is read back exactly. */
  lemma Hex2RoundTrip(v: nat)
    requires v < 256
    ensures forall i :: 0 <= i < 2 ==> IsLowerHexDigit(Hex2(v)[i])
    ensures ParseHex2(Hex2(v)) == Some(v)
  {
  }

  /** `format!("#{:02x}{:02x}{:02x}", r, g, b)`: a colour as `#rrggbb`. */
  function HexColour(r: nat, g: nat, b: nat): (h: string)
    requires r < 256 && g < 256 && b < 256
    ensures |h| == 7 && h[0] == '#'
    ensures h[1..3] == Hex2(r) && h[3..5] == Hex2(g) && h[5..7] == Hex2(b)
  {
    "#" + Hex2(r) + Hex2(g) + Hex2(b)
  }
}
