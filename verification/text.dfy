/** The string operations the pages rely on, restricted to what they use:
    ASCII `toLowerCase`, `includes`, `slice`, `replace(/_/g, ' ')`, the
    decimal rendering of an integer (`String(n)`, template literals) and
    `parseInt` without a radix. */
module Text {
  import opened Common

  /** `toLowerCase` on one character; only ASCII letters are folded. */
  function LowerChar(c: char): (r: char)
    ensures !('A' <= r <= 'Z')
    ensures !('A' <= c <= 'Z') ==> r == c
  {
    if 'A' <= c <= 'Z' then (c as int + 32) as char else c
  }

  /** `s.toLowerCase()`, ASCII folding only. */
  function Lower(s: string): (r: string)
    ensures |r| == |s|
    ensures forall i :: 0 <= i < |s| ==> r[i] == LowerChar(s[i])
  {
    seq(|s|, i requires 0 <= i < |s| => LowerChar(s[i]))
  }

  /** Lower-casing twice is the same as lower-casing once. */
  lemma LowerIdempotent(s: string)
    ensures Lower(Lower(s)) == Lower(s)
  {
    assert forall i :: 0 <= i < |s| ==> LowerChar(LowerChar(s[i])) == LowerChar(s[i]);
  }

  /** Lower-casing distributes over concatenation. */
  lemma LowerAppend(a: string, b: string)
    ensures Lower(a + b) == Lower(a) + Lower(b)
  {
  }

  /** `needle` sits in `hay` starting at index `i`. */
  ghost predicate OccursAt(hay: string, needle: string, i: int) {
    0 <= i && i + |needle| <= |hay| && hay[i..i + |needle|] == needle
  }

  /** `hay.includes(needle)`. */
  function Contains(hay: string, needle: string): (r: bool)
    ensures r <==> exists i :: OccursAt(hay, needle, i)
    decreases |hay|
  {
    if needle <= hay then
      assert OccursAt(hay, needle, 0);
      true
    else if |hay| == 0 then
      false
    else
      ContainsShift(hay, needle);
      Contains(hay[1..], needle)
  }

  /** Occurrences in `hay[1..]` are the occurrences in `hay` past index 0. */
  lemma ContainsShift(hay: string, needle: string)
    requires |hay| > 0 && !(needle <= hay)
    ensures (exists i :: OccursAt(hay, needle, i)) <==> (exists j :: OccursAt(hay[1..], needle, j))
  {
    if i :| OccursAt(hay, needle, i) {
      assert i != 0;
      assert hay[1..][i - 1..i - 1 + |needle|] == hay[i..i + |needle|];
      assert OccursAt(hay[1..], needle, i - 1);
    }
    if j :| OccursAt(hay[1..], needle, j) {
      assert hay[j + 1..j + 1 + |needle|] == hay[1..][j..j + |needle|];
      assert OccursAt(hay, needle, j + 1);
    }
  }

  /** Every string contains the empty string. */
  lemma ContainsEmpty(hay: string)
    ensures Contains(hay, "")
  {
  }

  /** A string contains itself. */
  lemma ContainsSelf(s: string)
    ensures Contains(s, s)
  {
    assert OccursAt(s, s, 0);
  }

  /** `s.slice(0, n)` for a non-negative `n`. */
  function Take(s: string, n: nat): (r: string)
    ensures |r| == if |s| < n then |s| else n
    ensures r <= s
  {
    if |s| <= n then s else s[..n]
  }

  /** `s.slice(-n)` for a positive `n`: the last `n` characters, or all of
      `s` when it is shorter. */
  function TakeLast(s: string, n: nat): (r: string)
    ensures |r| == if |s| < n then |s| else n
    ensures s == s[..|s| - |r|] + r
  {
    if |s| <= n then s else s[|s| - n..]
  }

  /** `s.replace(/x/g, y)` for single characters. */
  function ReplaceAll(s: string, x: char, y: char): (r: string)
    ensures |r| == |s|
    ensures forall i :: 0 <= i < |s| ==> r[i] == (if s[i] == x then y else s[i])
  {
    seq(|s|, i requires 0 <= i < |s| => if s[i] == x then y else s[i])
  }

  predicate IsDigit(c: char) {
    '0' <= c <= '9'
  }

  /** A character that is a digit in the given radix (10 or 16). */
  predicate IsDigitIn(c: char, radix: int) {
    if radix == 16 then IsDigit(c) || 'a' <= c <= 'f' || 'A' <= c <= 'F'
    else IsDigit(c)
  }

  function DigitOf(c: char): (d: nat)
    ensures d < 16
  {
    if IsDigit(c) then c as int - '0' as int
    else if 'a' <= c <= 'f' then c as int - 'a' as int + 10
    else if 'A' <= c <= 'F' then c as int - 'A' as int + 10
    else 0
  }

  function DigitChar(d: nat): (c: char)
    requires d < 10
    ensures IsDigit(c) && DigitOf(c) == d
  {
    ('0' as int + d) as char
  }

  /** The decimal numeral of a natural number, without leading zeros. */
  function NatToDecimal(n: nat): (r: string)
    ensures |r| > 0
    ensures forall i :: 0 <= i < |r| ==> IsDigit(r[i])
    ensures n > 0 ==> r[0] != '0'
    ensures n == 0 ==> r == "0"
    decreases n
  {
    (if n < 10 then "" else NatToDecimal(n / 10)) + [DigitChar(n % 10)]
  }

  /** `String(n)` for an integer. */
  function IntToDecimal(n: int): (r: string)
    ensures |r| > 0
    ensures n >= 0 ==> forall i :: 0 <= i < |r| ==> IsDigit(r[i])
    ensures n < 0 ==> r[0] == '-' && forall i :: 1 <= i < |r| ==> IsDigit(r[i])
  {
    if n < 0 then "-" + NatToDecimal(-n) else NatToDecimal(n)
  }

  /** `x || ''` on a numeric field shown in a number input: the numeral
      of a non-zero number, otherwise the empty field. */
  function NumberText(x: Option<int>): (t: string)
    ensures x.None? || x.value == 0 ==> t == ""
    ensures x.Some? && x.value != 0 ==> t == IntToDecimal(x.value)
  {
    if x.Some? && x.value != 0 then IntToDecimal(x.value) else ""
  }

  /** A number input filled by `NumberText` reads back through
      `parseInt` as the number, and as NaN when it was left empty. */
  lemma NumberTextReadsBack(x: Option<int>)
    ensures ParseInt(NumberText(x)) == (if x.Some? && x.value != 0 then Some(x.value) else None)
  {
    if x.Some? && x.value != 0 {
      ParseIntRoundTrip(x.value);
    } else {
      ParseIntEmpty();
    }
  }

  /** White space `parseInt` skips before the number: the ASCII spaces,
      the line and paragraph separators, the byte-order mark and every
      space separator (no-break, Ogham, the U+2000 to U+200A run,
      narrow no-break, medium mathematical and ideographic). */
  predicate IsJsSpace(c: char) {
    c == ' ' || c == '\t' || c == '\n' || c == '\r' || c == '\U{000B}' || c == '\U{000C}'
    || c == '\U{00A0}' || c == '\U{FEFF}' || c == '\U{1680}'
    || ('\U{2000}' <= c <= '\U{200A}')
    || c == '\U{2028}' || c == '\U{2029}' || c == '\U{202F}' || c == '\U{205F}' || c == '\U{3000}'
  }

  /** `s` without its leading white space. */
  function TrimStart(s: string): (r: string)
    ensures |r| <= |s| && r == s[|s| - |r|..]
    ensures |r| == 0 || !IsJsSpace(r[0])
    ensures |s| > 0 && !IsJsSpace(s[0]) ==> r == s
    decreases |s|
  {
    if |s| > 0 && IsJsSpace(s[0]) then TrimStart(s[1..]) else s
  }

  /** Length of the longest prefix of `s` made of radix digits. */
  function RunLen(s: string, radix: int): (k: nat)
    ensures k <= |s|
    ensures forall i :: 0 <= i < k ==> IsDigitIn(s[i], radix)
    ensures k < |s| ==> !IsDigitIn(s[k], radix)
    decreases |s|
  {
    if |s| > 0 && IsDigitIn(s[0], radix) then 1 + RunLen(s[1..], radix) else 0
  }

  /** The value of a string of digits in the given radix. */
  function RunValue(d: string, radix: nat): nat
    decreases |d|
  {
    if |d| == 0 then 0 else RunValue(d[..|d| - 1], radix) * radix + DigitOf(d[|d| - 1])
  }

  /** The magnitude after the sign: a `0x`/`0X` prefix selects radix 16,
      otherwise radix 10; no digit at all is NaN. */
  function ParseMagnitude(u: string): Option<nat> {
    if |u| >= 2 && u[0] == '0' && (u[1] == 'x' || u[1] == 'X') then
      var k := RunLen(u[2..], 16);
      if k == 0 then None else Some(RunValue(u[2..][..k], 16))
    else
      var k := RunLen(u, 10);
      if k == 0 then None else Some(RunValue(u[..k], 10))
  }

  /** `parseInt(s)` with no radix argument; None stands for NaN. Leading
      white space is skipped, one sign is accepted, and parsing stops at
      the first character that is not a digit. */
  function ParseInt(s: string): Option<int> {
    ParseSigned(TrimStart(s))
  }

  /** `parseInt` once the leading white space is gone. */
  function ParseSigned(t: string): Option<int> {
    if |t| > 0 && (t[0] == '-' || t[0] == '+') then
      match ParseMagnitude(t[1..])
      case None => None
      case Some(v) => Some(if t[0] == '-' then 0 - v else v)
    else
      match ParseMagnitude(t)
      case None => None
      case Some(v) => Some(v as int)
  }

  /** The value of the decimal numeral of `n` is `n`. */
  lemma {:induction false} DecimalValue(n: nat)
    ensures RunValue(NatToDecimal(n), 10) == n
    decreases n
  {
    var h := if n < 10 then "" else NatToDecimal(n / 10);
    var last := DigitChar(n % 10);
    assert NatToDecimal(n) == h + [last];
    RunValueSnoc(h, last);
    if n >= 10 {
      DecimalValue(n / 10);
    }
  }

  /** Appending a digit shifts the value one place and adds the digit. */
  lemma RunValueSnoc(h: string, c: char)
    ensures RunValue(h + [c], 10) == RunValue(h, 10) * 10 + DigitOf(c)
  {
    var s := h + [c];
    assert s[..|s| - 1] == h && s[|s| - 1] == c;
  }

  /** The digit run of a numeral followed by a non-digit is the numeral. */
  lemma {:induction false} RunLenOfNumeral(d: string, rest: string, radix: int)
    requires forall i :: 0 <= i < |d| ==> IsDigitIn(d[i], radix)
    requires |rest| == 0 || !IsDigitIn(rest[0], radix)
    ensures RunLen(d + rest, radix) == |d|
    decreases |d|
  {
    if |d| == 0 {
      assert d + rest == rest;
    } else {
      assert (d + rest)[0] == d[0];
      assert (d + rest)[1..] == d[1..] + rest;
      RunLenOfNumeral(d[1..], rest, radix);
    }
  }

  /** `parseInt` reads back the decimal numeral of any natural number even
      when other text follows, as long as that text does not start with a
      digit or (after "0") with an `x`. */
  lemma ParseNatPrefix(n: nat, rest: string)
    requires |rest| == 0 || (!IsDigit(rest[0]) && rest[0] != 'x' && rest[0] != 'X')
    ensures ParseMagnitude(NatToDecimal(n) + rest) == Some(n)
  {
    var d := NatToDecimal(n);
    var u := d + rest;
    assert u[0] == d[0];
    if n == 0 {
      assert |d| == 1;
      assert |u| >= 2 ==> u[1] == rest[0];
    }
    RunLenOfNumeral(d, rest, 10);
    assert u[..|d|] == d;
    DecimalValue(n);
  }

  /** `parseInt` reads back `String(n)` for every integer, also with a
      trailing non-numeric suffix such as "/8". */
  lemma ParseIntOfDecimal(n: int, rest: string)
    requires |rest| == 0 || (!IsDigit(rest[0]) && rest[0] != 'x' && rest[0] != 'X')
    ensures ParseInt(IntToDecimal(n) + rest) == Some(n)
  {
    NumeralStartsWithoutSpace(n, rest);
    if n < 0 {
      NegativeNumeral(n, rest);
    } else {
      NonNegativeNumeral(n, rest);
    }
  }

  /** A numeral starts with a digit or a minus sign, never with white
      space, so `parseInt` skips nothing. */
  lemma NumeralStartsWithoutSpace(n: int, rest: string)
    ensures TrimStart(IntToDecimal(n) + rest) == IntToDecimal(n) + rest
  {
    var s := IntToDecimal(n) + rest;
    assert s[0] == IntToDecimal(n)[0];
    assert !IsJsSpace(s[0]);
  }

  lemma NonNegativeNumeral(n: int, rest: string)
    requires n >= 0
    requires |rest| == 0 || (!IsDigit(rest[0]) && rest[0] != 'x' && rest[0] != 'X')
    ensures ParseSigned(IntToDecimal(n) + rest) == Some(n)
  {
    var d := NatToDecimal(n);
    assert IntToDecimal(n) == d;
    var s := d + rest;
    assert s[0] == d[0] && IsDigit(s[0]);
    ParseNatPrefix(n, rest);
    assert ParseMagnitude(s) == Some(n);
  }

  lemma NegativeNumeral(n: int, rest: string)
    requires n < 0
    requires |rest| == 0 || (!IsDigit(rest[0]) && rest[0] != 'x' && rest[0] != 'X')
    ensures ParseSigned(IntToDecimal(n) + rest) == Some(n)
  {
    var u := NatToDecimal(-n) + rest;
    var s := IntToDecimal(n) + rest;
    assert s == "-" + u;
    assert s[0] == '-' && s[1..] == u;
    ParseNatPrefix(-n, rest);
    assert ParseMagnitude(s[1..]) == Some(-n);
  }

  /** The plain round trip `parseInt(String(n)) == n`. */
  lemma ParseIntRoundTrip(n: int)
    ensures ParseInt(IntToDecimal(n)) == Some(n)
  {
    ParseIntOfDecimal(n, "");
    assert IntToDecimal(n) + "" == IntToDecimal(n);
  }

  /** `parseInt('')` is NaN: an empty form field never yields a number. */
  lemma ParseIntEmpty()
    ensures ParseInt("") == None
  {
  }

  /** Leading white space does not change what `parseInt` reads. */
  lemma ParseIntSkipsSpace(c: char, s: string)
    requires IsJsSpace(c)
    ensures ParseInt([c] + s) == ParseInt(s)
  {
    assert ([c] + s)[1..] == s;
    assert TrimStart([c] + s) == TrimStart(s);
  }
}
