/** Python's int(s, base) for bases 0, 10 and 16 on ASCII strings, str(n) and hex(n),
    and strcmp. */
module Numbers {
  import opened Types

  predicate IsSpace(c: char) {
    '\t' <= c <= '\r' || c == ' ' || (28 <= c as int <= 31)
  }

  function StripLeft(s: string): (r: string)
    ensures |r| <= |s|
    ensures r == [] || !IsSpace(r[0])
    ensures r == s[|s| - |r|..]
    ensures forall k :: 0 <= k < |s| - |r| ==> IsSpace(s[k])
  {
    if s != [] && IsSpace(s[0]) then StripLeft(s[1..]) else s
  }

  function StripRight(s: string): (r: string)
    ensures r <= s
    ensures r == [] || !IsSpace(r[|r| - 1])
    ensures forall k :: |r| <= k < |s| ==> IsSpace(s[k])
  {
    if s != [] && IsSpace(s[|s| - 1]) then StripRight(s[..|s| - 1]) else s
  }

  /** The value of a digit character, 36 for other characters. */
  function DigitValue(c: char): nat {
    if '0' <= c <= '9' then c as int - '0' as int
    else if 'a' <= c <= 'z' then c as int - 'a' as int + 10
    else if 'A' <= c <= 'Z' then c as int - 'A' as int + 10
    else 36
  }

  /** Digits with single underscores between them, read into `acc`.
      `needDigit` is true at the start and after an underscore. */
  function ReadDigits(s: string, base: nat, acc: nat, needDigit: bool): Option<nat> {
    if s == [] then
      if needDigit then None else Some(acc)
    else if s[0] == '_' then
      if needDigit then None else ReadDigits(s[1..], base, acc, true)
    else if DigitValue(s[0]) < base then
      ReadDigits(s[1..], base, acc * base + DigitValue(s[0]), false)
    else
      None
  }

  predicate HasPrefix(s: string, lower: char, upper: char) {
    |s| >= 2 && s[0] == '0' && (s[1] == lower || s[1] == upper)
  }

  /** Digits after an optional base prefix; one underscore may follow the prefix. */
  function ReadAfterPrefix(s: string, base: nat): Option<nat>
    requires |s| >= 2
  {
    if |s| > 2 && s[2] == '_' then ReadDigits(s[3..], base, 0, true)
    else ReadDigits(s[2..], base, 0, true)
  }

  function ReadUnsigned(s: string, base: nat): Option<nat> {
    if base == 16 then
      if HasPrefix(s, 'x', 'X') then ReadAfterPrefix(s, 16) else ReadDigits(s, 16, 0, true)
    else if base == 0 then
      if HasPrefix(s, 'x', 'X') then ReadAfterPrefix(s, 16)
      else if HasPrefix(s, 'o', 'O') then ReadAfterPrefix(s, 8)
      else if HasPrefix(s, 'b', 'B') then ReadAfterPrefix(s, 2)
      else
        var r := ReadDigits(s, 10, 0, true);
        // "010" is neither octal nor decimal, but "0" and "00" are zero
        if r.Some? && r.value != 0 && s[0] == '0' then None else r
    else
      ReadDigits(s, base, 0, true)
  }

  /** int(s, base), None standing for ValueError. */
  function ParseInt(s: string, base: nat): Option<int> {
    ParseStripped(StripLeft(StripRight(s)), base)
  }

  function ParseStripped(t: string, base: nat): Option<int> {
    if t != [] && (t[0] == '-' || t[0] == '+') then
      match ReadUnsigned(t[1..], base)
      case None => None
      case Some(n) => var v: int := n; Some(if t[0] == '-' then -v else v)
    else
      match ReadUnsigned(t, base)
      case None => None
      case Some(n) => Some(n)
  }

  function BaseOf(t: SType): nat {
    match t
    case HEX => 16
    case INT => 10
    case _ => 0
  }

  /** A malformed or empty string counts as 0, as with strtoll(). */
  function NumOrZero(s: string, base: nat): int {
    match ParseInt(s, base)
    case Some(n) => n
    case None => 0
  }

  function DigitChar(d: nat): (c: char)
    requires d < 16
    ensures DigitValue(c) == d && c != '_' && !IsSpace(c) && c != '-' && c != '+' && c != 'x' && c != 'X'
  {
    if d < 10 then ('0' as int + d) as char else ('a' as int + (d - 10)) as char
  }

  function Digits(n: nat, base: nat): (s: string)
    requires 2 <= base <= 16
    ensures s != []
  {
    if n < base then [DigitChar(n)] else Digits(n / base, base) + [DigitChar(n % base)]
  }

  /** str(n) */
  function DecStr(n: int): string {
    if n < 0 then "-" + Digits(-n, 10) else Digits(n, 10)
  }

  /** hex(n) */
  function HexStr(n: int): string {
    if n < 0 then "-0x" + Digits(-n, 16) else "0x" + Digits(n, 16)
  }

  /** The standard form a clamped value is rewritten to. */
  function NumStr(t: SType, n: int): string {
    if t == INT then DecStr(n) else HexStr(n)
  }

  /** strcmp()-alike: -1, 0 or 1. */
  function Strcmp(s1: string, s2: string): int {
    if s1 == [] then (if s2 == [] then 0 else -1)
    else if s2 == [] then 1
    else if s1[0] < s2[0] then -1
    else if s1[0] > s2[0] then 1
    else Strcmp(s1[1..], s2[1..])
  }

  ghost predicate PlainDigits(s: string, base: nat) {
    forall k :: 0 <= k < |s| ==>
      s[k] != '_' && DigitValue(s[k]) < base && !IsSpace(s[k])
      && s[k] != '-' && s[k] != '+' && s[k] != 'x' && s[k] != 'X'
  }

  lemma {:induction false} DigitsArePlain(n: nat, base: nat)
    requires 2 <= base <= 16
    ensures PlainDigits(Digits(n, base), base)
  {
    if n >= base {
      Quotient(n, base);
      DigitsArePlain(n / base, base);
    }
  }

  lemma ReadSingle(d: char, base: nat, acc: nat, need: bool)
    requires d != '_' && DigitValue(d) < base
    ensures ReadDigits([d], base, acc, need) == Some(acc * base + DigitValue(d))
  {
    assert [d][1..] == [];
    assert ReadDigits([], base, acc * base + DigitValue(d), false) == Some(acc * base + DigitValue(d));
  }

  /** Reading a number's digits one at the end later. */
  lemma {:induction false} ReadDigitsSnoc(s: string, d: char, base: nat, acc: nat, need: bool)
    requires d != '_' && DigitValue(d) < base
    requires PlainDigits(s, base) && s != []
    ensures ReadDigits(s, base, acc, need).Some?
    ensures ReadDigits(s + [d], base, acc, need) == Some(ReadDigits(s, base, acc, need).value * base + DigitValue(d))
  {
    hide DigitValue, IsSpace;
    var acc' := acc * base + DigitValue(s[0]);
    assert (s + [d])[1..] == s[1..] + [d];
    assert ReadDigits(s, base, acc, need) == ReadDigits(s[1..], base, acc', false);
    assert ReadDigits(s + [d], base, acc, need) == ReadDigits(s[1..] + [d], base, acc', false);
    if s[1..] == [] {
      ReadSingle(d, base, acc', false);
      assert s[1..] + [d] == [d];
    } else {
      ReadDigitsSnoc(s[1..], d, base, acc', false);
    }
  }

  lemma ReadOneDigit(d: nat, base: nat)
    requires d < base <= 16
    ensures ReadDigits([DigitChar(d)], base, 0, true) == Some(d)
  {
    ReadSingle(DigitChar(d), base, 0, true);
  }

  lemma ReadNumberAndDigit(q: nat, d: nat, base: nat)
    requires d < base <= 16 && 2 <= base
    requires ReadDigits(Digits(q, base), base, 0, true) == Some(q)
    ensures ReadDigits(Digits(q, base) + [DigitChar(d)], base, 0, true) == Some(q * base + d)
  {
    DigitsArePlain(q, base);
    ReadDigitsSnoc(Digits(q, base), DigitChar(d), base, 0, true);
  }

  lemma {:induction false} ReadDigitsOfNumber(n: nat, base: nat)
    requires 2 <= base <= 16
    ensures ReadDigits(Digits(n, base), base, 0, true) == Some(n)
    decreases n
  {
    if n < base {
      ReadOneDigit(n, base);
    } else {
      var q, d := n / base, n % base;
      assert Digits(n, base) == Digits(q, base) + [DigitChar(d)];
      Quotient(n, base);
      ReadDigitsOfNumber(q, base);
      ReadNumberAndDigit(q, d, base);
    }
  }

  lemma Quotient(n: nat, base: nat)
    requires 2 <= base <= n
    ensures 0 <= n / base < n && 0 <= n % base < base
    ensures n / base * base + n % base == n
  {
  }

  lemma StripNothing(s: string)
    requires s == [] || (!IsSpace(s[0]) && !IsSpace(s[|s| - 1]))
    ensures StripLeft(StripRight(s)) == s
  {
  }

  /** What ParseInt does with an optional minus sign before unsigned text. */
  lemma ParseSigned(body: string, negative: bool, base: nat, m: nat)
    requires body != [] && !IsSpace(body[0]) && !IsSpace(body[|body| - 1])
    requires body[0] != '-' && body[0] != '+'
    requires ReadUnsigned(body, base) == Some(m)
    ensures ParseInt(if negative then "-" + body else body, base) == Some(var v: int := m; if negative then -v else v)
  {
    hide ReadUnsigned, ReadDigits, StripLeft, StripRight;
    var s := if negative then "-" + body else body;
    StripNothing(s);
    if negative {
      assert s[1..] == body;
    }
  }

  lemma ReadUnsignedDecimal(m: nat)
    ensures ReadUnsigned(Digits(m, 10), 10) == Some(m)
  {
    ReadDigitsOfNumber(m, 10);
  }

  lemma ReadUnsignedHex(m: nat)
    ensures ReadUnsigned("0x" + Digits(m, 16), 16) == Some(m)
  {
    ReadDigitsOfNumber(m, 16);
    DigitsArePlain(m, 16);
    var s := "0x" + Digits(m, 16);
    assert s[2..] == Digits(m, 16);
    assert s[2] == Digits(m, 16)[0];
    hide ReadDigits, Digits;
  }

  lemma ParseDecStr(n: int)
    ensures ParseInt(DecStr(n), 10) == Some(n)
  {
    var m: nat := if n < 0 then -n else n;
    DigitsArePlain(m, 10);
    ReadUnsignedDecimal(m);
    hide ReadUnsigned, ParseInt, Digits, ReadDigits;
    ParseSigned(Digits(m, 10), n < 0, 10, m);
  }

  lemma ParseHexStr(n: int)
    ensures ParseInt(HexStr(n), 16) == Some(n)
  {
    var m: nat := if n < 0 then -n else n;
    DigitsArePlain(m, 16);
    ReadUnsignedHex(m);
    hide ReadUnsigned, ParseInt, Digits, ReadDigits;
    var body := "0x" + Digits(m, 16);
    assert body[|body| - 1] == Digits(m, 16)[|Digits(m, 16)| - 1];
    assert "-" + body == "-0x" + Digits(m, 16);
    ParseSigned(body, n < 0, 16, m);
  }

  /** int(str(n), 10) and int(hex(n), 16) give n back, for every integer. */
  lemma PrintParseNumber(t: SType, n: int)
    requires IsIntHex(t)
    ensures ParseInt(NumStr(t, n), BaseOf(t)) == Some(n)
  {
    ParseDecStr(n);
    ParseHexStr(n);
  }
}
