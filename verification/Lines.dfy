/** What characters, numbers, strings and single lines of a .config file mean, spelled out. */
module Lines {
  import opened Types
  import opened Numbers
  import opened Semantics
  import opened Evaluation
  import opened Caching
  import opened Updates
  import opened ConfigText
  import opened ConfigFile
  import opened ReadBack
  import opened FullConfig

  // ---------- Characters and numbers ----------

  /** The white space of ASCII, with the separators from 28 to 31 that Python counts in. */
  lemma SpaceMeaning(c: char)
    ensures IsSpace(c) <==> c == ' ' || c == '\t' || c == '\n' || c == '\r' || c as int in {11, 12, 28, 29, 30, 31}
  {
  }

  const LOWER := "0123456789abcdef"
  const UPPER := "0123456789ABCDEF"

  /** The digits up to base 16 in either case. */
  lemma DigitMeaning(c: char, d: nat)
    requires d < 16
    ensures DigitValue(c) == d <==> c == LOWER[d] || c == UPPER[d]
  {
  }

  /** The value of a text that begins with a digit does not depend on the case of the digit. */
  lemma SameDigit(c: char, c': char, s: string, base: nat, acc: nat, need: bool)
    requires base <= 16 && exists d: nat :: d < base && c == LOWER[d] && c' == UPPER[d]
    ensures ReadDigits([c] + s, base, acc, need) == ReadDigits([c'] + s, base, acc, need)
  {
    var d: nat :| d < base && c == LOWER[d] && c' == UPPER[d];
    DigitMeaning(c, d);
    DigitMeaning(c', d);
    assert ([c] + s)[1..] == s && ([c'] + s)[1..] == s;
    assert c != '_' && c' != '_';
  }

  /** Digits are read from left to right; one underscore may stand between digits. */
  lemma ReadMeaning(c: char, s: string, base: nat, acc: nat, need: bool)
    requires base <= 16
    ensures ReadDigits("", base, acc, need) == if need then None else Some(acc)
    ensures c != '_' && DigitValue(c) < base ==>
              ReadDigits([c] + s, base, acc, need) == ReadDigits(s, base, acc * base + DigitValue(c), false)
    ensures c != '_' && DigitValue(c) >= base ==> ReadDigits([c] + s, base, acc, need) == None
    ensures ReadDigits("_" + s, base, acc, need) == if need then None else ReadDigits(s, base, acc, true)
  {
    assert ([c] + s)[1..] == s && ("_" + s)[1..] == s;
  }

  /** White space around a number does not matter. */
  lemma BlanksAround(before: string, s: string, after: string, base: nat)
    requires s != [] && !IsSpace(s[0]) && !IsSpace(s[|s| - 1])
    requires (forall k :: 0 <= k < |before| ==> IsSpace(before[k])) && (forall k :: 0 <= k < |after| ==> IsSpace(after[k]))
    ensures ParseInt(before + s + after, base) == ParseInt(s, base)
  {
    hide ParseStripped;
    StripAfter(before + s, after);
    StripBefore(before, s);
    StripNothing(s);
    assert (before + s)[|before + s| - 1] == s[|s| - 1];
  }

  lemma {:induction false} StripAfter(s: string, after: string)
    requires s != [] && !IsSpace(s[|s| - 1]) && forall k :: 0 <= k < |after| ==> IsSpace(after[k])
    ensures StripRight(s + after) == s
  {
    if after == [] {
      assert s + after == s;
    } else {
      var n := |after| - 1;
      assert (s + after)[..|s| + n] == s + after[..n];
      StripAfter(s, after[..n]);
    }
  }

  lemma {:induction false} StripBefore(before: string, s: string)
    requires s != [] && !IsSpace(s[0]) && forall k :: 0 <= k < |before| ==> IsSpace(before[k])
    ensures StripLeft(before + s) == s
  {
    if before == [] {
      assert before + s == s;
    } else {
      assert (before + s)[1..] == before[1..] + s;
      StripBefore(before[1..], s);
    }
  }

  /** Signs: a plus is ignored, and a minus negates. */
  lemma SignMeaning(s: string, base: nat)
    requires s != [] && !IsSpace(s[0]) && !IsSpace(s[|s| - 1]) && s[0] != '-' && s[0] != '+'
    ensures ParseInt("+" + s, base) == ParseInt(s, base)
    ensures ParseInt("-" + s, base) == var r := ParseInt(s, base); if r.None? then None else Some(-r.value)
  {
    hide ReadUnsigned, ParseInt, IsSpace;
    SignsAreNoSpace();
    var plus, minus, n := "+" + s, "-" + s, |s| - 1;
    assert plus[n + 1] == s[n] && minus[n + 1] == s[n] && plus[1..] == s && minus[1..] == s;
    ParseTight(s, base);
    ParseTight(plus, base);
    ParseTight(minus, base);
  }

  lemma SignsAreNoSpace()
    ensures !IsSpace('+') && !IsSpace('-')
  {
  }

  lemma ParseTight(s: string, base: nat)
    requires s != [] && !IsSpace(s[0]) && !IsSpace(s[|s| - 1])
    ensures ParseInt(s, base) == ParseStripped(s, base)
  {
    hide ParseStripped;
    StripNothing(s);
  }

  /** Hex numbers may have a prefix 0x. */
  lemma HexPrefix(s: string, lead: char)
    requires s != [] && s[0] != '_' && (lead == 'x' || lead == 'X')
    ensures ReadUnsigned(['0', lead] + s, 16) == ReadDigits(s, 16, 0, true)
    ensures !("0x" <= s) && !("0X" <= s) ==> ReadUnsigned(s, 16) == ReadDigits(s, 16, 0, true)
  {
    hide ReadDigits;
    var t := ['0', lead] + s;
    assert t[2..] == s && t[2] == s[0];
    if |s| >= 2 && s[0] == '0' {
      assert s[1] == 'x' ==> "0x" <= s;
      assert s[1] == 'X' ==> "0X" <= s;
    }
  }

  /** In base 0 the prefix gives the base. */
  lemma AnyPrefix(s: string, lead: char)
    requires s != [] && s[0] != '_'
    ensures var t := ['0', lead] + s;
            && (lead == 'x' || lead == 'X' ==> ReadUnsigned(t, 0) == ReadDigits(s, 16, 0, true))
            && (lead == 'o' || lead == 'O' ==> ReadUnsigned(t, 0) == ReadDigits(s, 8, 0, true))
            && (lead == 'b' || lead == 'B' ==> ReadUnsigned(t, 0) == ReadDigits(s, 2, 0, true))
  {
    hide ReadDigits;
    var t := ['0', lead] + s;
    assert t[2..] == s && t[2] == s[0];
  }

  /** Without a prefix numbers are decimal. In base 0 only zero may then begin with 0. */
  lemma NoPrefix(s: string)
    ensures ReadUnsigned(s, 10) == ReadDigits(s, 10, 0, true)
    ensures s != [] && '1' <= s[0] <= '9' ==> ReadUnsigned(s, 0) == ReadDigits(s, 10, 0, true)
    ensures s != [] && s[0] == '0' && ReadUnsigned(s, 0).Some? && (|s| > 1 ==> DigitValue(s[1]) < 10) ==>
              ReadUnsigned(s, 0) == Some(0)
  {
    hide ReadDigits;
  }

  /** Digits without a leading zero, in lower case, that have the value n. */
  predicate IsNumeral(s: string, base: nat, n: nat)
    requires base <= 16
  {
    && s != [] && (|s| > 1 ==> s[0] != '0')
    && (forall k :: 0 <= k < |s| ==> s[k] in LOWER[..base])
    && ReadDigits(s, base, 0, true) == Some(n)
  }

  lemma {:induction false} DigitsMeaning(n: nat, base: nat)
    requires 2 <= base <= 16
    ensures IsNumeral(Digits(n, base), base, n) && (Digits(n, base)[0] == '0' ==> n == 0)
    decreases n
  {
    ReadDigitsOfNumber(n, base);
    hide ReadDigits;
    if n < base {
      DigitIn(n, base);
    } else {
      Quotient(n, base);
      DigitsMeaning(n / base, base);
      DigitIn(n % base, base);
    }
  }

  lemma DigitIn(d: nat, base: nat)
    requires d < base <= 16
    ensures DigitChar(d) in LOWER[..base] && (DigitChar(d) == '0' ==> d == 0)
  {
    assert LOWER[..base][d] == LOWER[d] && DigitChar(d) == LOWER[d];
  }

  /** The standard forms of numbers: a minus sign, 0x for hex numbers, and digits. */
  lemma PrintedNumber(n: nat)
    ensures IsNumeral(DecStr(n), 10, n) && (n > 0 ==> DecStr(0 - n) == "-" + DecStr(n))
    ensures "0x" <= HexStr(n) && IsNumeral(HexStr(n)[2..], 16, n) && (n > 0 ==> HexStr(0 - n) == "-" + HexStr(n))
  {
    DigitsMeaning(n, 10);
    DigitsMeaning(n, 16);
    hide Digits, IsNumeral;
    assert HexStr(n)[2..] == Digits(n, 16);
    assert "-" + ("0x" + Digits(n, 16)) == "-0x" + Digits(n, 16);
  }

  /** What set_value() accepts: n and y for bool, also m for tristate, any string for strings, and
      numbers of the base of the type, hex numbers if they are not negative. */
  lemma AcceptedMeaning(cfg: Config, i: nat, s: string)
    ensures var t := cfg.Sym(i).typ;
            && (forall x: Tri :: AcceptsSym(cfg, i, UTri(x)) <==> t == TRISTATE || (t == BOOL && x != 1))
            && (t == STRING ==> AcceptsSym(cfg, i, UStr(s)))
            && (t == INT ==> (AcceptsSym(cfg, i, UStr(s)) <==> ParseInt(s, 10) != None))
            && (t == HEX ==> (AcceptsSym(cfg, i, UStr(s)) <==> exists n: nat :: ParseInt(s, 16) == Some(n)))
            && (t == UNKNOWN ==> !AcceptsSym(cfg, i, UStr(s)))
            && (IsBoolTri(t) ==> (AcceptsSym(cfg, i, UStr(s)) <==> s == "n" || s == "y" || (s == "m" && t == TRISTATE)))
  {
    hide ParseInt;
    var r := ParseInt(s, 16);
    assert r.Some? && r.value >= 0 ==> ParseInt(s, 16) == Some(r.value as nat);
  }

  // ---------- Strings ----------

  /** Escaping puts a backslash before quotes and backslashes. */
  lemma EscapeMeaning(s: string, c: char)
    ensures Escape("") == "" && Escape([c] + s) == (if c == '\"' || c == '\\' then ['\\', c] else [c]) + Escape(s)
  {
    EscapeCons([c] + s);
    assert ([c] + s)[1..] == s;
  }

  /** Unescaping drops a backslash before any character but a newline. */
  lemma UnescapeMeaning(s: string, c: char)
    ensures Unescape("") == "" && (c != '\\' ==> Unescape([c] + s) == [c] + Unescape(s))
    ensures c != '\n' ==> Unescape(['\\', c] + s) == [c] + Unescape(s)
    ensures Unescape("\\") == "\\" && Unescape("\\\n" + s) == "\\\n" + Unescape(s)
  {
    assert ([c] + s)[1..] == s && (['\\', c] + s)[2..] == s;
    assert "\\"[1..] == "" && ("\\\n" + s)[1..] == "\n" + s && ("\n" + s)[1..] == s;
    assert "\\" + ("\n" + Unescape(s)) == "\\\n" + Unescape(s);
  }

  /** A string ends at the first quote that has no backslash before it. What follows is ignored. */
  lemma StringEnd(s: string, c: char, rest: string)
    ensures ScanString("\"" + rest) == Some(("", rest)) && ScanString("") == None && ScanString("\\") == None
    ensures c != '\"' && c != '\\' ==>
              ScanString([c] + s) == var r := ScanString(s); if r.None? then None else Some(([c] + r.value.0, r.value.1))
    ensures c != '\n' ==>
              ScanString(['\\', c] + s) == var r := ScanString(s); if r.None? then None else Some((['\\', c] + r.value.0, r.value.1))
  {
    assert ("\"" + rest)[1..] == rest && ([c] + s)[1..] == s && (['\\', c] + s)[2..] == s && (['\\', c] + s)[..2] == ['\\', c];
  }

  /** What stands behind the closing quote is ignored; without quotes there is no string. */
  lemma QuotedText(s: string, rest: string)
    ensures MatchString("\"" + Escape(s) + "\"" + rest) == Some(Escape(s))
    ensures (s == "" || s[0] != '\"') ==> MatchString(s) == None
  {
    hide Escape, ScanString;
    ScanEscaped(s, rest);
    var text := "\"" + Escape(s) + "\"" + rest;
    assert text[1..] == Escape(s) + "\"" + rest;
  }

  /** A name is not empty, a value ends with its line, and more may follow 'is not set'. */
  lemma LineEnds(name: string, val: string, rest: string)
    requires NameOK(name) && '\n' !in val
    ensures MatchSet("CONFIG_=" + val) == None && MatchUnset("# CONFIG_ is not set" + rest) == None
    ensures MatchSet("CONFIG_" + name + "=" + val + "\n" + rest) == Some((name, val))
    ensures MatchUnset("# CONFIG_" + name + " is not set" + rest) == Some(name)
  {
    hide MatchSet, MatchUnset, NameOK;
    NoName(val, rest);
    ValueEnds(name, val, rest);
    MoreBehind(name, rest);
    assert "CONFIG_" + name + "=" + val + "\n" + rest == PREFIX + (name + ['='] + (val + ['\n'] + rest));
    assert "# CONFIG_" + name + " is not set" + rest == ("# " + PREFIX) + (name + [' '] + ("is not set" + rest));
  }

  lemma ValueEnds(name: string, val: string, rest: string)
    requires NameOK(name) && '\n' !in val
    ensures MatchSet(PREFIX + (name + ['='] + (val + ['\n'] + rest))) == Some((name, val))
  {
    var more := val + ['\n'] + rest;
    var text := name + ['='] + more;
    BeforeStop(name, '=', more);
    BeforeStop(val, '\n', rest);
    hide Before, IsSpace;
    assert (PREFIX + text)[|PREFIX|..] == text && text[|name| + 1..] == more;
  }

  lemma MoreBehind(name: string, rest: string)
    requires NameOK(name)
    ensures MatchUnset(("# " + PREFIX) + (name + [' '] + ("is not set" + rest))) == Some(name)
  {
    var more, start := "is not set" + rest, "# " + PREFIX;
    var text := name + [' '] + more;
    assert ' ' !in name;
    BeforeStop(name, ' ', more);
    hide Before, IsSpace;
    var line := start + text;
    assert line[|PREFIX| + 2..] == text && start <= line;
    BehindName(name, rest);
  }

  lemma BehindName(name: string, rest: string)
    ensures var more := (name + [' '] + ("is not set" + rest))[|name|..]; more == " is not set" + rest && " is not set" <= more
  {
  }

  lemma NoName(val: string, rest: string)
    ensures MatchSet("CONFIG_=" + val) == None && MatchUnset("# CONFIG_ is not set" + rest) == None
  {
    assert ("CONFIG_=" + val)[|PREFIX|..] == "=" + val;
    assert ("# CONFIG_ is not set" + rest)[|PREFIX| + 2..] == " is not set" + rest;
  }

  // ---------- Lines ----------

  /** How a symbol is written. */
  lemma WrittenLine(d: SymDef, val: string)
    ensures IsBoolTri(d.typ) && val == "n" ==> ConfigString(d, val) == "# CONFIG_" + d.name + " is not set"
    ensures (IsBoolTri(d.typ) && val != "n") || IsIntHex(d.typ) ==> ConfigString(d, val) == "CONFIG_" + d.name + "=" + val
    ensures d.typ == STRING ==> ConfigString(d, val) == "CONFIG_" + d.name + "=\"" + Escape(val) + "\""
  {
    assert "=" + ("\"" + Escape(val) + "\"") == "=\"" + Escape(val) + "\"";
  }

  /** The i-th symbol is the only one defined under that name. */
  predicate Named(cfg: Config, name: string, i: nat) {
    && i < |cfg.syms| && cfg.syms[i].defined && cfg.syms[i].name == name
    && forall j :: 0 <= j < |cfg.syms| && j != i && cfg.syms[j].defined ==> cfg.syms[j].name != name
  }

  /** An assignment line acts on the defined symbol of that name. */
  lemma LoadedLine(cfg: Config, st: State, name: string, val: string, i: nat)
    requires NameOK(name) && '\n' !in val && Named(cfg, name, i)
    ensures LoadLine(cfg, st, "CONFIG_" + name + "=" + val) == LoadSet(cfg, st, i, StripRight(val))
    ensures LoadLine(cfg, st, "# CONFIG_" + name + " is not set") ==
            if IsBoolTri(cfg.syms[i].typ) then LoadSet(cfg, st, i, "n") else st
  {
    MatchSetLine(name, val);
    NotSetLine(name);
    LookupFinds(cfg.syms, i);
    if IsBoolTri(cfg.Sym(i).typ) {
      UnsetAsSet(cfg, st, i);
    }
    LineTexts(name, val);
    hide MatchSet, MatchUnset, NameOK, StripRight, SetTriText, LoadSet, Lookup, Named, SetLine, UnsetLine, SetSym, SetChoice;
  }

  /** Lines for other names, and all other lines, do nothing. */
  lemma SkippedLine(cfg: Config, st: State, name: string, val: string, other: string)
    requires NameOK(name) && '\n' !in val && forall j :: 0 <= j < |cfg.syms| && cfg.syms[j].defined ==> cfg.syms[j].name != name
    requires !("CONFIG_" <= other) && !("# CONFIG_" <= other)
    ensures LoadLine(cfg, st, "CONFIG_" + name + "=" + val) == st
    ensures LoadLine(cfg, st, "# CONFIG_" + name + " is not set") == st
    ensures LoadLine(cfg, st, other) == st
  {
    MatchSetLine(name, val);
    NotSetLine(name);
    OtherLine(other);
    LineTexts(name, val);
    hide MatchSet, MatchUnset, NameOK, StripRight, SetTriText, LoadSet, Lookup, SetLine, UnsetLine, SetSym, SetChoice;
  }

  lemma LineTexts(name: string, val: string)
    ensures SetLine(name, val) == "CONFIG_" + name + "=" + val && UnsetLine(name) == "# CONFIG_" + name + " is not set"
  {
    assert "# " + PREFIX == "# CONFIG_";
  }

  lemma UnsetAsSet(cfg: Config, st: State, i: nat)
    requires IsBoolTri(cfg.Sym(i).typ)
    ensures LoadSet(cfg, st, i, "n") == SetTriText(cfg, st, i, "n")
  {
    assert "n"[0] == 'n' && ["n"[0]] == "n";
  }

  lemma OtherLine(line: string)
    requires !("CONFIG_" <= line) && !("# CONFIG_" <= line)
    ensures MatchSet(StripRight(line)) == None && MatchUnset(StripRight(line)) == None
  {
    assert StripRight(line) <= line;
    assert "# " + PREFIX == "# CONFIG_";
  }

  /** What an assignment to a bool or tristate symbol outside choices does: only the first
      character counts, and it must be y, n, or m for tristates. */
  lemma LoadedTri(cfg: Config, st: State, i: nat, val: string)
    requires i < |cfg.syms| && IsBoolTri(cfg.syms[i].typ) && cfg.syms[i].choice.None?
    ensures var t, st' := cfg.syms[i].typ, LoadSet(cfg, st, i, val);
            if val != "" && (val[0] == 'y' || val[0] == 'n' || (val[0] == 'm' && t == TRISTATE)) then
              && UserOf(st'.user, i) == Some(UTri(if val[0] == 'y' then 2 else if val[0] == 'm' then 1 else 0))
              && st'.flags == st.flags + {S(i)} && (forall j: nat :: j != i ==> UserOf(st'.user, j) == UserOf(st.user, j))
              && st'.user.mode == st.user.mode && st'.user.selection == st.user.selection
            else st' == st
  {
    assert "n" != "y" && "m" != "y" && "n" != "m";
    if val != "" {
      assert [val[0]] == "y" <==> val[0] == 'y';
      assert [val[0]] == "n" <==> val[0] == 'n';
      assert [val[0]] == "m" <==> val[0] == 'm';
    }
  }

  /** In a choice, y and m set the mode first, and y also selects the symbol. */
  lemma LoadedMember(cfg: Config, st: State, i: nat, val: string, c: nat)
    requires i < |cfg.syms| && IsBoolTri(cfg.syms[i].typ) && cfg.syms[i].choice == Some(c)
    requires val != "" && (val[0] == 'y' || val[0] == 'n' || (val[0] == 'm' && cfg.syms[i].typ == TRISTATE))
    ensures var st' := LoadSet(cfg, st, i, val);
            var v: Tri := if val[0] == 'y' then 2 else if val[0] == 'm' then 1 else 0;
            && UserOf(st'.user, i) == Some(UTri(v))
            && ModeOf(st'.user, c) == (if v != 0 && ValidValue(cfg.Choice(c).typ, UTri(v)) then Some(v) else ModeOf(st.user, c))
            && SelectionOf(st'.user, c) == (if v == 2 then Some(i) else SelectionOf(st.user, c))
  {
    assert "n" != "y" && "m" != "y" && "n" != "m";
    assert [val[0]] == "y" <==> val[0] == 'y';
    assert [val[0]] == "n" <==> val[0] == 'n';
    assert [val[0]] == "m" <==> val[0] == 'm';
  }

  /** Strings are taken from between their quotes, and numbers as they are, if they are valid. */
  lemma LoadedText(cfg: Config, st: State, i: nat, val: string)
    requires i < |cfg.syms| && !IsBoolTri(cfg.syms[i].typ) && cfg.syms[i].choice.None?
    ensures var t, st' := cfg.syms[i].typ, LoadSet(cfg, st, i, val);
            && (t == STRING && MatchString(val) == None ==> st' == st)
            && (t == STRING && MatchString(val).Some? ==>
                  UserOf(st'.user, i) == Some(UStr(Unescape(MatchString(val).value))) && S(i) in st'.flags)
            && (t == INT ==> if ParseInt(val, 10).Some? || UserOf(st.user, i) == Some(UStr(val))
                             then UserOf(st'.user, i) == Some(UStr(val)) && S(i) in st'.flags else st' == st)
  {
    hide ParseInt, MatchString, Unescape;
  }

  // ---------- Assignments and removals ----------

  /** An accepted assignment to a symbol outside choices changes its value and nothing else. */
  lemma SetMeaning(cfg: Config, st: State, i: nat, v: UVal)
    requires cfg.Sym(i).choice.None? && AcceptsSym(cfg, i, v)
    ensures var st' := SetSym(cfg, st, i, v);
            && (v.UTri? ==> UserOf(st'.user, i) == Some(v))
            && (v.UStr? && !IsBoolTri(cfg.Sym(i).typ) ==> UserOf(st'.user, i) == Some(v))
            && (forall j: nat :: j != i ==> UserOf(st'.user, j) == UserOf(st.user, j))
            && st'.user.mode == st.user.mode && st'.user.selection == st.user.selection
            && st'.flags == st.flags + {S(i)}
  {
    hide ParseInt;
  }

  /** Setting the mode of a choice does not change its selection. */
  lemma SetModeMeaning(cfg: Config, st: State, c: nat, x: Tri)
    requires cfg.Choice(c).typ == TRISTATE || (cfg.Choice(c).typ == BOOL && x != 1)
    ensures var st' := SetChoice(cfg, st, c, UTri(x));
            && ModeOf(st'.user, c) == Some(x) && (forall j: nat :: j != c ==> ModeOf(st'.user, j) == ModeOf(st.user, j))
            && st'.user.sym == st.user.sym && st'.user.selection == st.user.selection && st'.flags == st.flags + {C(c)}
  {
  }

  /** Removing values. The flags stay. */
  lemma UnsetMeaning(st: State, i: nat, c: nat)
    ensures var st' := UnsetSym(st, i);
            && (forall j: nat :: UserOf(st'.user, j) == if j == i then None else UserOf(st.user, j))
            && st'.user.mode == st.user.mode && st'.user.selection == st.user.selection && st'.flags == st.flags
    ensures var st' := UnsetChoice(st, c);
            && (forall j: nat :: ModeOf(st'.user, j) == if j == c then None else ModeOf(st.user, j))
            && (forall j: nat :: SelectionOf(st'.user, j) == if j == c then None else SelectionOf(st.user, j))
            && st'.user.sym == st.user.sym && st'.flags == st.flags
  {
  }
}
