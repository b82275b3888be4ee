/** The text of a .config file, line by line: escaping of strings, the patterns that
    recognise assignments, and the lines that are written. */
module ConfigText {
  import opened Types
  import opened Numbers

  // ---------- Escaping ----------

  /** s.replace(c, r) for a single character c. */
  function ReplaceChar(s: string, c: char, r: string): string {
    if s == [] then []
    else (if s[0] == c then r else [s[0]]) + ReplaceChar(s[1..], c, r)
  }

  /** escape() */
  function Escape(s: string): string {
    ReplaceChar(ReplaceChar(s, '\\', "\\\\"), '\"', "\\\"")
  }

  /** unescape(): a backslash before any character but a newline is dropped. */
  function Unescape(s: string): string {
    if s == [] then []
    else if s[0] == '\\' && |s| >= 2 && s[1] != '\n' then [s[1]] + Unescape(s[2..])
    else [s[0]] + Unescape(s[1..])
  }

  /** The part of the config-string pattern after the opening quote: the text up to the first
      quote that is not escaped, and what follows that quote. */
  function ScanString(s: string): Option<(string, string)> {
    if s == [] then None
    else if s[0] == '\"' then Some(("", s[1..]))
    else if s[0] != '\\' then
      match ScanString(s[1..])
      case None => None
      case Some((group, rest)) => Some(([s[0]] + group, rest))
    else if |s| >= 2 && s[1] != '\n' then
      match ScanString(s[2..])
      case None => None
      case Some((group, rest)) => Some((s[..2] + group, rest))
    else None
  }

  /** _conf_string_match(): the captured group. */
  function MatchString(s: string): Option<string> {
    if s != [] && s[0] == '\"' then
      match ScanString(s[1..])
      case None => None
      case Some((group, _)) => Some(group)
    else None
  }

  function Quoted(s: string): string {
    "\"" + Escape(s) + "\""
  }

  function EscapedChar(c: char): string {
    if c == '\\' then "\\\\" else if c == '\"' then "\\\"" else [c]
  }

  lemma {:induction false} ReplaceCharAppend(s: string, t: string, c: char, r: string)
    ensures ReplaceChar(s + t, c, r) == ReplaceChar(s, c, r) + ReplaceChar(t, c, r)
  {
    if s == [] {
      assert s + t == t;
    } else {
      ReplaceCharAppend(s[1..], t, c, r);
      assert (s + t)[1..] == s[1..] + t;
    }
  }

  lemma EscapeCons(s: string)
    requires s != []
    ensures Escape(s) == EscapedChar(s[0]) + Escape(s[1..])
  {
    var head := if s[0] == '\\' then "\\\\" else [s[0]];
    ReplaceCharAppend(head, ReplaceChar(s[1..], '\\', "\\\\"), '\"', "\\\"");
    assert ReplaceChar(s, '\\', "\\\\") == head + ReplaceChar(s[1..], '\\', "\\\\");
    assert ReplaceChar(head, '\"', "\\\"") == EscapedChar(s[0]) by {
      assert head[1..] == [] || head[1..] == "\\";
      assert head[1..] == "\\" ==> head[1..][1..] == [];
    }
  }

  lemma {:induction false} ScanEscaped(s: string, rest: string)
    ensures ScanString(Escape(s) + "\"" + rest) == Some((Escape(s), rest))
  {
    var text := Escape(s) + "\"" + rest;
    if s == [] {
      assert text == "\"" + rest;
      assert text[1..] == rest;
    } else {
      EscapeCons(s);
      ScanEscaped(s[1..], rest);
      var head := EscapedChar(s[0]);
      assert text == head + (Escape(s[1..]) + "\"" + rest);
      assert text[|head|..] == Escape(s[1..]) + "\"" + rest;
      assert text[..|head|] == head;
      assert ScanString(text[|head|..]) == Some((Escape(s[1..]), rest));
    }
  }

  lemma {:induction false} UnescapeEscape(s: string)
    ensures Unescape(Escape(s)) == s
  {
    if s != [] {
      EscapeCons(s);
      UnescapeEscape(s[1..]);
      var head := EscapedChar(s[0]);
      assert (head + Escape(s[1..]))[|head|..] == Escape(s[1..]);
    }
  }

  /** For every string, the quoted escaped form is accepted by the config-string pattern,
      the group it captures is the escaped string (so the match covers all of the text), and
      unescaping the group gives the string back. */
  lemma StringRoundTrip(s: string)
    ensures ScanString(Quoted(s)[1..]) == Some((Escape(s), ""))
    ensures MatchString(Quoted(s)) == Some(Escape(s))
    ensures Unescape(Escape(s)) == s
  {
    ScanEscaped(s, "");
    assert Quoted(s)[1..] == Escape(s) + "\"" + "";
    UnescapeEscape(s);
  }

  // ---------- Lines ----------

  const PREFIX := "CONFIG_"

  function SetLine(name: string, val: string): string {
    PREFIX + name + "=" + val
  }

  function UnsetLine(name: string): string {
    "# " + PREFIX + name + " is not set"
  }

  /** The longest prefix without the character c. */
  function Before(s: string, c: char): (r: string)
    ensures r <= s && c !in r && (|r| < |s| ==> s[|r|] == c)
  {
    if s == [] || s[0] == c then [] else [s[0]] + Before(s[1..], c)
  }

  /** _set_match(): CONFIG_<name>=<value>, the value ending at a newline. */
  function MatchSet(line: string): Option<(string, string)> {
    if !(PREFIX <= line) then None
    else
      var rest := line[|PREFIX|..];
      var name := Before(rest, '=');
      if name == [] || |name| == |rest| then None
      else Some((name, Before(rest[|name| + 1..], '\n')))
  }

  /** _unset_match(): # CONFIG_<name> is not set, possibly followed by more text. */
  function MatchUnset(line: string): Option<string> {
    if !("# " + PREFIX <= line) then None
    else
      var rest := line[|PREFIX| + 2..];
      var name := Before(rest, ' ');
      if name == [] || !(" is not set" <= rest[|name|..]) then None
      else Some(name)
  }

  /** Symbol names as the tokenizer produces them contain no blank, '=' or newline. */
  predicate NameOK(name: string) {
    name != [] && forall k :: 0 <= k < |name| ==> name[k] != '=' && !IsSpace(name[k])
  }

  lemma {:induction false} BeforeStop(s: string, c: char, rest: string)
    requires c !in s
    ensures Before(s + [c] + rest, c) == s
    ensures Before(s, c) == s
  {
    if s == [] {
      assert s + [c] + rest == [c] + rest;
    } else {
      BeforeStop(s[1..], c, rest);
      assert (s + [c] + rest)[1..] == s[1..] + [c] + rest;
    }
  }

  lemma {:induction false} StripRightAppend(s: string, t: string)
    requires s != [] && !IsSpace(s[|s| - 1])
    ensures StripRight(s + t) == s + StripRight(t)
  {
    if t == [] {
      assert s + t == s;
    } else {
      assert (s + t)[|s + t| - 1] == t[|t| - 1];
      assert (s + t)[..|s + t| - 1] == s + t[..|t| - 1];
      if IsSpace(t[|t| - 1]) {
        StripRightAppend(s, t[..|t| - 1]);
      }
    }
  }

  lemma MatchSetText(name: string, val: string)
    requires NameOK(name) && '\n' !in val
    ensures MatchSet(SetLine(name, val)) == Some((name, val))
  {
    hide IsSpace;
    var text := SetLine(name, val);
    var rest := text[|PREFIX|..];
    assert rest == name + ['='] + val;
    BeforeStop(name, '=', val);
    BeforeStop(val, '\n', "");
    assert rest[|name| + 1..] == val;
  }

  /** Reading back the line of an assignment gives the name and the value without trailing
      blanks. */
  lemma MatchSetLine(name: string, val: string)
    requires NameOK(name) && '\n' !in val
    ensures MatchSet(StripRight(SetLine(name, val))) == Some((name, StripRight(val)))
  {
    hide MatchSet, NameOK;
    StripRightAppend(PREFIX + name + "=", val);
    MatchSetText(name, StripRight(val));
  }

  lemma NotSetLine(name: string)
    requires NameOK(name)
    ensures StripRight(UnsetLine(name)) == UnsetLine(name)
    ensures MatchSet(UnsetLine(name)) == None
    ensures MatchUnset(UnsetLine(name)) == Some(name)
  {
    var line := UnsetLine(name);
    assert line[|line| - 1] == 't';
    var rest := line[|PREFIX| + 2..];
    assert rest == name + [' '] + "is not set";
    assert ' ' !in name;
    BeforeStop(name, ' ', "is not set");
    assert rest[|name|..] == " is not set";
    assert line[0] == '#' && PREFIX[0] == 'C';
  }
}
