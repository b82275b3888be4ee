/** What macros expand to: text, variables, numbered arguments, calls, and nested macros. */
module MacroLaws {
  import opened Types
  import opened Numbers
  import opened Preprocessor

  // ---------- Text ----------

  /** Text without "$(" is left as it is. */
  lemma PlainText(t: Table, c: Counts, args: seq<string>, text: string)
    requires forall i :: 0 <= i < |text| - 1 ==> !(text[i] == '$' && text[i + 1] == '(')
    ensures Whole(t, c, args, text) == Some(text)
  {
    NoMacro(text, 0);
  }

  lemma {:induction false} NoMacro(text: string, k: nat)
    requires k <= |text| && forall i :: 0 <= i < |text| - 1 ==> !(text[i] == '$' && text[i + 1] == '(')
    ensures FindMacro(text, k) == None
    decreases |text| - k
  {
    if k < |text| {
      NoMacro(text, k + 1);
    }
  }

  /** A macro in a text is replaced, in front of the expansion of the rest. The text before it has
      no '$'. */
  lemma MacroInText(t: Table, c: Counts, args: seq<string>, before: string, text: string)
    requires '$' !in before
    ensures var r, m := Whole(t, c, args, before + "$(" + text), Macro(t, c, args, text);
            if m.None? then r == None
            else
              var more := Whole(t, c, args, m.value.1);
              r == if more.None? then None else Some(before + m.value.0 + more.value)
  {
    hide Macro, FindMacro;
    var s := before + "$(" + text;
    FirstMacro(before, text, 0);
    assert s[|before| + 2..] == text && s[..|before|] == before;
  }

  lemma {:induction false} FirstMacro(before: string, text: string, k: nat)
    requires '$' !in before && k <= |before|
    ensures FindMacro(before + "$(" + text, k) == Some(|before|)
    decreases |before| - k
  {
    var s := before + "$(" + text;
    if k < |before| {
      assert s[k] == before[k];
      FirstMacro(before, text, k + 1);
    } else {
      assert s[k] == '$' && s[k + 1] == '(';
    }
  }

  // ---------- Names and arguments ----------

  /** The argument list of a macro without parentheses, commas and macros in the arguments. */
  function Listed(names: seq<string>): string
    requires names != []
  {
    if |names| == 1 then names[0] else names[0] + "," + Listed(names[1..])
  }

  predicate AllPlain(names: seq<string>) {
    forall i :: 0 <= i < |names| ==> PlainName(names[i])
  }

  lemma {:induction false} ScanListed(t: Table, c: Counts, args: seq<string>, names: seq<string>, rest: string, done: seq<string>)
    requires names != [] && AllPlain(names)
    ensures Scan(t, c, args, Listed(names) + ")" + rest, "", done, 0) == Some((done + names, rest))
    decreases |names|
  {
    hide Scan, PlainName;
    if |names| == 1 {
      LastArgument(t, c, args, names[0], rest, done);
      assert [names[0]] == names;
    } else {
      var more := Listed(names[1..]) + ")" + rest;
      assert Listed(names) + ")" + rest == names[0] + "," + more;
      NextArgument(t, c, args, names[0], more, done);
      ScanListed(t, c, args, names[1..], rest, done + [names[0]]);
      assert done + [names[0]] + names[1..] == done + names;
    }
  }

  lemma LastArgument(t: Table, c: Counts, args: seq<string>, name: string, rest: string, done: seq<string>)
    requires PlainName(name)
    ensures Scan(t, c, args, name + ")" + rest, "", done, 0) == Some((done + [name], rest))
  {
    hide Macro, FindSpecial, PlainName;
    var s := name + ")" + rest;
    FindAfterName(name, rest, 0);
    assert s[..|name|] == name && s[|name| + 1..] == rest && s[|name|] == ')' && "" + name == name;
  }

  lemma NextArgument(t: Table, c: Counts, args: seq<string>, name: string, more: string, done: seq<string>)
    requires PlainName(name)
    ensures Scan(t, c, args, name + "," + more, "", done, 0) == Scan(t, c, args, more, "", done + [name], 0)
  {
    hide Macro, FindSpecial, PlainName;
    var s := name + "," + more;
    FindComma(name, more, 0);
    assert s[..|name|] == name && s[|name| + 1..] == more && s[|name|] == ',' && "" + name == name;
  }

  lemma {:induction false} FindComma(name: string, rest: string, k: nat)
    requires PlainName(name) && k <= |name|
    ensures FindSpecial(name + "," + rest, k) == Some(|name|)
    decreases |name| - k
  {
    var s := name + "," + rest;
    if k < |name| {
      assert s[k] == name[k];
      FindComma(name, rest, k + 1);
    }
  }

  /** $(name,arg,...) is the call of the name, unless the name is the number of an argument. */
  lemma CallMacro(t: Table, c: Counts, args: seq<string>, names: seq<string>, rest: string)
    requires names != [] && AllPlain(names) && ParseInt(names[0], 10) == None
    ensures Macro(t, c, args, Listed(names) + ")" + rest) ==
            var r := Call(t, c, names); if r.None? then None else Some((r.value, rest))
  {
    hide Scan, Call, ParseInt, AllPlain;
    ScanListed(t, c, args, names, rest, []);
    assert [] + names == names;
  }

  lemma PlainDecimal(n: int)
    ensures PlainName(DecStr(n)) && AllPlain([DecStr(n)]) && Listed([DecStr(n)]) == DecStr(n)
  {
    PlainDigitText(if n < 0 then -n else n);
  }

  lemma {:induction false} PlainDigitText(n: nat)
    ensures PlainName(Digits(n, 10))
    decreases n
  {
    if n >= 10 {
      Quotient(n, 10);
      PlainDigitText(n / 10);
    }
  }

  /** $(0) is the first of the arguments of the macro whose expansion is going on, which is the
      name of its function, $(1) the next, and so on; $(-1) is the last one. A number without an
      argument is the name of a variable or function. */
  lemma ArgumentMacro(t: Table, c: Counts, args: seq<string>, n: int, rest: string)
    ensures Macro(t, c, args, DecStr(n) + ")" + rest) ==
            if 0 <= n < |args| then Some((args[n], rest))
            else if -|args| <= n < 0 then Some((args[|args| + n], rest))
            else var r := Call(t, c, [DecStr(n)]); if r.None? then None else Some((r.value, rest))
  {
    ParseDecStr(n);
    PlainDecimal(n);
    hide Scan, Call, ParseInt, AllPlain, Listed, DecStr;
    ScanListed(t, c, args, [DecStr(n)], rest, []);
    assert [] + [DecStr(n)] == [DecStr(n)];
  }

  // ---------- Parentheses and nested macros ----------

  /** Parentheses that match protect commas: the text between them is part of the argument. */
  lemma ProtectedComma(t: Table, c: Counts, args: seq<string>, a: string, b: string, rest: string)
    requires PlainName(a) && PlainName(b)
    ensures Scan(t, c, args, "(" + a + "," + b + "))" + rest, "", [], 0) == Some((["(" + a + "," + b + ")"], rest))
  {
    hide Macro, FindSpecial, PlainName;
    var s1 := a + "," + (b + ")" + (")" + rest));
    var s := "(" + s1;
    assert "(" + a + "," + b + "))" + rest == s;
    OpenFirst(s1);
    assert s[0] == '(' && s[1..] == s1 && "" + s[..0] + "(" == "(";
    FindComma(a, b + ")" + (")" + rest), 0);
    assert s1[|a|] == ',' && s1[..|a|] == a && s1[|a| + 1..] == b + ")" + (")" + rest);
    InnerEnd(t, c, args, "(" + a + ",", b, rest);
    assert Scan(t, c, args, s1, "(", [], 1) == Scan(t, c, args, b + ")" + (")" + rest), "(" + a + ",", [], 1);
  }

  lemma OpenFirst(s: string)
    ensures FindSpecial("(" + s, 0) == Some(0)
  {
  }

  lemma InnerEnd(t: Table, c: Counts, args: seq<string>, cur: string, b: string, rest: string)
    requires PlainName(b)
    ensures Scan(t, c, args, b + ")" + (")" + rest), cur, [], 1) == Some(([cur + b + ")"], rest))
  {
    hide Macro, FindSpecial, PlainName;
    var s := b + ")" + (")" + rest);
    FindAfterName(b, ")" + rest, 0);
    assert s[|b|] == ')' && s[..|b|] == b && s[|b| + 1..] == ")" + rest;
    var s2 := ")" + rest;
    FindAfterName("", rest, 0);
    assert "" + ")" + rest == s2 && s2[0] == ')' && s2[1..] == rest && s2[..0] == "";
    PlainEmpty();
    assert cur + b + ")" + "" == cur + b + ")" && [] + [cur + b + ")"] == [cur + b + ")"];
  }

  lemma PlainEmpty()
    ensures PlainName("")
  {
  }

  /** A macro within an argument is expanded first, and its expansion is not read again. */
  lemma NestedMacro(t: Table, c: Counts, args: seq<string>, before: string, text: string, cur: string,
                    done: seq<string>, nesting: nat)
    requires PlainName(before)
    ensures var m := Macro(t, c, args, text);
            Scan(t, c, args, before + "$(" + text, cur, done, nesting) ==
            if m.None? then None else Scan(t, c, args, m.value.1, cur + before + m.value.0, done, nesting)
  {
    hide Macro, FindSpecial;
    var s := before + "$(" + text;
    FindDollar(before, text, 0);
    assert s[|before|] == '$' && s[..|before|] == before && s[|before| + 2..] == text;
  }

  lemma {:induction false} FindDollar(before: string, text: string, k: nat)
    requires PlainName(before) && k <= |before|
    ensures FindSpecial(before + "$(" + text, k) == Some(|before|)
    decreases |before| - k
  {
    var s := before + "$(" + text;
    if k < |before| {
      assert s[k] == before[k];
      FindDollar(before, text, k + 1);
    } else {
      assert s[k] == '$' && s[k + 1] == '(';
    }
  }

  // ---------- Calls ----------

  /** A variable stands for the expansion of its value, in which the arguments have numbers. A
      variable is preferred to a function of the same name, and this to the environment; an
      unknown name stands for nothing. */
  lemma CallMeaning(t: Table, c: Counts, names: seq<string>)
    requires names != [] && CountOf(c, names[0]) == 0
    ensures Call(t, c, names) ==
            if names[0] in t.variables then Whole(t, c[names[0] := 1], names, t.variables[names[0]])
            else if names[0] in t.functions then t.functions[names[0]](names[1..])
            else if names[0] in t.environment then Some(t.environment[names[0]])
            else Some("")
  {
    hide Whole;
  }

  /** A variable in expansion cannot be expanded again without arguments, and with arguments at
      most a hundred times more. */
  lemma CallLimit(t: Table, c: Counts, names: seq<string>)
    requires names != [] && names[0] in t.variables
    ensures |names| == 1 && CountOf(c, names[0]) >= 1 ==> Call(t, c, names) == None
    ensures CountOf(c, names[0]) >= 101 ==> Call(t, c, names) == None
    ensures |names| > 1 && CountOf(c, names[0]) <= 100 ==>
              Call(t, c, names) == Whole(t, c[names[0] := CountOf(c, names[0]) + 1], names, t.variables[names[0]])
  {
    hide Whole;
  }

  /** A variable whose value is $(n) gives back its n-th argument, here counted with its own name
      as the 0-th. */
  lemma ArgumentOfVariable(t: Table, c: Counts, names: seq<string>, n: nat)
    requires names != [] && n < |names| && CountOf(c, names[0]) == 0
    requires names[0] in t.variables && t.variables[names[0]] == "$(" + DecStr(n) + ")"
    ensures Call(t, c, names) == Some(names[n])
  {
    hide Call, Macro, Whole, DecStr;
    CallMeaning(t, c, names);
    var c1 := c[names[0] := 1];
    ArgumentMacro(t, c1, names, n, "");
    MacroInText(t, c1, names, "", DecStr(n) + ")");
    PlainText(t, c1, names, "");
    assert DecStr(n) + ")" + "" == DecStr(n) + ")" && "" + "$(" + (DecStr(n) + ")") == "$(" + DecStr(n) + ")";
    assert "" + names[n] + "" == names[n];
  }
}
