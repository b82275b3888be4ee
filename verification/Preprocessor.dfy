/** Macro expansion in the preprocessor: `$(name)`, `$(name,arg,...)`, nested to any depth.

    The functions say what a macro expands to, working on the text that has not been scanned
    yet. The class does what the program does: it splices expansions into the text, moves an
    index, and counts the running expansions of each variable. */
module Preprocessor {
  import opened Types
  import opened Numbers

  /** What a macro can refer to: variables with their (unexpanded) values, functions, and the
      environment. A function returns None if it raises an error, be it for a wrong number of
      arguments. */
  datatype Table = Table(variables: map<string, string>, functions: map<string, seq<string> -> Option<string>>,
                         environment: map<string, string>)

  /** The running expansions of each variable, 0 if there is no entry. */
  type Counts = map<string, nat>

  function CountOf(counts: Counts, v: string): nat {
    if v in counts then counts[v] else 0
  }

  /** Functions may call themselves until the counter is above this limit. */
  const LIMIT := 100

  /** The expansions that are left: each variable can be expanded until its counter is above
      the limit. */
  ghost function Budget(t: Table, counts: Counts): set<(string, nat)> {
    set v, n: nat | v in t.variables && CountOf(counts, v) <= n <= LIMIT :: (v, n)
  }

  function Started(counts: Counts, v: string): Counts {
    counts[v := CountOf(counts, v) + 1]
  }

  lemma BudgetShrinks(t: Table, counts: Counts, v: string)
    requires v in t.variables && CountOf(counts, v) <= LIMIT
    ensures Budget(t, Started(counts, v)) < Budget(t, counts)
  {
    var after := Started(counts, v);
    assert Budget(t, after) <= Budget(t, counts) by {
      forall x | x in Budget(t, after)
        ensures x in Budget(t, counts)
      {
      }
    }
    assert (v, CountOf(counts, v)) in Budget(t, counts) && (v, CountOf(counts, v)) !in Budget(t, after);
  }

  // ---------- Scanning ----------

  predicate MacroAt(s: string, i: nat) {
    i + 1 < |s| && s[i] == '$' && s[i + 1] == '('
  }

  /** s.find("$(", i) */
  function FindMacro(s: string, i: nat): (r: Option<nat>)
    requires i <= |s|
    ensures r.Some? ==> i <= r.value && MacroAt(s, r.value)
    decreases |s| - i
  {
    if i == |s| then None else if MacroAt(s, i) then Some(i) else FindMacro(s, i + 1)
  }

  predicate SpecialAt(s: string, i: nat) {
    i < |s| && (s[i] == '(' || s[i] == ')' || s[i] == ',' || MacroAt(s, i))
  }

  /** _macro_special_search() */
  function FindSpecial(s: string, i: nat): (r: Option<nat>)
    requires i <= |s|
    ensures r.Some? ==> i <= r.value && SpecialAt(s, r.value)
    decreases |s| - i
  {
    if i == |s| then None else if SpecialAt(s, i) then Some(i) else FindSpecial(s, i + 1)
  }

  /** The argument of the enclosing macro that a macro name like "1" stands for. Negative
      numbers count from the end. */
  function NumberedArg(args: seq<string>, name: string): Option<string> {
    match ParseInt(name, 10)
    case None => None
    case Some(n) =>
      if 0 <= n < |args| then Some(args[n])
      else if -|args| <= n < 0 then Some(args[|args| + n])
      else None
  }

  // ---------- What macros expand to ----------

  /** The text that follows "$(" is read as a macro: its expansion, and the text behind it. None
      stands for an error. */
  function Macro(t: Table, counts: Counts, args: seq<string>, text: string): (r: Option<(string, string)>)
    ensures r.Some? ==> |r.value.1| < |text|
    decreases Budget(t, counts), |text|, 2
  {
    match Scan(t, counts, args, text, "", [], 0)
    case None => None
    case Some((newArgs, rest)) =>
      match NumberedArg(args, newArgs[0])
      case Some(value) => Some((value, rest))
      case None =>
        match Call(t, counts, newArgs)
        case None => None
        case Some(value) => Some((value, rest))
  }

  /** The arguments up to the parenthesis that closes the macro. `cur` is the current argument
      so far. */
  function Scan(t: Table, counts: Counts, args: seq<string>, text: string, cur: string, done: seq<string>, nesting: nat):
    (r: Option<(seq<string>, string)>)
    ensures r.Some? ==> r.value.0 != [] && |r.value.1| < |text|
    decreases Budget(t, counts), |text|, 1
  {
    match FindSpecial(text, 0)
    case None => None
    case Some(j) =>
      var before, after := cur + text[..j], text[j + 1..];
      if text[j] == '(' then
        Scan(t, counts, args, after, before + "(", done, nesting + 1)
      else if text[j] == ')' then
        if nesting > 0 then Scan(t, counts, args, after, before + ")", done, nesting - 1)
        else Some((done + [before], after))
      else if text[j] == ',' then
        if nesting > 0 then Scan(t, counts, args, after, before + ",", done, nesting)
        else Scan(t, counts, args, after, "", done + [before], nesting)
      else
        match Macro(t, counts, args, text[j + 2..])
        case None => None
        case Some((value, rest)) => Scan(t, counts, args, rest, before + value, done, nesting)
  }

  /** Kconfig._fn_val(): a variable without arguments must not be in expansion already, and a
      variable with arguments not too often. */
  function Call(t: Table, counts: Counts, args: seq<string>): Option<string>
    requires args != []
    decreases Budget(t, counts), 0, 0
  {
    var fn := args[0];
    if fn in t.variables then
      if CountOf(counts, fn) > LIMIT || (|args| == 1 && CountOf(counts, fn) != 0) then None
      else
        BudgetShrinks(t, counts, fn);
        Whole(t, Started(counts, fn), args, t.variables[fn])
    else if fn in t.functions then t.functions[fn](args[1..])
    else if fn in t.environment then Some(t.environment[fn])
    else Some("")
  }

  /** Kconfig._expand_whole() */
  function Whole(t: Table, counts: Counts, args: seq<string>, text: string): Option<string>
    decreases Budget(t, counts), |text|, 3
  {
    match FindMacro(text, 0)
    case None => Some(text)
    case Some(j) =>
      match Macro(t, counts, args, text[j + 2..])
      case None => None
      case Some((value, rest)) =>
        match Whole(t, counts, args, rest)
        case None => None
        case Some(more) => Some(text[..j] + value + more)
  }

  // ---------- Positions in the text and remaining text ----------

  function Shift(r: Option<nat>, i: nat): Option<nat> {
    if r.Some? then Some(r.value + i) else None
  }

  lemma {:induction false} FindMacroLater(s: string, i: nat, k: nat)
    requires i <= k <= |s|
    ensures FindMacro(s, k) == Shift(FindMacro(s[i..], k - i), i)
    decreases |s| - k
  {
    if k < |s| {
      assert MacroAt(s, k) <==> MacroAt(s[i..], k - i);
      FindMacroLater(s, i, k + 1);
    }
  }

  lemma {:induction false} FindSpecialLater(s: string, i: nat, k: nat)
    requires i <= k <= |s|
    ensures FindSpecial(s, k) == Shift(FindSpecial(s[i..], k - i), i)
    decreases |s| - k
  {
    if k < |s| {
      assert SpecialAt(s, k) <==> SpecialAt(s[i..], k - i) by {
        assert MacroAt(s, k) <==> MacroAt(s[i..], k - i);
      }
      FindSpecialLater(s, i, k + 1);
    }
  }

  /** Text that is expanded already in front of the expansion of the rest. */
  function Prepend(prefix: string, r: Option<string>): Option<string> {
    match r case None => None case Some(text) => Some(prefix + text)
  }

  /** The text is replaced from position i on: a macro's expansion and what follows it. */
  function Spliced(s: string, i: nat, r: Option<(string, string)>): Option<(string, nat)>
    requires i <= |s|
  {
    match r
    case None => None
    case Some((value, rest)) => Some((s[..i] + value + rest, i + |value|))
  }

  lemma PrependNothing(t: Table, c: Counts, args: seq<string>, s: string)
    ensures Whole(t, c, args, s) == Prepend(s[..0], Whole(t, c, args, s[0..]))
  {
    hide Whole;
    assert s[0..] == s;
    var r := Whole(t, c, args, s);
    assert r.Some? ==> s[..0] + r.value == r.value;
  }

  lemma MacroOfScan(t: Table, c: Counts, args: seq<string>, text: string)
    ensures Macro(t, c, args, text) ==
            match Scan(t, c, args, text, "", [], 0)
            case None => None
            case Some((newArgs, rest)) =>
              match NumberedArg(args, newArgs[0])
              case Some(value) => Some((value, rest))
              case None =>
                match Call(t, c, newArgs)
                case None => None
                case Some(value) => Some((value, rest))
  {
    hide Scan, Call, NumberedArg;
  }

  /** The text after the splice is the text after the macro. */
  lemma AfterSplice(s: string, j: nat, value: string, rest: string)
    requires j <= |s|
    ensures var s' := s[..j] + value + rest;
            && j + |value| <= |s'| && s'[j + |value|..] == rest && s'[..j + |value|] == s[..j] + value
            && s'[..j] == s[..j]
  {
  }

  /** The first macro is replaced by its expansion, and expansion goes on behind it. */
  ghost predicate MacroReplaced(t: Table, c: Counts, args: seq<string>, s: string, i: nat, j: nat)
    requires i <= j <= |s| && MacroAt(s, j)
  {
    var m := Macro(t, c, args, s[j + 2..]);
    if m.None? then Whole(t, c, args, s[i..]) == None
    else
      var (value, rest) := m.value;
      && |rest| < |s| - i
      && Prepend(s[..i], Whole(t, c, args, s[i..])) == Prepend(s[..j] + value, Whole(t, c, args, rest))
      && var s' := s[..j] + value + rest;
      && s'[j + |value|..] == rest && s'[..j + |value|] == s[..j] + value
  }

  /** One step of _expand_whole(). */
  lemma WholeStep(t: Table, c: Counts, args: seq<string>, s: string, i: nat)
    requires i <= |s|
    ensures var j := FindMacro(s, i);
            if j.None? then Prepend(s[..i], Whole(t, c, args, s[i..])) == Some(s)
            else MacroAt(s, j.value) && i <= j.value && MacroReplaced(t, c, args, s, i, j.value)
  {
    hide Macro, FindMacro, Whole, MacroReplaced;
    FindMacroLater(s, i, i);
    assert s[i..][0..] == s[i..];
    var j := FindMacro(s, i);
    if j == None {
      WholePlain(t, c, args, s[i..]);
      assert s[..i] + s[i..] == s;
    } else {
      WholeMacro(t, c, args, s, i, j.value);
    }
  }

  lemma WholePlain(t: Table, c: Counts, args: seq<string>, text: string)
    requires FindMacro(text, 0) == None
    ensures Whole(t, c, args, text) == Some(text)
  {
  }

  lemma WholeMacro(t: Table, c: Counts, args: seq<string>, s: string, i: nat, j: nat)
    requires i <= j <= |s| && MacroAt(s, j) && FindMacro(s[i..], 0) == Some(j - i)
    ensures MacroReplaced(t, c, args, s, i, j)
  {
    hide Macro, FindMacro, Whole;
    var d := j - i;
    assert s[i..][d + 2..] == s[j + 2..];
    assert s[..i] + s[i..][..d] == s[..j];
    WholeUnfold(t, c, args, s[i..], d);
    var m := Macro(t, c, args, s[j + 2..]);
    if m.Some? {
      AfterSplice(s, j, m.value.0, m.value.1);
      var more := Whole(t, c, args, m.value.1);
      if more.Some? {
        assert s[..i] + (s[i..][..d] + m.value.0 + more.value) == s[..j] + m.value.0 + more.value;
      }
    }
  }

  lemma WholeUnfold(t: Table, c: Counts, args: seq<string>, text: string, j: nat)
    requires FindMacro(text, 0) == Some(j)
    ensures var m := Macro(t, c, args, text[j + 2..]);
            Whole(t, c, args, text) ==
            if m.None? then None else Prepend(text[..j] + m.value.0, Whole(t, c, args, m.value.1))
  {
    hide Macro, FindMacro;
  }

  /** One step of _expand_macro(). */
  lemma ScanStep(t: Table, c: Counts, args: seq<string>, s: string, argStart: nat, i: nat, done: seq<string>, nesting: nat)
    requires argStart <= i <= |s|
    ensures var now := Scan(t, c, args, s[i..], s[argStart..i], done, nesting);
            match FindSpecial(s, i)
            case None => now == None
            case Some(j) =>
              && i <= j && SpecialAt(s, j)
              && (s[j] == '(' ==> now == Scan(t, c, args, s[j + 1..], s[argStart..j + 1], done, nesting + 1))
              && (s[j] == ')' && nesting > 0 ==>
                    now == Scan(t, c, args, s[j + 1..], s[argStart..j + 1], done, nesting - 1))
              && (s[j] == ')' && nesting == 0 ==> now == Some((done + [s[argStart..j]], s[j + 1..])))
              && (s[j] == ',' && nesting > 0 ==>
                    now == Scan(t, c, args, s[j + 1..], s[argStart..j + 1], done, nesting))
              && (s[j] == ',' && nesting == 0 ==>
                    now == Scan(t, c, args, s[j + 1..], s[j + 1..j + 1], done + [s[argStart..j]], nesting))
              && (s[j] != '(' && s[j] != ')' && s[j] != ',' ==> NestedStep(t, c, args, s, argStart, i, j, done, nesting))
  {
    hide Scan, Macro, FindSpecial, NestedStep;
    FindSpecialLater(s, i, i);
    assert s[i..][0..] == s[i..];
    var found := FindSpecial(s, i);
    if found.None? {
      NothingSpecial(t, c, args, s[i..], s[argStart..i], done, nesting);
    } else if s[found.value] == '(' || s[found.value] == ')' || s[found.value] == ',' {
      ScanChar(t, c, args, s, argStart, i, found.value, done, nesting);
    } else {
      Nested(t, c, args, s, argStart, i, found.value, done, nesting);
    }
  }

  lemma NothingSpecial(t: Table, c: Counts, args: seq<string>, text: string, cur: string, done: seq<string>, nesting: nat)
    requires FindSpecial(text, 0) == None
    ensures Scan(t, c, args, text, cur, done, nesting) == None
  {
  }

  /** A parenthesis or comma at position j. */
  lemma ScanChar(t: Table, c: Counts, args: seq<string>, s: string, argStart: nat, i: nat, j: nat,
                 done: seq<string>, nesting: nat)
    requires argStart <= i <= j < |s| && FindSpecial(s[i..], 0) == Some(j - i)
    requires s[j] == '(' || s[j] == ')' || s[j] == ','
    ensures var now := Scan(t, c, args, s[i..], s[argStart..i], done, nesting);
            && (s[j] == '(' ==> now == Scan(t, c, args, s[j + 1..], s[argStart..j + 1], done, nesting + 1))
            && (s[j] == ')' && nesting > 0 ==>
                  now == Scan(t, c, args, s[j + 1..], s[argStart..j + 1], done, nesting - 1))
            && (s[j] == ')' && nesting == 0 ==> now == Some((done + [s[argStart..j]], s[j + 1..])))
            && (s[j] == ',' && nesting > 0 ==>
                  now == Scan(t, c, args, s[j + 1..], s[argStart..j + 1], done, nesting))
            && (s[j] == ',' && nesting == 0 ==>
                  now == Scan(t, c, args, s[j + 1..], s[j + 1..j + 1], done + [s[argStart..j]], nesting))
  {
    hide Macro, FindSpecial;
    var d := j - i;
    assert s[i..][d] == s[j] && s[i..][d + 1..] == s[j + 1..];
    assert s[argStart..i] + s[i..][..d] == s[argStart..j];
    assert s[argStart..j] + [s[j]] == s[argStart..j + 1];
    assert s[j + 1..j + 1] == "";
  }

  /** A nested macro is replaced by its expansion, and scanning goes on behind it. */
  ghost predicate NestedStep(t: Table, c: Counts, args: seq<string>, s: string, argStart: nat, i: nat, j: nat,
                             done: seq<string>, nesting: nat)
    requires argStart <= i <= j <= |s| && MacroAt(s, j)
  {
    var now := Scan(t, c, args, s[i..], s[argStart..i], done, nesting);
    match Macro(t, c, args, s[j + 2..])
    case None => now == None
    case Some((value, rest)) =>
      && |rest| < |s| - i
      && var s' := s[..j] + value + rest;
      && s'[j + |value|..] == rest && s'[..j] == s[..j]
      && now == Scan(t, c, args, s'[j + |value|..], s'[argStart..j + |value|], done, nesting)
  }

  lemma Nested(t: Table, c: Counts, args: seq<string>, s: string, argStart: nat, i: nat, j: nat,
               done: seq<string>, nesting: nat)
    requires argStart <= i <= j <= |s| && MacroAt(s, j) && FindSpecial(s[i..], 0) == Some(j - i)
    ensures NestedStep(t, c, args, s, argStart, i, j, done, nesting)
  {
    hide Macro, FindSpecial;
    var d := j - i;
    assert s[i..][d] == s[j] == '$' && s[i..][d + 2..] == s[j + 2..];
    assert s[argStart..i] + s[i..][..d] == s[argStart..j];
    var m := Macro(t, c, args, s[j + 2..]);
    if m.Some? {
      var (value, rest) := m.value;
      AfterSplice(s, j, value, rest);
      var s' := s[..j] + value + rest;
      assert s'[argStart..j + |value|] == s[argStart..j] + value;
    }
  }

  // ---------- The expansion itself ----------

  class Expander {
    const t: Table

    /** Variable._n_expansions */
    var counts: Counts

    ghost predicate Valid()
      reads this
    {
      t.variables.Keys <= counts.Keys
    }

    constructor (t: Table)
      ensures Valid() && this.t == t && forall v :: v in t.variables ==> counts[v] == 0
    {
      this.t := t;
      this.counts := map v | v in t.variables :: 0;
    }

    /** Kconfig._expand_whole(). The counters are back to what they were on success. */
    method ExpandWhole(s0: string, args: seq<string>) returns (r: Option<string>)
      requires Valid()
      modifies this
      ensures Valid() && r == Whole(t, old(counts), args, s0)
      ensures r.Some? ==> counts == old(counts)
      decreases Budget(t, counts), |s0|, 3
    {
      hide Whole, Macro, FindMacro;
      ghost var c := counts;
      var s, i := s0, 0;
      PrependNothing(t, c, args, s0);
      while true
        invariant 0 <= i <= |s| && |s| - i <= |s0| && Valid() && counts == c
        invariant Whole(t, c, args, s0) == Prepend(s[..i], Whole(t, c, args, s[i..]))
        decreases |s| - i
      {
        WholeStep(t, c, args, s, i);
        var j := FindMacro(s, i);
        if j.None? {
          return Some(s);
        }
        var m := ExpandMacro(s, j.value, args);
        if m.None? {
          return None;
        }
        s, i := m.value.0, m.value.1;
      }
    }

    /** Kconfig._expand_macro(): the macro at position i of s is replaced by its expansion. The
        text before the macro and the text after it are untouched, and the new position is
        behind the expansion. */
    method ExpandMacro(s0: string, start: nat, args: seq<string>) returns (r: Option<(string, nat)>)
      requires Valid() && MacroAt(s0, start)
      modifies this
      ensures Valid() && r == Spliced(s0, start, Macro(t, old(counts), args, s0[start + 2..]))
      ensures r.Some? ==> counts == old(counts)
      decreases Budget(t, counts), |s0| - start - 2, 2
    {
      hide Whole, Macro, Scan, FindSpecial, Call, NumberedArg;
      ghost var c, text := counts, s0[start + 2..];
      var s, i := s0, start + 2;
      var argStart := i;
      var newArgs: seq<string> := [];
      var nesting := 0;
      assert s[argStart..i] == "";
      while true
        invariant start + 2 <= argStart <= i <= |s| && |s| - i <= |text| && Valid() && counts == c
        invariant nesting >= 0 && s[..start] == s0[..start]
        invariant Scan(t, c, args, text, "", [], 0) == Scan(t, c, args, s[i..], s[argStart..i], newArgs, nesting)
        decreases |s| - i
      {
        ScanStep(t, c, args, s, argStart, i, newArgs, nesting);
        var j := FindSpecial(s, i);
        if j.None? {
          MacroOfScan(t, c, args, text);
          return None;
        }
        if s[j.value] == '(' {
          nesting := nesting + 1;
          i := j.value + 1;
        } else if s[j.value] == ')' {
          if nesting > 0 {
            nesting := nesting - 1;
            i := j.value + 1;
            continue;
          }
          newArgs := newArgs + [s[argStart..j.value]];
          MacroOfScan(t, c, args, text);
          var value := NumberedArg(args, newArgs[0]);
          if value.None? {
            value := FnVal(newArgs);
            if value.None? {
              return None;
            }
          }
          return Some((s[..start] + value.value + s[j.value + 1..], start + |value.value|));
        } else if s[j.value] == ',' {
          i := j.value + 1;
          if nesting > 0 {
            continue;
          }
          newArgs := newArgs + [s[argStart..j.value]];
          argStart := i;
        } else {
          var m := ExpandMacro(s, j.value, args);
          if m.None? {
            MacroOfScan(t, c, args, text);
            return None;
          }
          s, i := m.value.0, m.value.1;
        }
      }
    }

    /** Kconfig._fn_val() */
    method FnVal(args: seq<string>) returns (r: Option<string>)
      requires Valid() && args != []
      modifies this
      ensures Valid() && r == Call(t, old(counts), args)
      ensures r.Some? ==> counts == old(counts)
      decreases Budget(t, counts), 0, 0
    {
      hide Whole;
      var fn := args[0];
      if fn in t.variables {
        if |args| == 1 {
          if counts[fn] != 0 {
            return None;
          }
        } else if counts[fn] > LIMIT {
          return None;
        }
        BudgetShrinks(t, counts, fn);
        ghost var c := counts;
        counts := counts[fn := counts[fn] + 1];
        r := ExpandWhole(t.variables[fn], args);
        if r.Some? {
          counts := counts[fn := counts[fn] - 1];
          assert counts == c;
        }
        return;
      }
      if fn in t.functions {
        return t.functions[fn](args[1..]);
      }
      if fn in t.environment {
        return Some(t.environment[fn]);
      }
      return Some("");
    }
  }

  // ---------- What the expansion guarantees ----------

  predicate IsSuffix(rest: string, text: string) {
    |rest| <= |text| && text[|text| - |rest|..] == rest
  }

  lemma SuffixOf(rest: string, after: string, text: string, j: nat)
    requires j <= |text| && after == text[j..] && IsSuffix(rest, after)
    ensures IsSuffix(rest, text)
  {
    assert text[j..][|after| - |rest|..] == text[|text| - |rest|..];
  }

  /** The text behind a macro is left as it is. */
  lemma {:induction false} MacroRest(t: Table, c: Counts, args: seq<string>, text: string)
    ensures Macro(t, c, args, text).Some? ==> IsSuffix(Macro(t, c, args, text).value.1, text)
    decreases |text|, 1
  {
    hide Scan, Call, NumberedArg;
    ScanRest(t, c, args, text, "", [], 0);
  }

  lemma {:induction false} ScanRest(t: Table, c: Counts, args: seq<string>, text: string, cur: string, done: seq<string>, nesting: nat)
    ensures var r := Scan(t, c, args, text, cur, done, nesting); r.Some? ==> IsSuffix(r.value.1, text)
    decreases |text|, 0
  {
    hide Macro, IsSuffix;
    var j := FindSpecial(text, 0);
    if j.Some? {
      var after := text[j.value + 1..];
      if text[j.value] == '(' || text[j.value] == ')' || text[j.value] == ',' {
        ScanAfter(t, c, args, text, cur, done, nesting, j.value);
      } else {
        ScanNested(t, c, args, text, cur, done, nesting, j.value);
      }
    }
  }

  lemma {:induction false} ScanAfter(t: Table, c: Counts, args: seq<string>, text: string, cur: string, done: seq<string>, nesting: nat, j: nat)
    requires FindSpecial(text, 0) == Some(j) && (text[j] == '(' || text[j] == ')' || text[j] == ',')
    ensures var r := Scan(t, c, args, text, cur, done, nesting); r.Some? ==> IsSuffix(r.value.1, text)
    decreases |text|, -1
  {
    hide Macro, FindSpecial, IsSuffix;
    var before, after := cur + text[..j], text[j + 1..];
    ScanRest(t, c, args, after, before + "(", done, nesting + 1);
    if nesting > 0 {
      ScanRest(t, c, args, after, before + ")", done, nesting - 1);
    }
    ScanRest(t, c, args, after, before + ",", done, nesting);
    ScanRest(t, c, args, after, "", done + [before], nesting);
    SelfSuffix(after);
    var r := Scan(t, c, args, text, cur, done, nesting);
    if r.Some? {
      SuffixOf(r.value.1, after, text, j + 1);
    }
  }

  lemma SelfSuffix(s: string)
    ensures IsSuffix(s, s)
  {
    assert s[0..] == s;
  }

  lemma {:induction false} ScanNested(t: Table, c: Counts, args: seq<string>, text: string, cur: string, done: seq<string>, nesting: nat, j: nat)
    requires FindSpecial(text, 0) == Some(j) && text[j] != '(' && text[j] != ')' && text[j] != ','
    ensures var r := Scan(t, c, args, text, cur, done, nesting); r.Some? ==> IsSuffix(r.value.1, text)
    decreases |text|, -1
  {
    hide Macro, FindSpecial, IsSuffix;
    var after := text[j + 2..];
    MacroRest(t, c, args, after);
    var m := Macro(t, c, args, after);
    if m.Some? {
      var (value, rest) := m.value;
      ScanRest(t, c, args, rest, cur + text[..j] + value, done, nesting);
      var r := Scan(t, c, args, text, cur, done, nesting);
      if r.Some? {
        SuffixTwice(r.value.1, rest, after);
        SuffixOf(r.value.1, after, text, j + 2);
      }
    }
  }

  lemma SuffixTwice(a: string, b: string, c: string)
    requires IsSuffix(a, b) && IsSuffix(b, c)
    ensures IsSuffix(a, c)
  {
    assert b[|b| - |a|..] == c[|c| - |b|..][|b| - |a|..];
  }

  /** No counter of the first state is higher. */
  ghost predicate Lower(c1: Counts, c2: Counts) {
    forall v :: CountOf(c1, v) <= CountOf(c2, v)
  }

  lemma LowerStarted(c1: Counts, c2: Counts, v: string)
    requires Lower(c1, c2)
    ensures Lower(Started(c1, v), Started(c2, v))
  {
    forall w: string
      ensures CountOf(Started(c1, v), w) <= CountOf(Started(c2, v), w)
    {
      assert CountOf(c1, w) <= CountOf(c2, w) && CountOf(c1, v) <= CountOf(c2, v);
    }
  }

  /** The counters only turn results into errors: with lower counters, what is expanded
      successfully expands to the same. */
  lemma {:induction false} MacroLower(t: Table, c1: Counts, c2: Counts, args: seq<string>, text: string)
    requires Lower(c1, c2)
    ensures Macro(t, c2, args, text).Some? ==> Macro(t, c1, args, text) == Macro(t, c2, args, text)
    decreases Budget(t, c1), |text|, 2
  {
    hide Lower, Scan, Call, NumberedArg, Budget;
    ScanLower(t, c1, c2, args, text, "", [], 0);
    var r := Scan(t, c2, args, text, "", [], 0);
    if r.Some? {
      CallLower(t, c1, c2, r.value.0);
    }
  }

  lemma {:induction false} ScanLower(t: Table, c1: Counts, c2: Counts, args: seq<string>, text: string, cur: string, done: seq<string>, nesting: nat)
    requires Lower(c1, c2)
    ensures Scan(t, c2, args, text, cur, done, nesting).Some? ==>
              Scan(t, c1, args, text, cur, done, nesting) == Scan(t, c2, args, text, cur, done, nesting)
    decreases Budget(t, c1), |text|, 1
  {
    hide Lower, Macro, FindSpecial, Budget;
    var found := FindSpecial(text, 0);
    if found.Some? {
      var j := found.value;
      var before, after := cur + text[..j], text[j + 1..];
      if text[j] == '(' {
        ScanLower(t, c1, c2, args, after, before + "(", done, nesting + 1);
      } else if text[j] == ')' {
        if nesting > 0 {
          ScanLower(t, c1, c2, args, after, before + ")", done, nesting - 1);
        }
      } else if text[j] == ',' {
        if nesting > 0 {
          ScanLower(t, c1, c2, args, after, before + ",", done, nesting);
        } else {
          ScanLower(t, c1, c2, args, after, "", done + [before], nesting);
        }
      } else {
        MacroLower(t, c1, c2, args, text[j + 2..]);
        var m := Macro(t, c2, args, text[j + 2..]);
        if m.Some? {
          ScanLower(t, c1, c2, args, m.value.1, before + m.value.0, done, nesting);
        }
      }
    }
  }

  lemma {:induction false} CallLower(t: Table, c1: Counts, c2: Counts, args: seq<string>)
    requires Lower(c1, c2) && args != []
    ensures Call(t, c2, args).Some? ==> Call(t, c1, args) == Call(t, c2, args)
    decreases Budget(t, c1), 0, 0
  {
    hide Lower, Whole, Budget;
    var fn := args[0];
    if fn in t.variables && Call(t, c2, args).Some? {
      CountLower(c1, c2, fn);
      BudgetShrinks(t, c1, fn);
      LowerStarted(c1, c2, fn);
      WholeLower(t, Started(c1, fn), Started(c2, fn), args, t.variables[fn]);
    }
  }

  lemma CountLower(c1: Counts, c2: Counts, v: string)
    requires Lower(c1, c2)
    ensures CountOf(c1, v) <= CountOf(c2, v)
  {
  }

  lemma {:induction false} WholeLower(t: Table, c1: Counts, c2: Counts, args: seq<string>, text: string)
    requires Lower(c1, c2)
    ensures Whole(t, c2, args, text).Some? ==> Whole(t, c1, args, text) == Whole(t, c2, args, text)
    decreases Budget(t, c1), |text|, 3
  {
    hide Lower, Macro, FindMacro, Budget;
    var found := FindMacro(text, 0);
    if found.Some? {
      MacroLower(t, c1, c2, args, text[found.value + 2..]);
      var m := Macro(t, c2, args, text[found.value + 2..]);
      if m.Some? {
        WholeLower(t, c1, c2, args, m.value.1);
      }
    }
  }

  /** A name in which nothing is special to macros. */
  predicate PlainName(name: string) {
    forall k :: 0 <= k < |name| ==> name[k] != '(' && name[k] != ')' && name[k] != ',' && name[k] != '$'
  }

  lemma {:induction false} FindAfterName(name: string, rest: string, k: nat)
    requires PlainName(name) && k <= |name|
    ensures FindSpecial(name + ")" + rest, k) == Some(|name|)
    decreases |name| - k
  {
    var s := name + ")" + rest;
    if k < |name| {
      assert s[k] == name[k];
      FindAfterName(name, rest, k + 1);
    }
  }

  /** A plain macro $(name) that is not a numbered argument is the call of the name. */
  lemma PlainMacro(t: Table, c: Counts, args: seq<string>, name: string, rest: string)
    requires PlainName(name) && NumberedArg(args, name) == None
    ensures var r := Call(t, c, [name]);
            Macro(t, c, args, name + ")" + rest) == if r.None? then None else Some((r.value, rest))
  {
    hide Call, NumberedArg, FindSpecial;
    FindAfterName(name, rest, 0);
    var s := name + ")" + rest;
    assert s[..|name|] == name && s[|name| + 1..] == rest;
    assert s[|name|] == ')' && "" + name == name && [] + [name] == [name];
    assert Scan(t, c, args, s, "", [], 0) == Some(([name], rest));
  }

  /** The value of v begins, after text without macros, with a plain reference to w. */
  predicate RefersFirst(t: Table, v: string, before: string, w: string, after: string) {
    && v in t.variables && t.variables[v] == before + "$(" + w + ")" + after
    && PlainName(w) && NumberedArg([v], w) == None
    && FindMacro(t.variables[v], 0) == Some(|before|)
  }

  lemma FirstReferenceFails(t: Table, c: Counts, v: string, before: string, w: string, after: string)
    requires RefersFirst(t, v, before, w, after) && CountOf(c, v) == 0
    requires Call(t, Started(c, v), [w]) == None
    ensures Call(t, c, [v]) == None
  {
    hide Whole, Macro, FindMacro, NumberedArg, PlainName, Budget;
    var value := t.variables[v];
    assert value == (before + "$(") + (w + ")" + after);
    assert value[|before| + 2..] == w + ")" + after;
    PlainMacro(t, Started(c, v), [v], w, after);
    WholeUnfold(t, Started(c, v), [v], value, |before|);
  }

  /** Variables that refer to each other in a circle, or a variable that refers to itself, cannot
      be expanded: the error is raised instead of looping, whatever is in expansion already. */
  lemma {:induction false} CircularReference(t: Table, c: Counts, family: set<string>, v: string)
    requires v in family
    requires forall x :: x in family ==> exists before, w, after :: w in family && RefersFirst(t, x, before, w, after)
    ensures Call(t, c, [v]) == None
    decreases Budget(t, c)
  {
    hide RefersFirst, Budget, Call;
    var before, w, after :| w in family && RefersFirst(t, v, before, w, after);
    Known(t, v, before, w, after);
    if CountOf(c, v) == 0 {
      BudgetShrinks(t, c, v);
      CircularReference(t, Started(c, v), family, w);
      FirstReferenceFails(t, c, v, before, w, after);
    } else {
      InExpansion(t, c, v);
    }
  }

  lemma Known(t: Table, v: string, before: string, w: string, after: string)
    requires RefersFirst(t, v, before, w, after)
    ensures v in t.variables
  {
  }

  lemma InExpansion(t: Table, c: Counts, v: string)
    requires v in t.variables && CountOf(c, v) != 0
    ensures Call(t, c, [v]) == None
  {
  }
}
