/** Reading back the lines that were written for a set of symbols: which user state results,
    whatever the state before. */
module ReadBack {
  import opened Types
  import opened Numbers
  import opened Semantics
  import opened Evaluation
  import opened Caching
  import opened Updates
  import opened ConfigText
  import opened ConfigFile

  /** Symbol.config_string for a value that is written. */
  function ConfigString(d: SymDef, val: string): string {
    if IsBoolTri(d.typ) then
      if val != "n" then SetLine(d.name, val) else UnsetLine(d.name)
    else if IsIntHex(d.typ) then SetLine(d.name, val)
    else SetLine(d.name, Quoted(val))
  }

  /** The lines for the symbols in `written` among the first n, with their values in env. */
  ghost function LinesFor(cfg: Config, env: Env, written: set<nat>, n: nat): seq<string>
    requires n <= |cfg.syms|
  {
    if n == 0 then []
    else
      LinesFor(cfg, env, written, n - 1) +
      if n - 1 in written then [ConfigString(cfg.syms[n - 1], env(StrV(n - 1)).s)] else []
  }

  /** What can be written so that it can be read back: the symbols have names of their own that
      the patterns accept, no value contains a newline, and the nonzero members of a choice
      agree on its mode, with at most one y. */
  ghost predicate Writable(cfg: Config, env: Env, written: set<nat>) {
    && (forall i :: i in written ==> SymWritable(cfg, env, i))
    && (forall i, c :: i in written && cfg.Sym(i).choice == Some(c) ==>
          && c < |cfg.choices|
          && (env(TriV(i)).t != 0 ==> ValidValue(cfg.choices[c].typ, UTri(env(TriV(i)).t))))
    && (forall i, j, c :: Nonzero(cfg, env, written, c, i) && Nonzero(cfg, env, written, c, j) ==>
          env(TriV(i)).t == env(TriV(j)).t && (env(TriV(i)).t == 2 ==> i == j))
  }

  ghost predicate SymWritable(cfg: Config, env: Env, i: nat) {
    && i < |cfg.syms|
    && var d := cfg.syms[i];
    && d.defined && d.typ != UNKNOWN
    && NameOK(d.name) && Lookup(cfg.syms, d.name) == Some(i)
    && '\n' !in env(StrV(i)).s
    && (IsBoolTri(d.typ) ==>
          env(StrV(i)).s == TriStr(env(TriV(i)).t) && ValidValue(d.typ, UTri(env(TriV(i)).t)))
    && (d.choice.Some? ==> IsBoolTri(d.typ))
  }

  /** i is a written member of the choice with the value m or y. */
  ghost predicate Nonzero(cfg: Config, env: Env, written: set<nat>, c: nat, i: nat) {
    i in written && cfg.Sym(i).choice == Some(c) && env(TriV(i)).t != 0
  }

  /** The user value that reading the line of symbol i gives. Numbers lose trailing blanks;
      malformed ones are not accepted. */
  ghost function Stored(cfg: Config, env: Env, i: nat): Option<UVal> {
    var d := cfg.Sym(i);
    if IsBoolTri(d.typ) then Some(UTri(env(TriV(i)).t))
    else if d.typ == STRING then Some(UStr(env(StrV(i)).s))
    else
      var v := UStr(StripRight(env(StrV(i)).s));
      if ValidValue(d.typ, v) then Some(v) else None
  }

  // ---------- One line ----------

  lemma {:induction false} NoNewlineReplaced(s: string, c: char, r: string)
    requires '\n' !in s && '\n' !in r
    ensures '\n' !in ReplaceChar(s, c, r)
  {
    if s != [] {
      NoNewlineReplaced(s[1..], c, r);
    }
  }

  lemma NoNewlineQuoted(s: string)
    requires '\n' !in s
    ensures '\n' !in Quoted(s) && StripRight(Quoted(s)) == Quoted(s)
  {
    NoNewlineReplaced(s, '\\', "\\\\");
    NoNewlineReplaced(ReplaceChar(s, '\\', "\\\\"), '\"', "\\\"");
    assert Quoted(s)[|Quoted(s)| - 1] == '\"';
  }

  lemma ReadBoolTri(cfg: Config, st: State, env: Env, i: nat)
    requires SymWritable(cfg, env, i) && IsBoolTri(cfg.syms[i].typ)
    ensures LoadLine(cfg, st, ConfigString(cfg.syms[i], env(StrV(i)).s)) ==
            SetTriText(cfg, st, i, TriStr(env(TriV(i)).t))
  {
    hide Lookup, NameOK, MatchSet, MatchUnset, SetTriText;
    var d := cfg.syms[i];
    var text := TriStr(env(TriV(i)).t);
    if text != "n" {
      MatchSetLine(d.name, text);
      assert StripRight(text) == text;
    } else {
      NotSetLine(d.name);
    }
  }

  lemma ReadString(cfg: Config, st: State, env: Env, i: nat)
    requires SymWritable(cfg, env, i) && cfg.syms[i].typ == STRING
    ensures LoadLine(cfg, st, ConfigString(cfg.syms[i], env(StrV(i)).s)) ==
            SetSym(cfg, st, i, UStr(env(StrV(i)).s))
  {
    hide Lookup, NameOK, MatchSet, MatchUnset, SetSym, MatchString, Quoted, Unescape;
    var val := env(StrV(i)).s;
    NoNewlineQuoted(val);
    MatchSetLine(cfg.syms[i].name, Quoted(val));
    StringRoundTrip(val);
  }

  lemma ReadNumber(cfg: Config, st: State, env: Env, i: nat)
    requires SymWritable(cfg, env, i) && IsIntHex(cfg.syms[i].typ)
    ensures LoadLine(cfg, st, ConfigString(cfg.syms[i], env(StrV(i)).s)) ==
            SetSym(cfg, st, i, UStr(StripRight(env(StrV(i)).s)))
  {
    hide Lookup, NameOK, MatchSet, MatchUnset, SetSym;
    MatchSetLine(cfg.syms[i].name, env(StrV(i)).s);
  }

  // ---------- All lines ----------

  /** s is what st0 has become after reading the lines of the first n symbols. */
  ghost predicate ReadUpTo(cfg: Config, env: Env, written: set<nat>, n: nat, s: State) {
    && SymsReadUpTo(cfg, env, written, n, s)
    && (forall c: nat :: c < |cfg.choices| ==> ChoiceReadUpTo(cfg, env, written, n, s, c))
  }

  ghost predicate SymsReadUpTo(cfg: Config, env: Env, written: set<nat>, n: nat, s: State) {
    forall i: nat :: cfg.Sym(i).defined ==>
      && (S(i) in s.flags <==> i < n && i in written && Stored(cfg, env, i).Some?)
      && (S(i) in s.flags ==> UserOf(s.user, i) == Stored(cfg, env, i))
  }

  ghost predicate ChoiceReadUpTo(cfg: Config, env: Env, written: set<nat>, n: nat, s: State, c: nat) {
    && (C(c) in s.flags <==> exists i: nat :: i < n && Nonzero(cfg, env, written, c, i))
    && (forall i: nat :: i < n && Nonzero(cfg, env, written, c, i) ==>
          && ModeOf(s.user, c) == Some(env(TriV(i)).t)
          && (env(TriV(i)).t == 2 ==> SelectionOf(s.user, c) == Some(i)))
  }

  /** The effect of the line of symbol i on the state. */
  ghost function AfterLine(cfg: Config, env: Env, st: State, i: nat): State {
    var v, c := Stored(cfg, env, i), cfg.Sym(i).choice;
    if v.None? then st
    else
      var t := env(TriV(i)).t;
      var st1 := if c.Some? && t != 0
                 then State(st.user.(mode := st.user.mode[c.value := t]), st.flags + {C(c.value)})
                 else st;
      AssignSym(cfg.Sym(i), st1, i, v.value)
  }

  lemma ReadLine(cfg: Config, st: State, env: Env, written: set<nat>, i: nat)
    requires UserOK(cfg, st.user) && Writable(cfg, env, written) && i in written
    ensures LoadLine(cfg, st, ConfigString(cfg.syms[i], env(StrV(i)).s)) == AfterLine(cfg, env, st, i)
  {
    hide LoadLine, ConfigString, UserOK, Lookup, AssignSym, SetSym;
    assert SymWritable(cfg, env, i);
    var d := cfg.syms[i];
    if IsBoolTri(d.typ) {
      ReadBoolTri(cfg, st, env, i);
      var t := env(TriV(i)).t;
      assert TriOfStr(UStr(TriStr(t))) == UTri(t);
      var st1 := if d.choice.Some? && t != 0 then SetChoice(cfg, st, d.choice.value, UStr(TriStr(t))) else st;
      if d.choice.Some? && t != 0 {
        SetChoiceOK(cfg, st, d.choice.value, UStr(TriStr(t)));
      }
      SetSymAssigns(cfg, st1, i, UStr(TriStr(t)));
      assert TriStr(t) == "n" <==> t == 0;
    } else if d.typ == STRING {
      ReadString(cfg, st, env, i);
      SetSymAssigns(cfg, st, i, UStr(env(StrV(i)).s));
    } else {
      ReadNumber(cfg, st, env, i);
      SetSymAssigns(cfg, st, i, UStr(StripRight(env(StrV(i)).s)));
    }
  }

  lemma SymsAfterLine(cfg: Config, env: Env, written: set<nat>, s: State, i: nat)
    requires SymsReadUpTo(cfg, env, written, i, s)
    ensures SymsReadUpTo(cfg, env, written, i + 1, if i in written then AfterLine(cfg, env, s, i) else s)
  {
    hide Stored;
    var s' := if i in written then AfterLine(cfg, env, s, i) else s;
    forall j: nat | cfg.Sym(j).defined
      ensures S(j) in s'.flags <==> j < i + 1 && j in written && Stored(cfg, env, j).Some?
      ensures S(j) in s'.flags ==> UserOf(s'.user, j) == Stored(cfg, env, j)
    {
      assert UserOf(s.user, j) == UserOf(s'.user, j) || j == i;
    }
  }

  lemma ChoiceAfterLine(cfg: Config, env: Env, written: set<nat>, s: State, i: nat, c: nat)
    requires Writable(cfg, env, written) && c < |cfg.choices|
    requires ChoiceReadUpTo(cfg, env, written, i, s, c)
    ensures ChoiceReadUpTo(cfg, env, written, i + 1, if i in written then AfterLine(cfg, env, s, i) else s, c)
  {
    hide ValidValue, Lookup, NameOK;
    var s' := if i in written then AfterLine(cfg, env, s, i) else s;
    if i in written {
      assert SymWritable(cfg, env, i);
    }
    if Nonzero(cfg, env, written, c, i) {
      assert s' == AssignSym(cfg.Sym(i),
        State(s.user.(mode := s.user.mode[c := env(TriV(i)).t]), s.flags + {C(c)}), i, UTri(env(TriV(i)).t));
      assert C(c) in s'.flags && ModeOf(s'.user, c) == Some(env(TriV(i)).t);
    } else {
      assert C(c) in s'.flags <==> C(c) in s.flags;
      assert ModeOf(s'.user, c) == ModeOf(s.user, c) && SelectionOf(s'.user, c) == SelectionOf(s.user, c);
    }
  }

  lemma {:induction false} ReadLines(cfg: Config, st: State, env: Env, written: set<nat>, n: nat)
    requires ConfigOK(cfg) && UserOK(cfg, st.user) && Writable(cfg, env, written) && n <= |cfg.syms|
    requires forall x :: x in st.flags ==> !Replaceable(cfg, x)
    ensures ReadUpTo(cfg, env, written, n, LoadLines(cfg, st, LinesFor(cfg, env, written, n)))
  {
    hide LoadLine, UserOK, ConfigString, Writable, AfterLine, ConfigOK, ReadUpTo, Replaceable;
    if n == 0 {
      ReadNothing(cfg, st, env, written);
    } else {
      var i, before := n - 1, LinesFor(cfg, env, written, n - 1);
      ReadLines(cfg, st, env, written, i);
      var s := LoadLines(cfg, st, before);
      LoadLinesOK(cfg, st, before);
      if i in written {
        ReadLine(cfg, s, env, written, i);
        var lines := LinesFor(cfg, env, written, n);
        assert lines[..|lines| - 1] == before;
      } else {
        assert LinesFor(cfg, env, written, n) == before;
      }
      ReadNext(cfg, env, written, s, i);
    }
  }

  lemma ReadNext(cfg: Config, env: Env, written: set<nat>, s: State, i: nat)
    requires Writable(cfg, env, written) && ReadUpTo(cfg, env, written, i, s)
    ensures ReadUpTo(cfg, env, written, i + 1, if i in written then AfterLine(cfg, env, s, i) else s)
  {
    hide SymsReadUpTo, ChoiceReadUpTo, AfterLine, Writable;
    var n, s' := i + 1, if i in written then AfterLine(cfg, env, s, i) else s;
    SymsAfterLine(cfg, env, written, s, i);
    forall c: nat | c < |cfg.choices|
      ensures ChoiceReadUpTo(cfg, env, written, n, s', c)
    {
      ChoiceAfterLine(cfg, env, written, s, i, c);
    }
  }

  lemma ReadNothing(cfg: Config, st: State, env: Env, written: set<nat>)
    requires forall x :: x in st.flags ==> !Replaceable(cfg, x)
    ensures ReadUpTo(cfg, env, written, 0, st)
  {
    hide Stored, Nonzero;
    forall i: nat | cfg.Sym(i).defined
      ensures S(i) !in st.flags
    {
      assert Replaceable(cfg, S(i));
    }
    forall c: nat | c < |cfg.choices|
      ensures C(c) !in st.flags
    {
      assert Replaceable(cfg, C(c));
    }
  }

  // ---------- The result of a replacing load ----------

  /** The user state after reading back: the written symbols have their stored value and no
      other symbol has one, and each choice has the mode and selection its members imply. (The
      selection does not matter in m mode.) */
  ghost predicate IsReadBack(cfg: Config, env: Env, written: set<nat>, u: User) {
    && (forall i: nat :: cfg.Sym(i).defined ==>
          UserOf(u, i) == if i in written then Stored(cfg, env, i) else None)
    && (forall c: nat :: c < |cfg.choices| ==> ChoiceReadBack(cfg, env, written, u, c))
  }

  ghost predicate ChoiceReadBack(cfg: Config, env: Env, written: set<nat>, u: User, c: nat) {
    && ((forall i: nat :: !Nonzero(cfg, env, written, c, i)) ==> ModeOf(u, c) == None && SelectionOf(u, c) == None)
    && (forall i: nat :: Nonzero(cfg, env, written, c, i) ==>
          && ModeOf(u, c) == Some(env(TriV(i)).t)
          && (env(TriV(i)).t == 2 ==> SelectionOf(u, c) == Some(i)))
  }

  lemma ReadBackLines(cfg: Config, st: State, env: Env, written: set<nat>)
    requires ConfigOK(cfg) && UserOK(cfg, st.user) && Writable(cfg, env, written)
    ensures IsReadBack(cfg, env, written,
                       LoadConfig(cfg, st, LinesFor(cfg, env, written, |cfg.syms|), true).user)
  {
    hide LoadLines, ConfigOK, UserOK, SymWritable;
    var n := |cfg.syms|;
    var s := LoadLines(cfg, ClearFlags(cfg, st), LinesFor(cfg, env, written, n));
    ReadLines(cfg, ClearFlags(cfg, st), env, written, n);
    hide Stored, Writable;
    InRange(cfg, env, written);
    DropUnread(cfg, env, written, s);
  }

  lemma InRange(cfg: Config, env: Env, written: set<nat>)
    requires Writable(cfg, env, written)
    ensures forall i :: i in written ==> i < |cfg.syms|
  {
    hide Lookup, NameOK;
    forall i | i in written
      ensures i < |cfg.syms|
    {
      assert SymWritable(cfg, env, i);
    }
  }

  lemma DropUnread(cfg: Config, env: Env, written: set<nat>, s: State)
    requires ReadUpTo(cfg, env, written, |cfg.syms|, s)
    requires forall i :: i in written ==> i < |cfg.syms|
    ensures IsReadBack(cfg, env, written, UnsetUnflagged(cfg, s).user)
  {
    hide Stored;
    var u := UnsetUnflagged(cfg, s).user;
    forall i: nat | cfg.Sym(i).defined
      ensures UserOf(u, i) == if i in written then Stored(cfg, env, i) else None
    {
    }
    forall c: nat | c < |cfg.choices|
      ensures ChoiceReadBack(cfg, env, written, u, c)
    {
      assert ChoiceReadUpTo(cfg, env, written, |cfg.syms|, s, c);
      assert forall i: nat :: Nonzero(cfg, env, written, c, i) ==> i < |cfg.syms|;
      if C(c) in s.flags {
        assert ModeOf(u, c) == ModeOf(s.user, c) && SelectionOf(u, c) == SelectionOf(s.user, c);
      }
    }
  }
}
