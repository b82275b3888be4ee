/** Which symbols the configuration, the minimal configuration and the record of the last build
    contain, in terms of values and conditions. */
module Outputs {
  import opened Types
  import opened Numbers
  import opened Semantics
  import opened Evaluation
  import opened Caching
  import opened ConfigText
  import opened Choices
  import opened FullConfig
  import opened MinConfig
  import opened SyncDeps
  import opened Meaning

  // ---------- The configuration ----------

  /** What is written are the defined symbols whose value is flagged to be written. */
  lemma WrittenSymbols(cfg: Config, u: User, i: nat)
    requires Acyclic(cfg)
    ensures i in Written(cfg, u) <==> i < |cfg.syms| && cfg.syms[i].defined && Eval(cfg, u, StrV(i)).w
  {
    hide Eval, Acyclic;
  }

  // ---------- The minimal configuration ----------

  /** most is the largest of the three. */
  predicate IsLargest(most: Tri, a: Tri, b: Tri, c: Tri) {
    most >= a && most >= b && most >= c && (most == a || most == b || most == c)
  }

  /** v is the value of a symbol without its user value: the largest of what the defaults, an imply
      and a select give, where a symbol without m has y instead. Dependencies do not matter. */
  ghost predicate IsPlainDefault(cfg: Config, u: User, i: nat, v: Tri)
    requires Acyclic(cfg)
  {
    var d := cfg.Sym(i);
    exists def: Tri, most: Tri ::
      && IsDefault(cfg, u, d.defaults, def)
      && IsLargest(most, def, Value(cfg, u, d.weakRevDep), Value(cfg, u, d.revDep))
      && v == if most == 1 && !HasM(cfg, u, d.typ) then 2 else most
  }

  /** s is the text of the symbol without its user value: n for choice symbols, and for strings
      and numbers what the defaults give, which is not limited to a range. */
  ghost predicate IsUnsetText(cfg: Config, u: User, i: nat, s: string)
    requires Acyclic(cfg)
  {
    var d := cfg.Sym(i);
    if d.typ == UNKNOWN then s == ""
    else if !IsBoolTri(d.typ) then IsDefaultText(cfg, u, d.defaults, s)
    else if d.choice.Some? then s == "n"
    else if s == "n" then IsPlainDefault(cfg, u, i, 0)
    else if s == "m" then IsPlainDefault(cfg, u, i, 1)
    else s == "y" && IsPlainDefault(cfg, u, i, 2)
  }

  /** Symbol i is what the choice has selected without its user selection: the symbol of the first
      default with a met condition and a visible symbol, or else the first visible symbol. */
  ghost predicate IsUnsetSelection(cfg: Config, u: User, d: ChoiceDef, i: nat)
    requires Acyclic(cfg)
  {
    if exists k :: 0 <= k < |d.defaults| && Usable(cfg, u, d.defaults[k]) then
      exists k: nat :: FirstUsable(cfg, u, d.defaults, k) && i == d.defaults[k].sym
    else exists j: nat :: FirstShown(cfg, u, d.syms, j) && i == d.syms[j]
  }

  lemma TriDefaultMeaning(cfg: Config, u: User, i: nat)
    requires Acyclic(cfg) && IsBoolTri(cfg.Sym(i).typ) && cfg.Sym(i).choice.None?
    ensures IsPlainDefault(cfg, u, i, TriDefault(cfg, u, i))
  {
    var d, env := cfg.Sym(i), EnvOf(cfg, u);
    DefaultMeaning(cfg, u, d.defaults);
    PlainType(cfg, u, i);
    hide Eval, ExprVal, DefaultTri, IsDefault, HasM, TypeOf, Acyclic;
    var def := DefaultTri(cfg, u, d.defaults, env);
    var most := Max(Value(cfg, u, d.revDep), Max(Value(cfg, u, d.weakRevDep), def));
    assert IsLargest(most, def, Value(cfg, u, d.weakRevDep), Value(cfg, u, d.revDep));
  }

  lemma PlainType(cfg: Config, u: User, i: nat)
    requires Acyclic(cfg) && IsBoolTri(cfg.Sym(i).typ) && cfg.Sym(i).choice.None?
    ensures TypeOf(cfg, u, i, EnvOf(cfg, u)) == BOOL <==> !HasM(cfg, u, cfg.Sym(i).typ)
  {
    hide Eval;
  }

  lemma StrDefaultMeaning(cfg: Config, u: User, i: nat)
    requires Acyclic(cfg)
    ensures IsUnsetText(cfg, u, i, StrDefault(cfg, u, i))
  {
    var d := cfg.Sym(i);
    assert "n" != "m" && "n" != "y" && "m" != "y";
    DefaultTextMeaning(cfg, u, d.defaults);
    if IsBoolTri(d.typ) && d.choice.None? {
      TriDefaultMeaning(cfg, u, i);
    }
    hide Eval, DefaultText, IsDefaultText, TriDefault, IsPlainDefault, Acyclic, HasDefault, NoneMet;
  }

  lemma UnsetSelectionMeaning(cfg: Config, u: User, c: nat, i: nat)
    requires Acyclic(cfg)
    ensures var d := cfg.Choice(c);
            SelectionFromDefaults(cfg, u, d.defaults, d.syms, EnvOf(cfg, u)) == Some(i) <==>
            IsUnsetSelection(cfg, u, d, i)
  {
    var d := cfg.Choice(c);
    DefaultSelectionMeaning(cfg, u, d.defaults, d.syms);
    FirstVisibleMeaning(cfg, u, d.syms);
    hide Eval, Usable, IsVisible, SelectionFromDefaults, FirstVisible, Acyclic, FirstUsable, FirstShown;
    forall j: nat, k: nat | FirstUsable(cfg, u, d.defaults, j) && FirstUsable(cfg, u, d.defaults, k)
      ensures j == k
    {
      FirstUsableUnique(cfg, u, d.defaults, j, k);
    }
    forall j: nat, k: nat | FirstShown(cfg, u, d.syms, j) && FirstShown(cfg, u, d.syms, k)
      ensures j == k
    {
      FirstShownUnique(cfg, u, d.syms, j, k);
    }
  }

  lemma FirstUsableUnique(cfg: Config, u: User, ds: seq<ChoiceDefault>, j: nat, k: nat)
    requires Acyclic(cfg) && FirstUsable(cfg, u, ds, j) && FirstUsable(cfg, u, ds, k)
    ensures j == k
  {
    hide Usable;
  }

  lemma FirstShownUnique(cfg: Config, u: User, ss: seq<nat>, j: nat, k: nat)
    requires Acyclic(cfg) && FirstShown(cfg, u, ss, j) && FirstShown(cfg, u, ss, k)
    ensures j == k
  {
    hide IsVisible;
  }

  lemma FirstMetUnique(cfg: Config, u: User, conds: seq<Expr>, j: nat, k: nat)
    requires Acyclic(cfg) && FirstMet(cfg, u, conds, j) && FirstMet(cfg, u, conds, k)
    ensures j == k
  {
    hide Value;
  }

  lemma DefaultTextUnique(cfg: Config, u: User, ds: seq<Default>, s: string, t: string)
    requires Acyclic(cfg) && IsDefaultText(cfg, u, ds, s) && IsDefaultText(cfg, u, ds, t)
    ensures s == t
  {
    hide Eval, ExprVal, NoneMet;
    if !NoneMet(cfg, u, DefaultConds(ds)) {
      var j: nat :| FirstMet(cfg, u, DefaultConds(ds), j)
        && s == if ds[j].value.SymE? then Eval(cfg, u, StrV(ds[j].value.s)).s else "";
      var k: nat :| FirstMet(cfg, u, DefaultConds(ds), k)
        && t == if ds[k].value.SymE? then Eval(cfg, u, StrV(ds[k].value.s)).s else "";
      FirstMetUnique(cfg, u, DefaultConds(ds), j, k);
    }
  }

  lemma PlainDefaultUnique(cfg: Config, u: User, i: nat, v: Tri, w: Tri)
    requires Acyclic(cfg) && IsPlainDefault(cfg, u, i, v) && IsPlainDefault(cfg, u, i, w)
    ensures v == w
  {
    hide Value, IsDefault, HasM;
    var d := cfg.Sym(i);
    var x: Tri, a: Tri :| IsDefault(cfg, u, d.defaults, x)
      && IsLargest(a, x, Value(cfg, u, d.weakRevDep), Value(cfg, u, d.revDep))
      && v == if a == 1 && !HasM(cfg, u, d.typ) then 2 else a;
    var y: Tri, b: Tri :| IsDefault(cfg, u, d.defaults, y)
      && IsLargest(b, y, Value(cfg, u, d.weakRevDep), Value(cfg, u, d.revDep))
      && w == if b == 1 && !HasM(cfg, u, d.typ) then 2 else b;
    DefaultUnique(cfg, u, d.defaults, x, y);
  }

  /** There is one text without user value. */
  lemma UnsetTextUnique(cfg: Config, u: User, i: nat, s: string, t: string)
    requires Acyclic(cfg) && IsUnsetText(cfg, u, i, s) && IsUnsetText(cfg, u, i, t)
    ensures s == t
  {
    hide IsDefaultText, IsPlainDefault;
    var d := cfg.Sym(i);
    if !IsBoolTri(d.typ) && d.typ != UNKNOWN {
      DefaultTextUnique(cfg, u, d.defaults, s, t);
    } else if IsBoolTri(d.typ) && d.choice.None? {
      var v: Tri := if s == "n" then 0 else if s == "m" then 1 else 2;
      var w: Tri := if t == "n" then 0 else if t == "m" then 1 else 2;
      PlainDefaultUnique(cfg, u, i, v, w);
    }
  }

  /** The minimal configuration leaves out a symbol outside choices that is not more visible than
      its selects; a symbol whose text is that without its user value; and a bool symbol that is
      y and selected by default in a choice that is not optional. */
  lemma MinimalSymbols(cfg: Config, u: User, i: nat)
    requires Acyclic(cfg)
    ensures var d, text := cfg.Sym(i), Eval(cfg, u, StrV(i)).s;
            i in MinWritten(cfg, u) <==>
              && i in Written(cfg, u)
              && !(d.choice.None? && Eval(cfg, u, Vis(i)).t <= Value(cfg, u, d.revDep))
              && !IsUnsetText(cfg, u, i, text)
              && !(d.choice.Some? && !cfg.Choice(d.choice.value).isOptional && d.typ == BOOL &&
                   Eval(cfg, u, TriV(i)).t == 2 && IsUnsetSelection(cfg, u, cfg.Choice(d.choice.value), i))
  {
    var d, text := cfg.Sym(i), Eval(cfg, u, StrV(i)).s;
    StrDefaultMeaning(cfg, u, i);
    if IsUnsetText(cfg, u, i, text) {
      UnsetTextUnique(cfg, u, i, text, StrDefault(cfg, u, i));
    }
    if d.choice.Some? {
      UnsetSelectionMeaning(cfg, u, d.choice.value, i);
    }
    hide Eval, Acyclic, Written, IsUnsetText, IsUnsetSelection, StrDefault, SelectionFromDefaults, ExprVal;
  }

  // ---------- The record of the last build ----------

  /** The record has the written symbols and their texts, but bool and tristate symbols only if
      they are not n. */
  lemma RecordedValues(cfg: Config, u: User, i: nat)
    requires Acyclic(cfg)
    ensures var d, r := cfg.Sym(i), Record(cfg, u);
            && (i in r <==> i in Written(cfg, u) && (IsBoolTri(d.typ) ==> Eval(cfg, u, TriV(i)).t != 0))
            && (i in r ==> r[i] == Eval(cfg, u, StrV(i)).s)
  {
    hide Eval, Acyclic;
  }

  /** Names without a symbol are remembered. Of several assignments the last one counts. */
  lemma OldNames(cfg: Config, o: OldVals, name: string, val: string, i: nat)
    requires NameOK(name) && '\n' !in val
    ensures (forall j :: 0 <= j < |cfg.syms| && !cfg.syms[j].isConstant ==> cfg.syms[j].name != name) ==>
              OldLine(cfg, o, "CONFIG_" + name + "=" + val) == OldVals(o.vals, o.gone + [name])
    ensures DictionaryOK(cfg) && i < |cfg.syms| && !cfg.syms[i].isConstant && cfg.syms[i].name == name ==>
              var o' := OldLine(cfg, o, "CONFIG_" + name + "=" + val);
              if cfg.syms[i].typ != STRING then o' == OldVals(o.vals[i := val], o.gone)
              else if MatchString(val).Some? then o' == OldVals(o.vals[i := Unescape(MatchString(val).value)], o.gone)
              else o' == o
  {
    MatchSetText(name, val);
    assert SetLine(name, val) == "CONFIG_" + name + "=" + val;
    if DictionaryOK(cfg) && i < |cfg.syms| && !cfg.syms[i].isConstant && cfg.syms[i].name == name {
      LookupAnyFinds(cfg.syms, i);
    }
    hide MatchSet, MatchString, Unescape, NameOK, LookupAny;
  }
}
