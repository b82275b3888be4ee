/** Reading and writing configuration files on the engine's objects. */
module ConfigIO {
  import opened Types
  import opened Numbers
  import opened Semantics
  import opened Evaluation
  import opened Caching
  import opened Updates
  import opened ConfigText
  import opened ConfigFile
  import opened ReadBack
  import opened FullConfig
  import opened MinConfig
  import opened Engine

  // ---------- Loading ----------

  /** The assignment of n, m or y in a file, with the mode of the choice. */
  method SetTri(k: Kconfig, i: nat, text: string)
    requires k.Valid() && i < |k.cfg.syms|
    modifies k`user, k`flags, k`cache, k.syms, k.choices
    ensures k.Valid() && k.St() == SetTriText(k.cfg, old(k.St()), i, text)
  {
    hide SetSym, SetChoice, k.Valid;
    k.SymFields(i);
    ChoiceInRange(k, i);
    var c := k.cfg.syms[i].choice;
    var ok;
    if c.Some? && text != "n" {
      ok := k.SetChoiceValue(c.value, UStr(text));
    }
    ok := k.SetValue(i, UStr(text));
  }

  lemma ChoiceInRange(k: Kconfig, i: nat)
    requires k.Valid() && i < |k.cfg.syms|
    ensures k.cfg.syms[i].choice.Some? ==> k.cfg.syms[i].choice.value < |k.cfg.choices|
  {
    assert SymOK(k.cfg, i);
  }

  /** What _load_config() does with one line. */
  method ReadLine(k: Kconfig, rawLine: string)
    requires k.Valid()
    modifies k`user, k`flags, k`cache, k.syms, k.choices
    ensures k.Valid() && k.St() == LoadLine(k.cfg, old(k.St()), rawLine)
  {
    hide SetTriText, SetSym, MatchSet, MatchUnset, MatchString, StripRight, Unescape, k.Valid;
    var line := StripRight(rawLine);
    var setting := MatchSet(line);
    if setting.Some? {
      var (name, val) := setting.value;
      var i := Lookup(k.cfg.syms, name);
      if i.None? {
        return;
      }
      var t := k.cfg.syms[i.value].typ;
      if IsBoolTri(t) {
        if ValidTriText(t, val) {
          SetTri(k, i.value, [val[0]]);
        }
        return;
      }
      var value := val;
      if t == STRING {
        var group := MatchString(val);
        if group.None? {
          return;
        }
        value := Unescape(group.value);
      }
      var ok := k.SetValue(i.value, UStr(value));
    } else {
      var name := MatchUnset(line);
      if name.None? {
        return;
      }
      var i := Lookup(k.cfg.syms, name.value);
      if i.Some? && IsBoolTri(k.cfg.syms[i.value].typ) {
        SetTri(k, i.value, "n");
      }
    }
  }

  /** Is x among the first i symbols or the first c choices, and can it be replaced? */
  predicate Done(cfg: Config, x: Ref, i: nat, c: nat) {
    match x
    case S(j) => j < i && cfg.Sym(j).defined
    case C(d) => d < c
  }

  method ClearWasSet(k: Kconfig)
    requires k.Valid()
    modifies k`flags, k.syms`wasSet, k.choices`wasSet
    ensures k.Valid() && k.St() == ClearFlags(k.cfg, old(k.St()))
  {
    hide k.Valid;
    k.Basics();
    ghost var before := k.flags;
    var i := 0;
    while i < |k.cfg.syms|
      invariant 0 <= i <= |k.cfg.syms| && k.Valid()
      invariant k.flags == set x | x in before && !Done(k.cfg, x, i, 0)
    {
      if k.cfg.syms[i].defined {
        k.MarkSet(S(i), false);
      }
      i := i + 1;
    }
    var c := 0;
    while c < |k.cfg.choices|
      invariant 0 <= c <= |k.cfg.choices| && k.Valid()
      invariant k.flags == set x | x in before && !Done(k.cfg, x, i, c)
    {
      k.MarkSet(C(c), false);
      c := c + 1;
    }
  }

  /** Dropping the user values of the unflagged items among the first i symbols and the first
      c choices. */
  ghost function DroppedUpTo(cfg: Config, st: State, i: nat, c: nat): State {
    var u := st.user;
    st.(user := User(
      map j | j in u.sym && !(Done(cfg, S(j), i, c) && S(j) !in st.flags) :: u.sym[j],
      map d | d in u.mode && !(Done(cfg, C(d), i, c) && C(d) !in st.flags) :: u.mode[d],
      map d | d in u.selection && !(Done(cfg, C(d), i, c) && C(d) !in st.flags) :: u.selection[d]))
  }

  lemma DroppedNothing(cfg: Config, st: State)
    ensures DroppedUpTo(cfg, st, 0, 0) == st
  {
    var u := DroppedUpTo(cfg, st, 0, 0).user;
    assert u.sym == st.user.sym && u.mode == st.user.mode && u.selection == st.user.selection;
  }

  lemma DroppedSym(cfg: Config, st: State, i: nat)
    ensures DroppedUpTo(cfg, st, i + 1, 0) ==
            if cfg.Sym(i).defined && S(i) !in st.flags then UnsetSym(DroppedUpTo(cfg, st, i, 0), i)
            else DroppedUpTo(cfg, st, i, 0)
  {
  }

  lemma DroppedChoice(cfg: Config, st: State, i: nat, c: nat)
    ensures DroppedUpTo(cfg, st, i, c + 1) ==
            if C(c) !in st.flags then UnsetChoice(DroppedUpTo(cfg, st, i, c), c) else DroppedUpTo(cfg, st, i, c)
  {
  }

  lemma DroppedAll(cfg: Config, st: State)
    ensures DroppedUpTo(cfg, st, |cfg.syms|, |cfg.choices|) == UnsetUnflagged(cfg, st)
  {
  }

  method WasSet(k: Kconfig, x: Ref) returns (b: bool)
    requires k.Valid() && ItemInRange(k.cfg, x)
    ensures b <==> x in k.flags
  {
    match x {
      case S(i) => b := k.syms[i].wasSet;
      case C(c) => b := k.choices[c].wasSet;
    }
  }

  method DropUnset(k: Kconfig)
    requires k.Valid()
    modifies k`user, k`cache, k.syms, k.choices
    ensures k.Valid() && k.St() == UnsetUnflagged(k.cfg, old(k.St()))
  {
    hide k.Valid, DroppedUpTo, UnsetSym, UnsetChoice, UnsetUnflagged;
    k.Basics();
    ghost var st := k.St();
    DroppedNothing(k.cfg, st);
    var i := 0;
    while i < |k.cfg.syms|
      invariant 0 <= i <= |k.cfg.syms| && k.Valid()
      invariant k.St() == DroppedUpTo(k.cfg, st, i, 0) && k.flags == st.flags
    {
      DroppedSym(k.cfg, st, i);
      if k.cfg.syms[i].defined {
        var wasSet := WasSet(k, S(i));
        if !wasSet {
          k.UnsetValue(i);
        }
      }
      i := i + 1;
    }
    var c := 0;
    while c < |k.cfg.choices|
      invariant 0 <= c <= |k.cfg.choices| && k.Valid()
      invariant k.St() == DroppedUpTo(k.cfg, st, |k.cfg.syms|, c) && k.flags == st.flags
    {
      DroppedChoice(k.cfg, st, |k.cfg.syms|, c);
      var wasSet := WasSet(k, C(c));
      if !wasSet {
        k.UnsetChoiceValue(c);
      }
      c := c + 1;
    }
    DroppedAll(k.cfg, st);
  }

  /** Kconfig._load_config() */
  method LoadFile(k: Kconfig, lines: seq<string>, replace: bool)
    requires k.Valid()
    modifies k`user, k`flags, k`cache, k.syms, k.choices
    ensures k.Valid() && k.St() == LoadConfig(k.cfg, old(k.St()), lines, replace)
  {
    hide k.Valid, LoadLine, ClearFlags, UnsetUnflagged;
    if replace {
      ClearWasSet(k);
    }
    ghost var st := k.St();
    var n := 0;
    while n < |lines|
      invariant 0 <= n <= |lines| && k.Valid()
      invariant k.St() == LoadLines(k.cfg, st, lines[..n])
    {
      assert lines[..n + 1][..n] == lines[..n];
      ReadLine(k, lines[n]);
      n := n + 1;
    }
    assert lines[..n] == lines;
    if replace {
      DropUnset(k);
    }
  }

  /** Unsetting every value on the objects is the clearing that replacing is compared with. */
  lemma Cleared(cfg: Config, before: State, u: User)
    requires forall i :: cfg.Sym(i).defined ==> i !in u.sym
    requires forall i :: !cfg.Sym(i).defined ==> UserOf(u, i) == UserOf(before.user, i)
    requires u.mode == map[] && u.selection == map[]
    ensures u == UnsetAll(cfg, before).user
  {
    var v := UnsetAll(cfg, before).user;
    forall i: nat
      ensures UserOf(u, i) == UserOf(v, i)
    {
    }
    assert forall i :: i in u.sym ==> UserOf(u, i) == Some(u.sym[i]);
    assert forall i :: i in v.sym ==> UserOf(v, i) == Some(v.sym[i]);
  }

  /** unset_values() and a merging load: the other side of the comparison with a replacing load,
      which gives the same user values, modes and selections exactly if no old selection is kept. */
  method ClearAndMerge(k: Kconfig, lines: seq<string>)
    requires k.Valid()
    modifies k`user, k`flags, k`cache, k.syms, k.choices
    ensures k.Valid() && k.user == LoadLines(k.cfg, UnsetAll(k.cfg, old(k.St())), lines).user
    ensures LoadConfig(k.cfg, old(k.St()), lines, true).user == k.user <==>
            forall c :: c in old(k.user).selection ==> !KeepsOldSelection(k.cfg, lines, c)
  {
    hide k.Valid, UnsetAll, LoadConfig, LoadLines, KeepsOldSelection;
    k.Parts();
    ghost var before := k.St();
    k.UnsetValues();
    Cleared(k.cfg, before, k.user);
    ghost var cleared := k.St();
    LoadFile(k, lines, false);
    assert k.St() == LoadLines(k.cfg, cleared, lines) by { MergeIsLines(k.cfg, cleared, lines); }
    LoadLinesUser(k.cfg, cleared, UnsetAll(k.cfg, before), lines);
    ReplaceIsClearThenMerge(k.cfg, before, lines);
  }

  lemma MergeIsLines(cfg: Config, st: State, lines: seq<string>)
    ensures LoadConfig(cfg, st, lines, false) == LoadLines(cfg, st, lines)
  {
  }

  // ---------- Writing ----------

  /** The symbol lines of _config_contents(). */
  method WriteFile(k: Kconfig) returns (lines: seq<string>)
    requires k.Valid()
    modifies k`cache, k.syms, k.choices
    ensures k.Valid() && Acyclic(k.cfg) && lines == ConfigLines(k.cfg, k.user)
  {
    hide k.Valid, ConfigString, Eval;
    k.Basics();
    lines := [];
    var i := 0;
    while i < |k.cfg.syms|
      invariant 0 <= i <= |k.cfg.syms| && k.Valid()
      invariant lines == LinesFor(k.cfg, EnvOf(k.cfg, k.user), Written(k.cfg, k.user), i)
    {
      if k.cfg.syms[i].defined {
        var val, write := k.WrittenValue(i);
        if write {
          lines := lines + [ConfigString(k.cfg.syms[i], val)];
        }
      }
      i := i + 1;
    }
  }

  /** A bound on the rank of what an expression mentions. */
  ghost function RankBound(cfg: Config, e: Expr): nat
    requires Acyclic(cfg)
  {
    var rank := Rank(cfg);
    match e
    case SymE(s) => rank(TriV(s)) + 1
    case ChoiceE(c) => rank(CVis(c)) + rank(TriV(cfg.modules)) + 1
    case And(l, r) => RankBound(cfg, l) + RankBound(cfg, r)
    case Or(l, r) => RankBound(cfg, l) + RankBound(cfg, r)
    case Not(e1) => RankBound(cfg, e1)
    case Rel(_, a, b) => rank(TriV(a)) + rank(StrV(a)) + rank(TriV(b)) + rank(StrV(b)) + 1
  }

  lemma {:induction false} BelowBound(cfg: Config, e: Expr, b: Attr)
    requires Acyclic(cfg) && b in ExprAttrs(cfg, e)
    ensures Rank(cfg)(b) < RankBound(cfg, e)
  {
    hide Acyclic;
    if e.And? || e.Or? {
      if b in ExprAttrs(cfg, e.l) {
        BelowBound(cfg, e.l, b);
      } else {
        BelowBound(cfg, e.r, b);
      }
    } else if e.Not? {
      BelowBound(cfg, e.e, b);
    }
  }

  lemma BoundedExpr(k: Kconfig, e: Expr)
    requires k.Valid() && forall x :: x in ExprItems(e) ==> ItemInRange(k.cfg, x)
    ensures Acyclic(k.cfg) && k.Below(e, RankBound(k.cfg, e))
  {
    hide k.Valid, RankBound;
    k.Basics();
    forall b | b in ExprAttrs(k.cfg, e)
      ensures Rank(k.cfg)(b) < RankBound(k.cfg, e)
    {
      BelowBound(k.cfg, e, b);
    }
  }

  lemma PropertiesInRange(k: Kconfig, i: nat)
    requires k.Valid() && i < |k.cfg.syms| && k.cfg.syms[i].defined
    ensures forall x :: x in ExprItems(k.cfg.syms[i].revDep) ==> ItemInRange(k.cfg, x)
    ensures k.cfg.syms[i].constTri.None?
    ensures k.cfg.syms[i].choice.Some? ==> k.cfg.syms[i].choice.value < |k.cfg.choices|
  {
    assert SymOK(k.cfg, i);
    assert ExprItems(k.cfg.syms[i].revDep) <= ItemsOf(k.cfg, S(i));
  }

  /** Symbol._str_default() of a bool or tristate symbol outside choices. */
  method DefaultOfTri(k: Kconfig, i: nat) returns (val: Tri)
    requires k.Valid() && i < |k.cfg.syms| && k.cfg.syms[i].defined
    requires IsBoolTri(k.cfg.syms[i].typ) && k.cfg.syms[i].choice.None?
    modifies k`cache, k.syms, k.choices
    ensures k.Valid() && Acyclic(k.cfg) && val == TriDefault(k.cfg, k.user, i)
  {
    hide k.Valid, Eval, ExprVal, DefaultTri, TypeOf, k.Below;
    k.Basics();
    PropertiesInRange(k, i);
    k.TriBelow(i);
    var d := k.cfg.syms[i];
    ghost var bound := Rank(k.cfg)(TriV(i));
    var def := k.DefaultTriValue(d.defaults, bound);
    var rev := k.ExprValue(d.revDep, bound);
    var weak := k.ExprValue(d.weakRevDep, bound);
    val := Max(rev, Max(weak, def));
    if val == 1 {
      var t := k.TypeValue(i, bound);
      if t == BOOL {
        val := 2;
      }
    }
  }

  /** Symbol._str_default() */
  method DefaultString(k: Kconfig, i: nat) returns (val: string)
    requires k.Valid() && i < |k.cfg.syms| && k.cfg.syms[i].defined
    modifies k`cache, k.syms, k.choices
    ensures k.Valid() && Acyclic(k.cfg) && val == StrDefault(k.cfg, k.user, i)
  {
    hide k.Valid, Eval, DefaultText, TriDefault;
    k.Basics();
    var d := k.cfg.syms[i];
    if IsBoolTri(d.typ) {
      if d.choice.Some? {
        return "n";
      }
      var t := DefaultOfTri(k, i);
      return TriStr(t);
    }
    if d.typ == UNKNOWN {
      return "";
    }
    var hasDefault;
    val, hasDefault := k.DefaultTextValue(i);
  }

  /** The tests of _min_config_contents(). */
  method IsOmitted(k: Kconfig, i: nat) returns (omit: bool)
    requires k.Valid() && i < |k.cfg.syms| && k.cfg.syms[i].defined
    modifies k`cache, k.syms, k.choices
    ensures k.Valid() && Acyclic(k.cfg) && omit == Omitted(k.cfg, k.user, i)
  {
    hide k.Valid, Eval, StrDefault, SelectionFromDefaults, ExprVal, k.Below;
    k.Basics();
    PropertiesInRange(k, i);
    var d := k.cfg.syms[i];
    if d.choice.None? {
      var vis := k.Visibility(i);
      BoundedExpr(k, d.revDep);
      var rev := k.ExprValue(d.revDep, RankBound(k.cfg, d.revDep));
      if vis <= rev {
        return true;
      }
    }
    var val := k.StrValue(i);
    var default_ := DefaultString(k, i);
    if val == default_ {
      return true;
    }
    if d.choice.Some? && !k.cfg.choices[d.choice.value].isOptional {
      var sel := k.SelectionFromDefaultsValue(d.choice.value);
      if sel == Some(i) && d.typ == BOOL {
        var t := k.TriValue(i);
        return t == 2;
      }
    }
    return false;
  }

  /** The symbol lines of _min_config_contents(). */
  method WriteMinFile(k: Kconfig) returns (lines: seq<string>)
    requires k.Valid()
    modifies k`cache, k.syms, k.choices
    ensures k.Valid() && Acyclic(k.cfg) && lines == MinLines(k.cfg, k.user)
  {
    hide k.Valid, ConfigString, Eval, Omitted;
    k.Basics();
    lines := [];
    var i := 0;
    while i < |k.cfg.syms|
      invariant 0 <= i <= |k.cfg.syms| && k.Valid()
      invariant lines == LinesFor(k.cfg, EnvOf(k.cfg, k.user), MinWritten(k.cfg, k.user), i)
    {
      if k.cfg.syms[i].defined {
        var omit := IsOmitted(k, i);
        if !omit {
          var val, write := k.WrittenValue(i);
          if write {
            lines := lines + [ConfigString(k.cfg.syms[i], val)];
          }
        }
      }
      i := i + 1;
    }
  }

  // ---------- Saving and loading again ----------

  /** Saving the configuration, changing it, and loading the file again restores all values if
      nothing that is lost in the file matters. */
  method SaveAndRestore(k: Kconfig, changes: seq<string>, minimal: bool)
    requires k.Valid() && PlainConfig(k.cfg) && Propagated(k.cfg)
    requires Acyclic(k.cfg) && OneLiners(k.cfg, k.user)
    modifies k`user, k`flags, k`cache, k.syms, k.choices
    ensures k.Valid() && Acyclic(k.cfg)
    ensures SameConfig(k.cfg, old(k.user), k.user) <==>
            if minimal then MinAllKept(k.cfg, old(k.user)) else AllKept(k.cfg, old(k.user))
  {
    hide k.Valid, LoadConfig, SameConfig, AllKept, MinAllKept, PlainConfig, Propagated, OneLiners, Eval;
    k.Parts();
    ghost var u := k.user;
    var lines;
    if minimal {
      lines := WriteMinFile(k);
    } else {
      lines := WriteFile(k);
    }
    LoadFile(k, changes, false);
    k.Parts();
    ghost var st := k.St();
    LoadFile(k, lines, true);
    if minimal {
      MinRoundTrip(k.cfg, u, st);
    } else {
      FullRoundTrip(k.cfg, u, st);
    }
  }
}
