/** What assignments do to the user state, as functions. */
module Updates {
  import opened Types
  import opened Semantics
  import opened Evaluation
  import opened Caching

  /** The user state with the _was_set flags. */
  datatype State = State(user: User, flags: set<Ref>)

  /** "n", "m" and "y" stand for 0, 1 and 2. */
  function TriOfStr(v: UVal): UVal {
    if v == UStr("n") then UTri(0)
    else if v == UStr("m") then UTri(1)
    else if v == UStr("y") then UTri(2)
    else v
  }

  function Normalize(t: SType, v: UVal): UVal {
    if IsBoolTri(t) then TriOfStr(v) else v
  }

  /** The assignment to a choice symbol also selects it if the value is y. */
  function AssignSym(d: SymDef, st: State, i: nat, v: UVal): State {
    var u := st.user.(sym := st.user.sym[i := v]);
    if d.choice.Some? && v == UTri(2) then
      State(u.(selection := u.selection[d.choice.value := i]), st.flags + {S(i), C(d.choice.value)})
    else
      State(u, st.flags + {S(i)})
  }

  /** Symbol.set_value() */
  function SetSym(cfg: Config, st: State, i: nat, v: UVal): State {
    var d := cfg.Sym(i);
    var value := Normalize(d.typ, v);
    if UserOf(st.user, i) == Some(value) && d.choice.None? then st.(flags := st.flags + {S(i)})
    else if !ValidValue(d.typ, value) then st
    else AssignSym(d, st, i, value)
  }

  /** What Symbol.set_value() returns. */
  predicate AcceptsSym(cfg: Config, i: nat, v: UVal) {
    ValidValue(cfg.Sym(i).typ, Normalize(cfg.Sym(i).typ, v))
  }

  /** Choice.set_value() */
  function SetChoice(cfg: Config, st: State, c: nat, v: UVal): State {
    var value := TriOfStr(v);
    if AcceptsChoice(cfg, c, v) then
      State(st.user.(mode := st.user.mode[c := value.t]), st.flags + {C(c)})
    else st
  }

  predicate AcceptsChoice(cfg: Config, c: nat, v: UVal) {
    var value := TriOfStr(v);
    value.UTri? && ValidValue(cfg.Choice(c).typ, value)
  }

  /** Symbol.unset_value() */
  function UnsetSym(st: State, i: nat): State {
    st.(user := st.user.(sym := st.user.sym - {i}))
  }

  /** Choice.unset_value() */
  function UnsetChoice(st: State, c: nat): State {
    st.(user := st.user.(mode := st.user.mode - {c}, selection := st.user.selection - {c}))
  }

  lemma AssignSymOK(cfg: Config, st: State, i: nat, value: UVal)
    requires ConfigOK(cfg) && UserOK(cfg, st.user) && i < |cfg.syms|
    requires ValidValue(cfg.syms[i].typ, value)
    ensures UserOK(cfg, AssignSym(cfg.syms[i], st, i, value).user)
  {
    assert SymOK(cfg, i);
  }

  lemma SetSymOK(cfg: Config, st: State, i: nat, v: UVal)
    requires ConfigOK(cfg) && UserOK(cfg, st.user) && i < |cfg.syms|
    ensures UserOK(cfg, SetSym(cfg, st, i, v).user)
  {
    assert SymOK(cfg, i);
  }

  lemma SetChoiceOK(cfg: Config, st: State, c: nat, v: UVal)
    requires UserOK(cfg, st.user) && c < |cfg.choices|
    ensures UserOK(cfg, SetChoice(cfg, st, c, v).user)
  {
  }

  lemma ModeAccepted(cfg: Config, u: User, c: nat)
    requires UserOK(cfg, u) && c in u.mode
    ensures AcceptsChoice(cfg, c, UTri(u.mode[c]))
  {
  }

  lemma UnsetOK(cfg: Config, st: State, i: nat)
    requires UserOK(cfg, st.user)
    ensures UserOK(cfg, UnsetSym(st, i).user)
  {
  }

  lemma UnsetChoiceOK(cfg: Config, st: State, c: nat)
    requires UserOK(cfg, st.user)
    ensures UserOK(cfg, UnsetChoice(st, c).user)
  {
  }
}
