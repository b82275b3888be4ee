/** Writing the whole configuration and loading it back: exactly when no value changes. */
module FullConfig {
  import opened Types
  import opened Numbers
  import opened Semantics
  import opened Evaluation
  import opened Caching
  import opened Updates
  import opened ConfigText
  import opened ConfigFile
  import opened ReadBack
  import opened Choices
  import opened Ranges
  import opened UserInput

  /** The symbols that write_config() writes. */
  ghost function Written(cfg: Config, u: User): set<nat>
    requires Acyclic(cfg)
  {
    set i | 0 <= i < |cfg.syms| && cfg.syms[i].defined && Eval(cfg, u, StrV(i)).w
  }

  /** The defined symbols have different names, of the form the tokenizer accepts. */
  predicate NamesOK(cfg: Config) {
    && (forall i :: 0 <= i < |cfg.syms| && cfg.syms[i].defined ==> NameOK(cfg.syms[i].name))
    && (forall i, j :: 0 <= i < j < |cfg.syms| && cfg.syms[i].defined && cfg.syms[j].defined ==>
          cfg.syms[i].name != cfg.syms[j].name)
  }

  /** Choices and their symbols are bool or tristate, the choice limits its symbols, and no
      symbol is excluded from being written. */
  predicate PlainConfig(cfg: Config) {
    && NamesOK(cfg)
    && (forall i :: 0 <= i < |cfg.syms| && cfg.syms[i].defined ==> !cfg.syms[i].neverWritten)
    && (forall c :: 0 <= c < |cfg.choices| ==> TristateChoice(cfg, c) && PromptsInside(cfg, c))
  }

  /** No written value contains a newline. */
  ghost predicate OneLiners(cfg: Config, u: User)
    requires Acyclic(cfg)
  {
    forall i :: i in Written(cfg, u) ==> '\n' !in Eval(cfg, u, StrV(i)).s
  }

  // ---------- What is written can be read back ----------

  lemma {:induction false} LookupFinds(syms: seq<SymDef>, i: nat)
    requires i < |syms| && syms[i].defined
    requires forall j :: 0 <= j < |syms| && j != i && syms[j].defined ==> syms[j].name != syms[i].name
    ensures Lookup(syms, syms[i].name) == Some(i)
  {
    var n := |syms| - 1;
    if i < n {
      assert forall j :: 0 <= j < n ==> syms[..n][j] == syms[j];
      LookupFinds(syms[..n], i);
    }
  }

  lemma BoolTriText(cfg: Config, u: User, i: nat)
    requires ConfigOK(cfg) && UserOK(cfg, u) && IsBoolTri(cfg.Sym(i).typ)
    ensures Eval(cfg, u, StrV(i)).s == TriStr(Eval(cfg, u, TriV(i)).t)
    ensures Eval(cfg, u, StrV(i)).w == Eval(cfg, u, TriV(i)).w
  {
    EvalStep(cfg, u, StrV(i));
  }

  /** A bool symbol never has the value m. */
  lemma BoolIsNotM(cfg: Config, u: User, i: nat)
    requires ConfigOK(cfg) && UserOK(cfg, u) && i < |cfg.syms| && cfg.syms[i].typ == BOOL
    ensures Eval(cfg, u, TriV(i)).t != 1 && Eval(cfg, u, Vis(i)).t != 1
  {
    assert SymOK(cfg, i);
    hide ConfigOK, UserOK, SelectedTri, PromptMax, HiddenByMode, ValidValue, StaticReads;
    Basis(cfg);
    EvalStep(cfg, u, TriV(i));
    EvalStep(cfg, u, Vis(i));
  }

  /** The nonzero members of a choice have the same value, and only one has y. */
  lemma MembersAgree(cfg: Config, u: User, c: nat, i: nat, j: nat)
    requires ConfigOK(cfg) && UserOK(cfg, u) && TristateChoice(cfg, c)
    requires i in cfg.choices[c].syms && j in cfg.choices[c].syms
    requires Eval(cfg, u, TriV(i)).t != 0 && Eval(cfg, u, TriV(j)).t != 0
    ensures Eval(cfg, u, TriV(i)).t == Eval(cfg, u, TriV(j)).t
    ensures Eval(cfg, u, TriV(i)).t == 2 ==> i == j
  {
    ExactlyOneY(cfg, u, c);
  }

  /** The value of a nonzero member is the mode of the choice, which the choice can have. */
  lemma NonzeroIsMode(cfg: Config, u: User, c: nat, i: nat)
    requires ConfigOK(cfg) && UserOK(cfg, u) && TristateChoice(cfg, c) && PromptsInside(cfg, c)
    requires i in cfg.choices[c].syms && Eval(cfg, u, TriV(i)).t != 0
    ensures Mode(cfg, u, c) == Eval(cfg, u, TriV(i)).t
    ensures ValidValue(cfg.choices[c].typ, UTri(Eval(cfg, u, TriV(i)).t))
  {
    YMeansSelected(cfg, u, c, i);
    NoMemberAboveMode(cfg, u, c, i);
    if Mode(cfg, u, c) == 1 {
      MModeNeedsModules(cfg, u, c, EnvOf(cfg, u));
    }
  }

  lemma InChoice(cfg: Config, i: nat, c: nat)
    requires ConfigOK(cfg)
    ensures cfg.Sym(i).choice == Some(c) <==> c < |cfg.choices| && i in cfg.choices[c].syms
  {
    if i < |cfg.syms| {
      assert SymOK(cfg, i);
    }
    if c < |cfg.choices| {
      assert ChoiceOK(cfg, c);
    }
  }

  lemma OneWritable(cfg: Config, u: User, i: nat)
    requires ConfigOK(cfg) && UserOK(cfg, u) && PlainConfig(cfg) && OneLiners(cfg, u)
    requires i in Written(cfg, u)
    ensures SymWritable(cfg, EnvOf(cfg, u), i)
  {
    var d := cfg.syms[i];
    LookupFinds(cfg.syms, i);
    assert SymOK(cfg, i);
    if d.choice.Some? {
      assert TristateChoice(cfg, d.choice.value);
    }
    hide ConfigOK, UserOK, NameOK, Lookup, PlainConfig, TristateChoice, Eval;
    Basis(cfg);
    if d.typ == UNKNOWN {
      NeverUnknown(cfg, u, i);
    }
    if IsBoolTri(d.typ) {
      BoolTriText(cfg, u, i);
      if d.typ == BOOL {
        BoolIsNotM(cfg, u, i);
      }
    }
  }

  lemma NeverUnknown(cfg: Config, u: User, i: nat)
    requires ConfigOK(cfg) && UserOK(cfg, u) && cfg.Sym(i).typ == UNKNOWN
    ensures !Eval(cfg, u, StrV(i)).w
  {
    EvalStep(cfg, u, StrV(i));
  }

  lemma WrittenIsWritable(cfg: Config, u: User, written: set<nat>)
    requires ConfigOK(cfg) && UserOK(cfg, u) && PlainConfig(cfg) && OneLiners(cfg, u)
    requires written <= Written(cfg, u)
    ensures Writable(cfg, EnvOf(cfg, u), written)
  {
    hide Eval, SymWritable, UserOK, OneLiners, ConfigOK, NamesOK, TristateChoice, PromptsInside, ValidValue;
    Basis(cfg);
    var env := EnvOf(cfg, u);
    forall i | i in written
      ensures SymWritable(cfg, env, i)
    {
      OneWritable(cfg, u, i);
    }
    forall i, c | i in written && cfg.Sym(i).choice == Some(c)
      ensures c < |cfg.choices|
      ensures env(TriV(i)).t != 0 ==> ValidValue(cfg.choices[c].typ, UTri(env(TriV(i)).t))
    {
      InChoice(cfg, i, c);
      if env(TriV(i)).t != 0 {
        NonzeroIsMode(cfg, u, c, i);
      }
    }
    forall i: nat, j: nat, c: nat | Nonzero(cfg, env, written, c, i) && Nonzero(cfg, env, written, c, j)
      ensures env(TriV(i)).t == env(TriV(j)).t && (env(TriV(i)).t == 2 ==> i == j)
    {
      InChoice(cfg, i, c);
      InChoice(cfg, j, c);
      MembersAgree(cfg, u, c, i, j);
    }
  }

  // ---------- When the values stay ----------

  const NOTHING := User(map[], map[], map[])

  /** The choice has the mode that its written members show. If they are all n, nothing is
      written about the mode, so it must be the one the choice has without user input. */
  ghost predicate ModeShown(cfg: Config, u: User, written: set<nat>, c: nat)
    requires Acyclic(cfg)
  {
    (forall i :: i in cfg.Choice(c).syms && i in written ==> Eval(cfg, u, TriV(i)).t == 0) ==>
      Mode(cfg, u, c) == ChoiceTri(cfg, NOTHING, c, EnvOf(cfg, u))
  }

  /** An assigned value is cut down to the visibility, unlike a default. A value above the
      visibility only comes back if a select or an imply of y asks for it, or m turns into y. */
  ghost predicate ValueKept(cfg: Config, u: User, i: nat)
    requires Acyclic(cfg)
  {
    var env := EnvOf(cfg, u);
    || Eval(cfg, u, Vis(i)).t == 0
    || Eval(cfg, u, TriV(i)).t <= Eval(cfg, u, Vis(i)).t
    || ExprVal(cfg, u, cfg.Sym(i).revDep, env) == 2
    || PromotesM(cfg, u, i, env)
  }

  /** Trailing blanks are lost when a line is read, unless the number is not accepted anyway
      because it is malformed, or is not used because no number is in the range. */
  ghost predicate NumberKept(cfg: Config, u: User, i: nat)
    requires Acyclic(cfg)
  {
    var s := Eval(cfg, u, StrV(i)).s;
    || Eval(cfg, u, Vis(i)).t == 0
    || StripRight(s) == s
    || !ValidValue(cfg.Sym(i).typ, UStr(s))
    || NoNumberFits(cfg, u, i)
  }

  ghost predicate NoNumberFits(cfg: Config, u: User, i: nat)
    requires Acyclic(cfg)
  {
    var range := RangeInEffect(cfg, u, i);
    range.Some? && range.value.0 > range.value.1
  }

  ghost predicate SymKept(cfg: Config, u: User, i: nat)
    requires Acyclic(cfg)
  {
    var d := cfg.Sym(i);
    && (IsBoolTri(d.typ) && d.choice.None? ==> ValueKept(cfg, u, i))
    && (IsIntHex(d.typ) ==> NumberKept(cfg, u, i))
  }

  /** u2 came from writing the given symbols with their values in u and reading that back. */
  ghost predicate Reloaded(cfg: Config, u: User, written: set<nat>, u2: User) {
    && ConfigOK(cfg) && UserOK(cfg, u) && UserOK(cfg, u2) && PlainConfig(cfg)
    && IsReadBack(cfg, EnvOf(cfg, u), written, u2)
  }

  ghost predicate FullReloaded(cfg: Config, u: User, u2: User) {
    ConfigOK(cfg) && Reloaded(cfg, u, Written(cfg, u), u2)
  }

  /** Visible symbols are written. */
  lemma VisibleIsWritten(cfg: Config, u: User, i: nat)
    requires ConfigOK(cfg) && UserOK(cfg, u) && i < |cfg.syms| && cfg.syms[i].defined
    requires !cfg.syms[i].neverWritten && cfg.syms[i].typ != UNKNOWN
    requires Eval(cfg, u, Vis(i)).t != 0
    ensures i in Written(cfg, u)
  {
    assert SymOK(cfg, i);
    hide ConfigOK, UserOK, DefaultTri, ExprVal, DefaultText, HasDefault, ActiveRange, PromotesM, NumOrZero;
    Basis(cfg);
    EvalStep(cfg, u, StrV(i));
    EvalStep(cfg, u, TriV(i));
  }

  /** A nonzero member is written. */
  lemma NonzeroIsWritten(cfg: Config, u: User, c: nat, i: nat)
    requires ConfigOK(cfg) && UserOK(cfg, u) && PlainConfig(cfg) && c < |cfg.choices|
    requires i in cfg.choices[c].syms && Eval(cfg, u, TriV(i)).t != 0
    ensures i in Written(cfg, u) && Nonzero(cfg, EnvOf(cfg, u), Written(cfg, u), c, i)
  {
    assert ChoiceOK(cfg, c);
    MemberValue(cfg, u, c, i);
    VisibleIsWritten(cfg, u, i);
  }

  // ---------- Modes ----------

  /** Assigning the mode a choice has gives it the mode. */
  lemma AssignedMode(cfg: Config, u: User, u2: User, c: nat, env: Env)
    requires IsBoolTri(cfg.Choice(c).typ) && ChoiceTri(cfg, u, c, env) != 0
    requires ModeOf(u2, c) == Some(ChoiceTri(cfg, u, c, env))
    requires env(CVis(c)).t == 1 ==> ChoiceTypeOf(cfg, c, env) == TRISTATE
    ensures ChoiceTri(cfg, u2, c, env) == ChoiceTri(cfg, u, c, env)
  {
  }

  lemma ChoiceVisM(cfg: Config, u: User, c: nat)
    requires ConfigOK(cfg) && UserOK(cfg, u) && Eval(cfg, u, CVis(c)).t == 1
    ensures ChoiceTypeOf(cfg, c, EnvOf(cfg, u)) == TRISTATE
  {
    EvalStep(cfg, u, CVis(c));
  }

  /** A choice keeps its mode exactly if its members show it. */
  lemma ModeReloaded(cfg: Config, u: User, written: set<nat>, u2: User, c: nat)
    requires Reloaded(cfg, u, written, u2) && c < |cfg.choices|
    ensures ChoiceTri(cfg, u2, c, EnvOf(cfg, u)) == Mode(cfg, u, c) <==> ModeShown(cfg, u, written, c)
  {
    var env := EnvOf(cfg, u);
    assert TristateChoice(cfg, c) && PromptsInside(cfg, c) && ChoiceReadBack(cfg, env, written, u2, c);
    hide ConfigOK, UserOK, PlainConfig, TristateChoice, PromptsInside, Eval, IsReadBack, ValidValue, ChoiceTri;
    Basis(cfg);
    if i :| i in cfg.choices[c].syms && i in written && Eval(cfg, u, TriV(i)).t != 0 {
      InChoice(cfg, i, c);
      assert Nonzero(cfg, env, written, c, i);
      NonzeroIsMode(cfg, u, c, i);
      if env(CVis(c)).t == 1 {
        ChoiceVisM(cfg, u, c);
      }
      ModeType(cfg, c);
      AssignedMode(cfg, u, u2, c, env);
    } else {
      forall i: nat
        ensures !Nonzero(cfg, env, written, c, i)
      {
        InChoice(cfg, i, c);
      }
      NoInput(cfg, u2, c, env);
    }
  }

  lemma ModeType(cfg: Config, c: nat)
    requires PlainConfig(cfg) && c < |cfg.choices|
    ensures IsBoolTri(cfg.choices[c].typ)
  {
    assert TristateChoice(cfg, c);
  }

  lemma NoInput(cfg: Config, u: User, c: nat, env: Env)
    requires ModeOf(u, c) == None
    ensures ChoiceTri(cfg, u, c, env) == ChoiceTri(cfg, NOTHING, c, env)
  {
  }

  lemma ModesReloaded(cfg: Config, u: User, written: set<nat>, u2: User)
    requires Reloaded(cfg, u, written, u2)
    ensures SameModes(cfg, u, u2, EnvOf(cfg, u)) <==>
            forall c :: 0 <= c < |cfg.choices| ==> ModeShown(cfg, u, written, c)
  {
    var env := EnvOf(cfg, u);
    forall c: nat
      ensures c < |cfg.choices| ==>
                (ChoiceTri(cfg, u2, c, env) == ChoiceTri(cfg, u, c, env) <==> ModeShown(cfg, u, written, c))
      ensures c >= |cfg.choices| ==> ChoiceTri(cfg, u2, c, env) == ChoiceTri(cfg, u, c, env)
    {
      if c < |cfg.choices| {
        ModeReloaded(cfg, u, written, u2, c);
      } else {
        NoInput(cfg, u, c, env);
        NoInput(cfg, u2, c, env);
      }
    }
    hide Eval, ChoiceTri, ModeShown, Reloaded, IsReadBack;
  }

  // ---------- Values ----------

  /** Two user states with the same modes. */
  ghost predicate Pair(cfg: Config, u: User, u2: User) {
    ConfigOK(cfg) && UserOK(cfg, u) && UserOK(cfg, u2) && SameModes(cfg, u, u2, EnvOf(cfg, u))
  }

  /** If symbol i is visible, its user value in u2 is what is stored for its value in u. */
  ghost predicate StoredIfVisible(cfg: Config, u: User, u2: User, i: nat)
    requires Acyclic(cfg)
  {
    Eval(cfg, u, Vis(i)).t != 0 ==> UserOf(u2, i) == Stored(cfg, EnvOf(cfg, u), i)
  }

  lemma StoredBack(cfg: Config, u: User, u2: User, i: nat)
    requires FullReloaded(cfg, u, u2) && i < |cfg.syms| && cfg.syms[i].defined && cfg.syms[i].typ != UNKNOWN
    ensures !cfg.syms[i].neverWritten
    ensures StoredIfVisible(cfg, u, u2, i)
  {
    hide Eval, Stored, UserOK, Acyclic;
    if Eval(cfg, u, Vis(i)).t != 0 {
      VisibleIsWritten(cfg, u, i);
    }
  }

  /** Assigning the value a symbol has. */
  lemma PlainTriAgain(vis: Tri, user: Option<UVal>, def: Tri, weak: Tri, direct: Tri, rev: Tri, promotes: bool)
    requires vis != 0
    ensures var r := PlainTri(vis, user, def, weak, direct, rev, promotes);
            PlainTri(vis, Some(UTri(r.val)), def, weak, direct, rev, promotes) == r <==>
            r.val <= vis || rev == 2 || promotes
  {
  }

  lemma PlainTriReloaded(cfg: Config, u: User, u2: User, i: nat)
    requires Pair(cfg, u, u2) && StoredIfVisible(cfg, u, u2, i)
    requires i < |cfg.syms| && cfg.syms[i].defined && IsBoolTri(cfg.syms[i].typ) && cfg.syms[i].choice.None?
    ensures Step(cfg, u2, TriV(i), EnvOf(cfg, u)) == Eval(cfg, u, TriV(i)) <==> ValueKept(cfg, u, i)
  {
    var env, d := EnvOf(cfg, u), cfg.syms[i];
    assert SymOK(cfg, i);
    hide ConfigOK, UserOK, Eval, SymTriVal, PlainTri;
    hide DefaultTri, ExprVal, PromotesM;
    Basis(cfg);
    EvalStep(cfg, u, TriV(i));
    if env(Vis(i)).t == 0 {
      SameSymbol(cfg, u, u2, i, env);
    } else {
      PlainTriValue(cfg, u, i, env);
      PlainTriValue(cfg, u2, i, env);
      SameFirstDefault(cfg, u, u2, d.defaults, env);
      SameExpr(cfg, u, u2, d.revDep, env);
      SameExpr(cfg, u, u2, d.weakRevDep, env);
      SameExpr(cfg, u, u2, d.directDep, env);
      SameType(cfg, u, u2, i, env);
      PlainTriAgain(env(Vis(i)).t, UserOf(u, i), DefaultTri(cfg, u, d.defaults, env),
                    ExprVal(cfg, u, d.weakRevDep, env), ExprVal(cfg, u, d.directDep, env),
                    ExprVal(cfg, u, d.revDep, env), PromotesM(cfg, u, i, env));
    }
  }

  lemma MemberReloaded(cfg: Config, u: User, u2: User, i: nat)
    requires Pair(cfg, u, u2) && StoredIfVisible(cfg, u, u2, i)
    requires i < |cfg.syms| && IsBoolTri(cfg.syms[i].typ) && cfg.syms[i].choice.Some?
    ensures Step(cfg, u2, TriV(i), EnvOf(cfg, u)) == Eval(cfg, u, TriV(i))
  {
    var env, d := EnvOf(cfg, u), cfg.syms[i];
    assert SymOK(cfg, i);
    hide ConfigOK, UserOK, Eval;
    Basis(cfg);
    EvalStep(cfg, u, TriV(i));
  }

  lemma SelectionReloaded(cfg: Config, u: User, u2: User, c: nat)
    requires FullReloaded(cfg, u, u2) && SameModes(cfg, u, u2, EnvOf(cfg, u)) && c < |cfg.choices|
    ensures Step(cfg, u2, CSel(c), EnvOf(cfg, u)) == Eval(cfg, u, CSel(c))
  {
    var env, written, d := EnvOf(cfg, u), Written(cfg, u), cfg.choices[c];
    assert TristateChoice(cfg, c) && ChoiceReadBack(cfg, env, written, u2, c);
    hide ConfigOK, UserOK, PlainConfig, IsReadBack, Stored, Eval, Nonzero, Written, TristateChoice;
    Basis(cfg);
    EvalStep(cfg, u, CSel(c));
    SelectionIsVisibleMember(cfg, u, c);
    SameSelection(cfg, u, u2, d.defaults, d.syms, env);
    var sel := Eval(cfg, u, CSel(c)).sel;
    if sel.Some? {
      YMeansSelected(cfg, u, c, sel.value);
      NonzeroIsWritten(cfg, u, c, sel.value);
    } else if Mode(cfg, u, c) == 2 {
      forall i: nat
        ensures !Nonzero(cfg, env, written, c, i)
      {
        InvisibleMember(cfg, u, c, i, written);
      }
    }
  }

  lemma InvisibleMember(cfg: Config, u: User, c: nat, i: nat, written: set<nat>)
    requires ConfigOK(cfg) && UserOK(cfg, u) && TristateChoice(cfg, c)
    requires forall s :: s in cfg.choices[c].syms ==> !Visible(cfg, u, s)
    ensures !Nonzero(cfg, EnvOf(cfg, u), written, c, i)
  {
    assert c < |cfg.choices|;
    hide Eval, TristateChoice, UserOK;
    InChoice(cfg, i, c);
    if i in cfg.choices[c].syms {
      MemberValue(cfg, u, c, i);
      assert !Visible(cfg, u, i);
    }
  }

  lemma StringReloaded(cfg: Config, u: User, u2: User, i: nat)
    requires Pair(cfg, u, u2) && StoredIfVisible(cfg, u, u2, i)
    requires i < |cfg.syms| && cfg.syms[i].defined && !cfg.syms[i].neverWritten && cfg.syms[i].typ == STRING
    ensures Step(cfg, u2, StrV(i), EnvOf(cfg, u)) == Eval(cfg, u, StrV(i))
  {
    var env, d := EnvOf(cfg, u), cfg.syms[i];
    hide ConfigOK, UserOK, Eval;
    Basis(cfg);
    EvalStep(cfg, u, StrV(i));
    if env(Vis(i)).t == 0 {
      SameSymbol(cfg, u, u2, i, env);
    } else {
      SameFirstDefault(cfg, u, u2, d.defaults, env);
    }
  }

  lemma StripRightTwice(s: string)
    ensures StripRight(StripRight(s)) == StripRight(s)
  {
  }

  lemma ParseTrimmed(s: string, base: nat)
    ensures ParseInt(StripRight(s), base) == ParseInt(s, base)
  {
    hide ParseStripped, StripLeft, StripRight;
    StripRightTwice(s);
  }

  lemma StripRightValid(t: SType, s: string)
    requires IsIntHex(t)
    ensures ValidValue(t, UStr(StripRight(s))) <==> ValidValue(t, UStr(s))
    ensures NumOrZero(StripRight(s), BaseOf(t)) == NumOrZero(s, BaseOf(t))
    ensures ValidValue(t, UStr(s)) ==> StripRight(s) != ""
  {
    hide ParseInt, StripRight;
    ParseTrimmed(s, BaseOf(t));
    ParseTrimmed(s, 10);
    ParseTrimmed(s, 16);
    NotEmptyText(t, StripRight(s));
  }

  lemma NotEmptyText(t: SType, s: string)
    requires IsIntHex(t)
    ensures ValidValue(t, UStr(s)) ==> s != ""
  {
    if ValidValue(t, UStr(s)) {
      NotEmpty(t, UStr(s));
    }
  }

  /** The value of a number symbol in terms of the user's text and the default. */
  function PlainNumber(t: SType, vis: Tri, text: string, range: Option<(int, int)>, default_: string, hasDefault: bool): StrResult {
    if vis != 0 && text != "" && !OutsideRange(range, NumOrZero(text, BaseOf(t))) then StrResult(text, true)
    else StrResult(Clamp(t, range, default_), vis != 0 || hasDefault)
  }

  /** The text of a user value, "" without one. */
  function TextOf(v: Option<UVal>): string {
    if v.Some? then UserStr(v.value) else ""
  }

  lemma PlainNumberValue(cfg: Config, u: User, i: nat, env: Env)
    requires IsIntHex(cfg.Sym(i).typ) && !cfg.Sym(i).neverWritten
    ensures var d := cfg.Sym(i);
            SymStrVal(cfg, u, i, env) ==
            PlainNumber(d.typ, env(Vis(i)).t, TextOf(UserOf(u, i)), ActiveRange(cfg, u, d, env),
                        DefaultText(cfg, u, d.defaults, env), HasDefault(cfg, u, d.defaults, env))
  {
    hide ActiveRange, DefaultText, HasDefault, NumOrZero, Clamp;
  }

  /** Assigning the trimmed value instead of what the user has assigned. */
  lemma NumberAgain(t: SType, vis: Tri, text: string, range: Option<(int, int)>, default_: string, hasDefault: bool)
    requires IsIntHex(t) && vis != 0 && (text != "" ==> ValidValue(t, UStr(text)))
    ensures var r := PlainNumber(t, vis, text, range, default_, hasDefault);
            var stored := StripRight(r.val);
            var again := if ValidValue(t, UStr(stored)) then stored else "";
            var outside := OutsideRange(range, NumOrZero(r.val, BaseOf(t)));
            PlainNumber(t, vis, again, range, default_, hasDefault) == r <==>
            stored == r.val || !ValidValue(t, UStr(r.val)) || outside
  {
    hide ValidValue, NumOrZero, Clamp, StripRight;
    var r := PlainNumber(t, vis, text, range, default_, hasDefault);
    StripRightValid(t, r.val);
  }

  /** A number comes back exactly if its trailing blanks are not missed. */
  lemma NumberReloaded(cfg: Config, u: User, u2: User, i: nat)
    requires Pair(cfg, u, u2) && StoredIfVisible(cfg, u, u2, i)
    requires i < |cfg.syms| && cfg.syms[i].defined && !cfg.syms[i].neverWritten && IsIntHex(cfg.syms[i].typ)
    ensures Step(cfg, u2, StrV(i), EnvOf(cfg, u)) == Eval(cfg, u, StrV(i)) <==> NumberKept(cfg, u, i)
  {
    hide ConfigOK, UserOK, Eval, Step;
    Basis(cfg);
    var env := EnvOf(cfg, u);
    if env(Vis(i)).t == 0 {
      EvalStep(cfg, u, StrV(i));
      SameSymbol(cfg, u, u2, i, env);
    } else {
      VisibleNumberReloaded(cfg, u, u2, i);
    }
  }

  /** The step of number symbol i with the given text as the user value, in state u. */
  ghost function NumberStep(cfg: Config, u: User, i: nat, text: string): StrResult
    requires Acyclic(cfg)
  {
    var d, env := cfg.Sym(i), EnvOf(cfg, u);
    PlainNumber(d.typ, env(Vis(i)).t, text, ActiveRange(cfg, u, d, env),
                DefaultText(cfg, u, d.defaults, env), HasDefault(cfg, u, d.defaults, env))
  }

  lemma NumberStepValue(cfg: Config, u: User, u2: User, i: nat)
    requires Acyclic(cfg) && IsIntHex(cfg.Sym(i).typ) && !cfg.Sym(i).neverWritten
    requires SameModes(cfg, u, u2, EnvOf(cfg, u))
    ensures var r := NumberStep(cfg, u, i, TextOf(UserOf(u2, i)));
            Step(cfg, u2, StrV(i), EnvOf(cfg, u)) == NO_VAL.(s := r.val, w := r.write)
  {
    hide Eval, SymStrVal, PlainNumber, ActiveRange, DefaultText, HasDefault, SameModes;
    var env, d := EnvOf(cfg, u), cfg.Sym(i);
    SameFirstDefault(cfg, u, u2, d.defaults, env);
    SameActiveRange(cfg, u, u2, d, env);
    PlainNumberValue(cfg, u2, i, env);
  }

  lemma VisibleNumberReloaded(cfg: Config, u: User, u2: User, i: nat)
    requires Pair(cfg, u, u2) && StoredIfVisible(cfg, u, u2, i)
    requires i < |cfg.syms| && cfg.syms[i].defined && !cfg.syms[i].neverWritten && IsIntHex(cfg.syms[i].typ)
    requires Eval(cfg, u, Vis(i)).t != 0
    ensures Step(cfg, u2, StrV(i), EnvOf(cfg, u)) == Eval(cfg, u, StrV(i)) <==> NumberKept(cfg, u, i)
  {
    var env, d := EnvOf(cfg, u), cfg.syms[i];
    hide ConfigOK, UserOK, Eval, ValidValue, NumOrZero, StripRight, PlainNumber;
    hide ActiveRange, DefaultText, HasDefault, Stored, OutsideRange, Step, NoNumberFits;
    StoredNumber(cfg, env, i);
    NumberText(cfg, u, i);
    Basis(cfg);
    EvalStep(cfg, u, StrV(i));
    NumberStepValue(cfg, u, u, i);
    NumberStepValue(cfg, u, u2, i);
    NumberInRange(cfg, u, i);
    if NoNumberFits(cfg, u, i) {
      EmptyRange(cfg, u, i, NumOrZero(Eval(cfg, u, StrV(i)).s, BaseOf(d.typ)));
    }
    NumberAgain(d.typ, env(Vis(i)).t, TextOf(UserOf(u, i)), ActiveRange(cfg, u, d, env),
                DefaultText(cfg, u, d.defaults, env), HasDefault(cfg, u, d.defaults, env));
  }

  lemma EmptyRange(cfg: Config, u: User, i: nat, n: int)
    requires Acyclic(cfg) && NoNumberFits(cfg, u, i)
    ensures OutsideRange(RangeInEffect(cfg, u, i), n)
  {
  }

  lemma StoredNumber(cfg: Config, env: Env, i: nat)
    requires IsIntHex(cfg.Sym(i).typ)
    ensures var stored, t := StripRight(env(StrV(i)).s), cfg.Sym(i).typ;
            TextOf(Stored(cfg, env, i)) == if ValidValue(t, UStr(stored)) then stored else ""
  {
    hide StripRight, ValidValue;
  }

  lemma NumberText(cfg: Config, u: User, i: nat)
    requires UserOK(cfg, u) && IsIntHex(cfg.Sym(i).typ)
    ensures TextOf(UserOf(u, i)) != "" ==> ValidValue(cfg.Sym(i).typ, UStr(TextOf(UserOf(u, i))))
  {
  }

  lemma NumberInRange(cfg: Config, u: User, i: nat)
    requires ConfigOK(cfg) && UserOK(cfg, u) && i < |cfg.syms| && IsIntHex(cfg.syms[i].typ)
    ensures NoNumberFits(cfg, u, i) ||
            !OutsideRange(RangeInEffect(cfg, u, i), NumOrZero(Eval(cfg, u, StrV(i)).s, BaseOf(cfg.syms[i].typ)))
  {
    hide ActiveRange, Eval, NumOrZero;
    if RangeInEffect(cfg, u, i).Some? {
      Ranges.InRange(cfg, u, i);
    }
  }

  // ---------- The round trip ----------

  /** All symbols and choices survive. */
  ghost predicate AllKept(cfg: Config, u: User)
    requires Acyclic(cfg)
  {
    && (forall i :: 0 <= i < |cfg.syms| && cfg.syms[i].defined ==> SymKept(cfg, u, i))
    && (forall c :: 0 <= c < |cfg.choices| ==> ModeShown(cfg, u, Written(cfg, u), c))
  }

  /** An attribute of an item that is not in the configuration, or that is undefined, does not
      depend on the user. */
  lemma OutsideUser(cfg: Config, u: User, u2: User, a: Attr, env: Env)
    requires ConfigOK(cfg) && UserOK(cfg, u) && UserOK(cfg, u2) && SameModes(cfg, u, u2, env)
    requires match ItemOf(a) case S(i) => !cfg.Sym(i).defined case C(c) => c >= |cfg.choices|
    ensures Step(cfg, u2, a, env) == Step(cfg, u, a, env)
  {
    match a
    case Vis(_) => SameInputless(cfg, u, u2, a, env);
    case Asg(_) => SameInputless(cfg, u, u2, a, env);
    case CVis(_) => SameInputless(cfg, u, u2, a, env);
    case CAsg(_) => SameInputless(cfg, u, u2, a, env);
    case CSel(c) => SameSelection(cfg, u, u2, cfg.Choice(c).defaults, cfg.Choice(c).syms, env);
    case TriV(i) => UndefinedValue(cfg, u, u2, i, env);
    case StrV(i) => UndefinedValue(cfg, u, u2, i, env);
  }

  lemma UndefinedValue(cfg: Config, u: User, u2: User, i: nat, env: Env)
    requires ConfigOK(cfg) && !cfg.Sym(i).defined
    ensures Step(cfg, u2, TriV(i), env) == Step(cfg, u, TriV(i), env)
    ensures Step(cfg, u2, StrV(i), env) == Step(cfg, u, StrV(i), env)
  {
    if i < |cfg.syms| {
      assert SymOK(cfg, i);
    }
  }

  /** Whether the value of one attribute comes back, given that the modes do. */
  ghost predicate AttrKept(cfg: Config, u: User, a: Attr)
    requires Acyclic(cfg)
  {
    match a
    case TriV(i) => IsBoolTri(cfg.Sym(i).typ) && cfg.Sym(i).choice.None? && cfg.Sym(i).defined ==> ValueKept(cfg, u, i)
    case StrV(i) => IsIntHex(cfg.Sym(i).typ) && cfg.Sym(i).defined ==> NumberKept(cfg, u, i)
    case _ => true
  }

  lemma DefinedSymReloaded(cfg: Config, u: User, u2: User, i: nat)
    requires FullReloaded(cfg, u, u2) && SameModes(cfg, u, u2, EnvOf(cfg, u)) && cfg.Sym(i).defined
    ensures Step(cfg, u2, TriV(i), EnvOf(cfg, u)) == Eval(cfg, u, TriV(i)) <==> AttrKept(cfg, u, TriV(i))
    ensures Step(cfg, u2, StrV(i), EnvOf(cfg, u)) == Eval(cfg, u, StrV(i)) <==> AttrKept(cfg, u, StrV(i))
  {
    hide Eval, IsReadBack, ConfigOK, UserOK, PlainConfig, ValueKept, NumberKept;
    Basis(cfg);
    var t := cfg.syms[i].typ;
    EvalStep(cfg, u, TriV(i));
    EvalStep(cfg, u, StrV(i));
    if t != UNKNOWN {
      StoredBack(cfg, u, u2, i);
    }
    hide StoredIfVisible;
    if IsBoolTri(t) {
      if cfg.syms[i].choice.None? {
        PlainTriReloaded(cfg, u, u2, i);
      } else {
        MemberReloaded(cfg, u, u2, i);
      }
    } else {
      OtherTri(cfg, u, u2, i, EnvOf(cfg, u));
      if t == STRING {
        StringReloaded(cfg, u, u2, i);
      } else if IsIntHex(t) {
        NumberReloaded(cfg, u, u2, i);
      }
    }
  }

  lemma OtherTri(cfg: Config, u: User, u2: User, i: nat, env: Env)
    requires !IsBoolTri(cfg.Sym(i).typ)
    ensures Step(cfg, u2, TriV(i), env) == Step(cfg, u, TriV(i), env)
  {
  }

  lemma AttrReloaded(cfg: Config, u: User, u2: User, a: Attr)
    requires FullReloaded(cfg, u, u2) && SameModes(cfg, u, u2, EnvOf(cfg, u))
    ensures Step(cfg, u2, a, EnvOf(cfg, u)) == Eval(cfg, u, a) <==> AttrKept(cfg, u, a)
  {
    hide Eval, IsReadBack, ConfigOK, UserOK, PlainConfig, AttrKept, Step;
    Basis(cfg);
    EvalStep(cfg, u, a);
    var env := EnvOf(cfg, u);
    if (match ItemOf(a) case S(i) => !cfg.Sym(i).defined case C(c) => c >= |cfg.choices|) {
      OutsideUser(cfg, u, u2, a, env);
      NothingAsked(cfg, u, a);
    } else {
      match a
      case TriV(i) => DefinedSymReloaded(cfg, u, u2, i);
      case StrV(i) => DefinedSymReloaded(cfg, u, u2, i);
      case CSel(c) =>
        SelectionReloaded(cfg, u, u2, c);
        NothingAsked(cfg, u, a);
      case _ =>
        SameInputless(cfg, u, u2, a, env);
        NothingAsked(cfg, u, a);
    }
  }

  lemma NothingAsked(cfg: Config, u: User, a: Attr)
    requires Acyclic(cfg)
    requires (a.TriV? || a.StrV?) ==> !cfg.Sym(a.i).defined
    ensures AttrKept(cfg, u, a)
  {
  }

  lemma AllKeptByAttr(cfg: Config, u: User)
    requires Acyclic(cfg)
    ensures AllKept(cfg, u) <==>
            && (forall a :: AttrKept(cfg, u, a))
            && (forall c :: 0 <= c < |cfg.choices| ==> ModeShown(cfg, u, Written(cfg, u), c))
  {
    hide ValueKept, NumberKept, ModeShown;
    if forall a :: AttrKept(cfg, u, a) {
      forall i | 0 <= i < |cfg.syms| && cfg.syms[i].defined
        ensures SymKept(cfg, u, i)
      {
        assert AttrKept(cfg, u, TriV(i)) && AttrKept(cfg, u, StrV(i));
      }
    }
    if forall i :: 0 <= i < |cfg.syms| && cfg.syms[i].defined ==> SymKept(cfg, u, i) {
      forall a
        ensures AttrKept(cfg, u, a)
      {
        if a.TriV? || a.StrV? {
          assert cfg.Sym(a.i).defined ==> SymKept(cfg, u, a.i);
        }
      }
    }
  }

  /** Both states give all attributes the same values and all choices the same modes. */
  ghost predicate SameConfig(cfg: Config, u: User, u2: User)
    requires Acyclic(cfg)
  {
    SameValues(cfg, u, u2) && forall c :: Mode(cfg, u2, c) == Mode(cfg, u, c)
  }

  lemma SameConfigSteps(cfg: Config, u: User, u2: User)
    requires ConfigOK(cfg) && UserOK(cfg, u) && UserOK(cfg, u2)
    ensures SameConfig(cfg, u, u2) <==> SameSteps(cfg, u, u2) && SameModes(cfg, u, u2, EnvOf(cfg, u))
  {
    hide Eval, Step, ConfigOK, UserOK;
    Basis(cfg);
    SameValuesIff(cfg, u, u2);
    if SameValues(cfg, u, u2) {
      forall c: nat
        ensures Mode(cfg, u2, c) == ChoiceTri(cfg, u2, c, EnvOf(cfg, u))
      {
        assert Eval(cfg, u2, CVis(c)) == Eval(cfg, u, CVis(c));
        assert Eval(cfg, u2, TriV(cfg.modules)) == Eval(cfg, u, TriV(cfg.modules));
      }
      hide ChoiceTri;
      assert SameModes(cfg, u, u2, EnvOf(cfg, u)) <==> forall c: nat :: Mode(cfg, u, c) == ChoiceTri(cfg, u2, c, EnvOf(cfg, u));
    }
  }

  lemma ReloadedSame(cfg: Config, u: User, u2: User)
    requires FullReloaded(cfg, u, u2)
    ensures SameConfig(cfg, u, u2) <==> AllKept(cfg, u)
  {
    hide Eval, Step, IsReadBack, ConfigOK, UserOK, PlainConfig, AttrKept, ModeShown, SymKept, SameModes;
    Basis(cfg);
    SameConfigSteps(cfg, u, u2);
    ModesReloaded(cfg, u, Written(cfg, u), u2);
    AllKeptByAttr(cfg, u);
    if SameModes(cfg, u, u2, EnvOf(cfg, u)) {
      forall a
        ensures Step(cfg, u2, a, EnvOf(cfg, u)) == Eval(cfg, u, a) <==> AttrKept(cfg, u, a)
      {
        AttrReloaded(cfg, u, u2, a);
      }
    }
    hide AllKept, SameConfig;
  }

  /** The lines that write_config() writes for the symbols. */
  ghost function ConfigLines(cfg: Config, u: User): seq<string>
    requires Acyclic(cfg)
  {
    LinesFor(cfg, EnvOf(cfg, u), Written(cfg, u), |cfg.syms|)
  }

  /** Writing the configuration of u and loading it over any earlier state gives all symbols
      and choices their values and modes back, exactly if no value exceeds the visibility
      without need, no number has trailing blanks, and the choices show their modes. */
  lemma FullRoundTrip(cfg: Config, u: User, st: State)
    requires ConfigOK(cfg) && UserOK(cfg, u) && UserOK(cfg, st.user) && PlainConfig(cfg) && OneLiners(cfg, u)
    ensures SameConfig(cfg, u, LoadConfig(cfg, st, ConfigLines(cfg, u), true).user) <==> AllKept(cfg, u)
  {
    hide Eval, IsReadBack, PlainConfig, LoadConfig, UserOK, SameConfig, AllKept, OneLiners, Writable, LinesFor;
    Basis(cfg);
    var env, written := EnvOf(cfg, u), Written(cfg, u);
    WrittenIsWritable(cfg, u, written);
    ReadBackLines(cfg, st, env, written);
    LoadConfigOK(cfg, st, ConfigLines(cfg, u), true);
    ReloadedSame(cfg, u, LoadConfig(cfg, st, ConfigLines(cfg, u), true).user);
  }

  // ---------- Configurations without tristates ----------

  /** No tristate symbols other than the constants, and only bool choices that are not
      optional. */
  predicate NoTristates(cfg: Config) {
    && (forall i :: 0 <= i < |cfg.syms| && cfg.syms[i].defined ==> cfg.syms[i].typ != TRISTATE)
    && (forall c :: 0 <= c < |cfg.choices| ==> cfg.choices[c].typ == BOOL && !cfg.choices[c].isOptional)
  }

  ghost predicate TrimmedNumbers(cfg: Config, u: User)
    requires Acyclic(cfg)
  {
    forall i :: 0 <= i < |cfg.syms| && IsIntHex(cfg.syms[i].typ) ==>
      StripRight(Eval(cfg, u, StrV(i)).s) == Eval(cfg, u, StrV(i)).s
  }

  lemma BoolKept(cfg: Config, u: User, i: nat)
    requires ConfigOK(cfg) && UserOK(cfg, u) && i < |cfg.syms| && cfg.syms[i].typ == BOOL
    ensures ValueKept(cfg, u, i)
  {
    BoolIsNotM(cfg, u, i);
  }

  lemma BoolModeShown(cfg: Config, u: User, written: set<nat>, c: nat)
    requires Acyclic(cfg) && cfg.Choice(c).typ == BOOL && !cfg.Choice(c).isOptional
    ensures ModeShown(cfg, u, written, c)
  {
  }

  /** Without tristates the round trip always succeeds. */
  lemma FullRoundTripWithoutTristates(cfg: Config, u: User, st: State)
    requires ConfigOK(cfg) && UserOK(cfg, u) && UserOK(cfg, st.user) && PlainConfig(cfg) && OneLiners(cfg, u)
    requires NoTristates(cfg) && TrimmedNumbers(cfg, u)
    ensures SameConfig(cfg, u, LoadConfig(cfg, st, ConfigLines(cfg, u), true).user)
  {
    hide Eval, PlainConfig, LoadConfig, UserOK, SameConfig, OneLiners, ValueKept, ModeShown;
    FullRoundTrip(cfg, u, st);
    forall i | 0 <= i < |cfg.syms| && cfg.syms[i].defined
      ensures SymKept(cfg, u, i)
    {
      if cfg.syms[i].typ == BOOL {
        BoolKept(cfg, u, i);
      }
    }
    forall c | 0 <= c < |cfg.choices|
      ensures ModeShown(cfg, u, Written(cfg, u), c)
    {
      BoolModeShown(cfg, u, Written(cfg, u), c);
    }
  }
}
