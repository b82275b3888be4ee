/** What every cached attribute of a symbol or choice means.

    `Step` is one level of evaluation: the value of an attribute in terms of the
    values `env` gives to the attributes it reads. `Reads` is the set of attributes
    that are actually read, which short-circuiting makes smaller than what the
    expressions mention. */
module Semantics {
  import opened Types
  import opened Numbers

  type Env = Attr -> Val

  // ---------- Expressions ----------

  function ChoiceTypeOf(cfg: Config, c: nat, env: Env): SType {
    var t := cfg.Choice(c).typ;
    if t == TRISTATE && env(TriV(cfg.modules)).t == 0 then BOOL else t
  }

  /** The mode of a choice before m is promoted to y. */
  function RawMode(cfg: Config, u: User, c: nat, env: Env): Tri {
    var low: Tri := if cfg.Choice(c).isOptional then 0 else 1;
    var wanted := match ModeOf(u, c) case None => low case Some(m) => Max(low, m);
    Min(wanted, env(CVis(c)).t)
  }

  /** Choice.tri_value, the mode of the choice. It is not cached itself. */
  function ChoiceTri(cfg: Config, u: User, c: nat, env: Env): Tri {
    var val := RawMode(cfg, u, c, env);
    if val == 1 && ChoiceTypeOf(cfg, c, env) == BOOL then 2 else val
  }

  function ChoiceTriReads(cfg: Config, u: User, c: nat, env: Env): set<Attr> {
    {CVis(c)} +
    if RawMode(cfg, u, c, env) == 1 && cfg.Choice(c).typ == TRISTATE then {TriV(cfg.modules)} else {}
  }

  /** _sym_to_num(), None standing for ValueError. */
  function SymToNum(cfg: Config, s: nat, env: Env): Option<int> {
    var t := cfg.Sym(s).typ;
    if IsBoolTri(t) then Some(env(TriV(s)).t) else ParseInt(env(StrV(s)).s, BaseOf(t))
  }

  function SymToNumReads(cfg: Config, s: nat): set<Attr> {
    if IsBoolTri(cfg.Sym(s).typ) then {TriV(s)} else {StrV(s)}
  }

  /** The three-way comparison behind a relation. */
  function Compare(cfg: Config, a: nat, b: nat, env: Env): int {
    if cfg.Sym(a).typ == STRING && cfg.Sym(b).typ == STRING then
      Strcmp(env(StrV(a)).s, env(StrV(b)).s)
    else
      match (SymToNum(cfg, a, env), SymToNum(cfg, b, env))
      case (Some(x), Some(y)) => x - y
      case _ => Strcmp(env(StrV(a)).s, env(StrV(b)).s)
  }

  function CompareReads(cfg: Config, a: nat, b: nat, env: Env): set<Attr> {
    var strs := {StrV(a), StrV(b)};
    if cfg.Sym(a).typ == STRING && cfg.Sym(b).typ == STRING then strs
    else if SymToNum(cfg, a, env).None? then SymToNumReads(cfg, a) + strs
    else
      SymToNumReads(cfg, a) + SymToNumReads(cfg, b) +
      if SymToNum(cfg, b, env).None? then strs else {}
  }

  predicate Holds(op: RelOp, comp: int) {
    match op
    case EQUAL => comp == 0
    case UNEQUAL => comp != 0
    case LESS => comp < 0
    case LESS_EQUAL => comp <= 0
    case GREATER => comp > 0
    case GREATER_EQUAL => comp >= 0
  }

  /** expr_value() */
  function ExprVal(cfg: Config, u: User, e: Expr, env: Env): Tri {
    match e
    case SymE(s) => env(TriV(s)).t
    case ChoiceE(c) => ChoiceTri(cfg, u, c, env)
    case And(l, r) => Min(ExprVal(cfg, u, l, env), ExprVal(cfg, u, r, env))
    case Or(l, r) => Max(ExprVal(cfg, u, l, env), ExprVal(cfg, u, r, env))
    case Not(e1) => 2 - ExprVal(cfg, u, e1, env)
    case Rel(op, a, b) => if Holds(op, Compare(cfg, a, b, env)) then 2 else 0
  }

  /** AND stops at n and OR stops at y. */
  function ExprReads(cfg: Config, u: User, e: Expr, env: Env): set<Attr> {
    match e
    case SymE(s) => {TriV(s)}
    case ChoiceE(c) => ChoiceTriReads(cfg, u, c, env)
    case And(l, r) =>
      ExprReads(cfg, u, l, env) +
      if ExprVal(cfg, u, l, env) == 0 then {} else ExprReads(cfg, u, r, env)
    case Or(l, r) =>
      ExprReads(cfg, u, l, env) +
      if ExprVal(cfg, u, l, env) == 2 then {} else ExprReads(cfg, u, r, env)
    case Not(e1) => ExprReads(cfg, u, e1, env)
    case Rel(_, a, b) => CompareReads(cfg, a, b, env)
  }

  // ---------- Visibility and type ----------

  /** The largest prompt condition. */
  function PromptMax(cfg: Config, u: User, ps: seq<Expr>, env: Env): Tri {
    if ps == [] then 0
    else Max(ExprVal(cfg, u, ps[0], env), PromptMax(cfg, u, ps[1..], env))
  }

  function PromptReads(cfg: Config, u: User, ps: seq<Expr>, env: Env): set<Attr> {
    if ps == [] then {} else ExprReads(cfg, u, ps[0], env) + PromptReads(cfg, u, ps[1..], env)
  }

  /** Symbol.type */
  function TypeOf(cfg: Config, u: User, i: nat, env: Env): SType {
    var d := cfg.Sym(i);
    if d.typ == TRISTATE &&
       ((d.choice.Some? && ChoiceTri(cfg, u, d.choice.value, env) == 2)
        || env(TriV(cfg.modules)).t == 0)
    then BOOL else d.typ
  }

  function TypeReads(cfg: Config, u: User, i: nat, env: Env): set<Attr> {
    var d := cfg.Sym(i);
    if d.typ != TRISTATE then {}
    else if d.choice.Some? then
      ChoiceTriReads(cfg, u, d.choice.value, env) +
      if ChoiceTri(cfg, u, d.choice.value, env) == 2 then {} else {TriV(cfg.modules)}
    else {TriV(cfg.modules)}
  }

  /** A choice symbol is hidden by the mode of its choice: a non-tristate symbol
      outside y mode, a symbol of m visibility in y mode. */
  predicate HiddenByMode(cfg: Config, u: User, d: SymDef, vis: Tri, env: Env) {
    d.choice.Some? &&
    var mode := ChoiceTri(cfg, u, d.choice.value, env);
    || (cfg.Choice(d.choice.value).typ == TRISTATE && d.typ != TRISTATE && mode != 2)
    || (d.typ == TRISTATE && vis == 1 && mode == 2)
  }

  function HiddenReads(cfg: Config, u: User, d: SymDef, vis: Tri, env: Env): set<Attr> {
    if d.choice.Some? &&
       ((cfg.Choice(d.choice.value).typ == TRISTATE && d.typ != TRISTATE) ||
        (d.typ == TRISTATE && vis == 1))
    then ChoiceTriReads(cfg, u, d.choice.value, env) else {}
  }

  /** A symbol all of whose prompt conditions are the constant n, or that has no prompt. */
  predicate Promptless(cfg: Config, d: SymDef) {
    forall k :: 0 <= k < |d.prompts| ==> d.prompts[k] == SymE(cfg.n)
  }

  function SymVisVal(cfg: Config, u: User, i: nat, env: Env): Tri {
    var d := cfg.Sym(i);
    var vis := PromptMax(cfg, u, d.prompts, env);
    if HiddenByMode(cfg, u, d, vis, env) then 0
    else if vis == 1 && TypeOf(cfg, u, i, env) != TRISTATE then 2
    else vis
  }

  /** The visibility of a promptless symbol is n whatever it reads. */
  function SymVisReads(cfg: Config, u: User, i: nat, env: Env): set<Attr> {
    var d := cfg.Sym(i);
    var vis := PromptMax(cfg, u, d.prompts, env);
    if Promptless(cfg, d) then {TriV(cfg.n)} else
    PromptReads(cfg, u, d.prompts, env) + HiddenReads(cfg, u, d, vis, env) +
    if !HiddenByMode(cfg, u, d, vis, env) && vis == 1 then TypeReads(cfg, u, i, env) else {}
  }

  function ChoiceVisVal(cfg: Config, u: User, c: nat, env: Env): Tri {
    var vis := PromptMax(cfg, u, cfg.Choice(c).prompts, env);
    if vis == 1 && ChoiceTypeOf(cfg, c, env) != TRISTATE then 2 else vis
  }

  function ChoiceVisReads(cfg: Config, u: User, c: nat, env: Env): set<Attr> {
    var d := cfg.Choice(c);
    PromptReads(cfg, u, d.prompts, env) +
    if PromptMax(cfg, u, d.prompts, env) == 1 && d.typ == TRISTATE then {TriV(cfg.modules)} else {}
  }

  // ---------- Values ----------

  /** The index of the first default whose condition is not n. */
  function FirstDefault(cfg: Config, u: User, ds: seq<Default>, env: Env): (k: nat)
    ensures k <= |ds|
  {
    if ds == [] || ExprVal(cfg, u, ds[0].cond, env) != 0 then 0
    else 1 + FirstDefault(cfg, u, ds[1..], env)
  }

  function FirstDefaultReads(cfg: Config, u: User, ds: seq<Default>, env: Env): set<Attr> {
    if ds == [] then {}
    else
      ExprReads(cfg, u, ds[0].cond, env) +
      if ExprVal(cfg, u, ds[0].cond, env) != 0 then {} else FirstDefaultReads(cfg, u, ds[1..], env)
  }

  function FirstRange(cfg: Config, u: User, rs: seq<RangeDef>, env: Env): (k: nat)
    ensures k <= |rs|
  {
    if rs == [] || ExprVal(cfg, u, rs[0].cond, env) != 0 then 0
    else 1 + FirstRange(cfg, u, rs[1..], env)
  }

  function FirstRangeReads(cfg: Config, u: User, rs: seq<RangeDef>, env: Env): set<Attr> {
    if rs == [] then {}
    else
      ExprReads(cfg, u, rs[0].cond, env) +
      if ExprVal(cfg, u, rs[0].cond, env) != 0 then {} else FirstRangeReads(cfg, u, rs[1..], env)
  }

  /** The default of a bool or tristate symbol, limited by its condition. */
  function DefaultTri(cfg: Config, u: User, ds: seq<Default>, env: Env): Tri {
    var k := FirstDefault(cfg, u, ds, env);
    if k < |ds| then Min(ExprVal(cfg, u, ds[k].value, env), ExprVal(cfg, u, ds[k].cond, env)) else 0
  }

  function DefaultTriReads(cfg: Config, u: User, ds: seq<Default>, env: Env): set<Attr> {
    var k := FirstDefault(cfg, u, ds, env);
    FirstDefaultReads(cfg, u, ds, env) +
    if k < |ds| then ExprReads(cfg, u, ds[k].value, env) else {}
  }

  /** A value together with the flag _write_to_conf. */
  datatype TriResult = TriResult(val: Tri, write: bool)
  datatype StrResult = StrResult(val: string, write: bool)

  function UserTri(v: UVal): Tri {
    match v case UTri(t) => t case UStr(_) => 0
  }

  function UserStr(v: UVal): string {
    match v case UTri(t) => "" case UStr(s) => s
  }

  /** The value from the user, or else from defaults and implies. */
  function BaseTri(cfg: Config, u: User, i: nat, env: Env): TriResult {
    var d := cfg.Sym(i);
    var vis := env(Vis(i)).t;
    if vis != 0 && UserOf(u, i).Some? then
      TriResult(Min(UserTri(UserOf(u, i).value), vis), true)
    else
      var val := DefaultTri(cfg, u, d.defaults, env);
      var weak := ExprVal(cfg, u, d.weakRevDep, env);
      if weak != 0 && ExprVal(cfg, u, d.directDep, env) != 0
      then TriResult(Max(weak, val), true)
      else TriResult(val, vis != 0 || val != 0)
  }

  function BaseTriReads(cfg: Config, u: User, i: nat, env: Env): set<Attr> {
    var d := cfg.Sym(i);
    {Vis(i)} +
    if env(Vis(i)).t != 0 && UserOf(u, i).Some? then {}
    else
      DefaultTriReads(cfg, u, d.defaults, env) + ExprReads(cfg, u, d.weakRevDep, env) +
      if ExprVal(cfg, u, d.weakRevDep, env) != 0 then ExprReads(cfg, u, d.directDep, env) else {}
  }

  /** The effect of selects, which take precedence. */
  function SelectedTri(cfg: Config, u: User, i: nat, env: Env): TriResult {
    var base := BaseTri(cfg, u, i, env);
    var rev := ExprVal(cfg, u, cfg.Sym(i).revDep, env);
    if rev != 0 then TriResult(Max(rev, base.val), true) else base
  }

  function SelectedTriReads(cfg: Config, u: User, i: nat, env: Env): set<Attr> {
    var d := cfg.Sym(i);
    BaseTriReads(cfg, u, i, env) + ExprReads(cfg, u, d.revDep, env) +
    if ExprVal(cfg, u, d.revDep, env) != 0 then ExprReads(cfg, u, d.directDep, env) else {}
  }

  predicate PromotesM(cfg: Config, u: User, i: nat, env: Env) {
    TypeOf(cfg, u, i, env) == BOOL || ExprVal(cfg, u, cfg.Sym(i).weakRevDep, env) == 2
  }

  function PromotesMReads(cfg: Config, u: User, i: nat, env: Env): set<Attr> {
    TypeReads(cfg, u, i, env) +
    if TypeOf(cfg, u, i, env) == BOOL then {} else ExprReads(cfg, u, cfg.Sym(i).weakRevDep, env)
  }

  /** Symbol.tri_value */
  function SymTriVal(cfg: Config, u: User, i: nat, env: Env): TriResult {
    var d := cfg.Sym(i);
    if d.constTri.Some? then TriResult(d.constTri.value, false)
    else if !IsBoolTri(d.typ) then TriResult(0, false)
    else if d.choice.None? then
      var r := SelectedTri(cfg, u, i, env);
      if r.val == 1 && PromotesM(cfg, u, i, env) then TriResult(2, r.write) else r
    else
      var vis := env(Vis(i)).t;
      if vis == 2 then
        TriResult(if env(CSel(d.choice.value)).sel == Some(i) then 2 else 0, true)
      else if vis != 0 && UserOf(u, i).Some? && UserTri(UserOf(u, i).value) != 0 then
        TriResult(1, true)
      else
        TriResult(0, vis != 0)
  }

  function SymTriReads(cfg: Config, u: User, i: nat, env: Env): set<Attr> {
    var d := cfg.Sym(i);
    if d.constTri.Some? || !IsBoolTri(d.typ) then {}
    else if d.choice.None? then
      SelectedTriReads(cfg, u, i, env) +
      if SelectedTri(cfg, u, i, env).val == 1 then PromotesMReads(cfg, u, i, env) else {}
    else
      {Vis(i)} + if env(Vis(i)).t == 2 then {CSel(d.choice.value)} else {}
  }

  /** The string value of a default, which is always a plain symbol here. */
  function DefaultStr(e: Expr, env: Env): string {
    if e.SymE? then env(StrV(e.s)).s else ""
  }

  function DefaultStrReads(e: Expr): set<Attr> {
    if e.SymE? then {StrV(e.s)} else {}
  }

  /** The low and high bounds of the first active range. */
  function ActiveRange(cfg: Config, u: User, d: SymDef, env: Env): Option<(int, int)> {
    var k := FirstRange(cfg, u, d.ranges, env);
    if k < |d.ranges| then
      Some((NumOrZero(env(StrV(d.ranges[k].low)).s, BaseOf(d.typ)),
            NumOrZero(env(StrV(d.ranges[k].high)).s, BaseOf(d.typ))))
    else None
  }

  function ActiveRangeReads(cfg: Config, u: User, d: SymDef, env: Env): set<Attr> {
    var k := FirstRange(cfg, u, d.ranges, env);
    FirstRangeReads(cfg, u, d.ranges, env) +
    if k < |d.ranges| then {StrV(d.ranges[k].low), StrV(d.ranges[k].high)} else {}
  }

  predicate OutsideRange(range: Option<(int, int)>, n: int) {
    range.Some? && !(range.value.0 <= n <= range.value.1)
  }

  /** The user value is used if the symbol is visible and the value is in range. */
  predicate UsesUserNumber(u: User, i: nat, d: SymDef, vis: Tri, range: Option<(int, int)>) {
    vis != 0 && UserOf(u, i).Some? && UserStr(UserOf(u, i).value) != "" &&
    !OutsideRange(range, NumOrZero(UserStr(UserOf(u, i).value), BaseOf(d.typ)))
  }

  /** A default, rewritten to a standard form if it is outside the range. */
  function Clamp(typ: SType, range: Option<(int, int)>, val: string): string {
    var n := NumOrZero(val, BaseOf(typ));
    if range.Some? && n < range.value.0 then NumStr(typ, range.value.0)
    else if range.Some? && n > range.value.1 then NumStr(typ, range.value.1)
    else val
  }

  /** The string value of the first active default, "" if there is none. */
  function DefaultText(cfg: Config, u: User, ds: seq<Default>, env: Env): string {
    var k := FirstDefault(cfg, u, ds, env);
    if k < |ds| then DefaultStr(ds[k].value, env) else ""
  }

  function DefaultTextReads(cfg: Config, u: User, ds: seq<Default>, env: Env): set<Attr> {
    var k := FirstDefault(cfg, u, ds, env);
    FirstDefaultReads(cfg, u, ds, env) + if k < |ds| then DefaultStrReads(ds[k].value) else {}
  }

  predicate HasDefault(cfg: Config, u: User, ds: seq<Default>, env: Env) {
    FirstDefault(cfg, u, ds, env) < |ds|
  }

  function IntVal(cfg: Config, u: User, i: nat, env: Env): StrResult {
    var d := cfg.Sym(i);
    var vis := env(Vis(i)).t;
    var range := ActiveRange(cfg, u, d, env);
    if UsesUserNumber(u, i, d, vis, range) then
      StrResult(UserStr(UserOf(u, i).value), true)
    else
      StrResult(Clamp(d.typ, range, DefaultText(cfg, u, d.defaults, env)),
                vis != 0 || HasDefault(cfg, u, d.defaults, env))
  }

  function IntReads(cfg: Config, u: User, i: nat, env: Env): set<Attr> {
    var d := cfg.Sym(i);
    {Vis(i)} + ActiveRangeReads(cfg, u, d, env) +
    if UsesUserNumber(u, i, d, env(Vis(i)).t, ActiveRange(cfg, u, d, env)) then {}
    else DefaultTextReads(cfg, u, d.defaults, env)
  }

  function TextVal(cfg: Config, u: User, i: nat, env: Env): StrResult {
    var d := cfg.Sym(i);
    var vis := env(Vis(i)).t;
    if vis != 0 && UserOf(u, i).Some? then StrResult(UserStr(UserOf(u, i).value), true)
    else
      StrResult(DefaultText(cfg, u, d.defaults, env),
                vis != 0 || HasDefault(cfg, u, d.defaults, env))
  }

  function TextReads(cfg: Config, u: User, i: nat, env: Env): set<Attr> {
    {Vis(i)} +
    if env(Vis(i)).t != 0 && UserOf(u, i).Some? then {}
    else DefaultTextReads(cfg, u, cfg.Sym(i).defaults, env)
  }

  /** Symbol.str_value. For bool and tristate symbols the write flag is the one of tri_value. */
  function SymStrVal(cfg: Config, u: User, i: nat, env: Env): StrResult {
    var d := cfg.Sym(i);
    if IsBoolTri(d.typ) then StrResult(TriStr(env(TriV(i)).t), env(TriV(i)).w)
    else if d.typ == UNKNOWN then StrResult(d.name, false)
    else
      var r := if IsIntHex(d.typ) then IntVal(cfg, u, i, env) else TextVal(cfg, u, i, env);
      if d.neverWritten then StrResult(r.val, false) else r
  }

  function SymStrReads(cfg: Config, u: User, i: nat, env: Env): set<Attr> {
    var d := cfg.Sym(i);
    if IsBoolTri(d.typ) then {TriV(i)}
    else if d.typ == UNKNOWN then {}
    else if IsIntHex(d.typ) then IntReads(cfg, u, i, env)
    else TextReads(cfg, u, i, env)
  }

  // ---------- Assignable values ----------

  function SymAsgVal(cfg: Config, u: User, i: nat, env: Env): seq<Tri> {
    var d := cfg.Sym(i);
    var vis := env(Vis(i)).t;
    if !IsBoolTri(d.typ) || vis == 0 then []
    else
      var rev := ExprVal(cfg, u, d.revDep, env);
      if vis == 2 then
        if d.choice.Some? then [2]
        else if rev == 0 then (if PromotesM(cfg, u, i, env) then [0, 2] else [0, 1, 2])
        else if rev == 2 then [2]
        else if PromotesM(cfg, u, i, env) then [2]
        else [1, 2]
      else if rev == 0 then
        (if ExprVal(cfg, u, d.weakRevDep, env) != 2 then [0, 1] else [0, 2])
      else if rev == 2 then [2]
      else [1]
  }

  function SymAsgReads(cfg: Config, u: User, i: nat, env: Env): set<Attr> {
    var d := cfg.Sym(i);
    var vis := env(Vis(i)).t;
    if !IsBoolTri(d.typ) then {}
    else if vis == 0 then {Vis(i)}
    else
      var rev := ExprVal(cfg, u, d.revDep, env);
      {Vis(i)} + ExprReads(cfg, u, d.revDep, env) +
      if vis == 2 then
        (if d.choice.None? && rev != 2 then PromotesMReads(cfg, u, i, env) else {})
      else
        (if rev == 0 then ExprReads(cfg, u, d.weakRevDep, env) else {})
  }

  function ChoiceAsgVal(cfg: Config, c: nat, env: Env): seq<Tri> {
    var d := cfg.Choice(c);
    var vis := env(CVis(c)).t;
    if vis == 0 then []
    else if vis == 2 then
      if !d.isOptional then (if ChoiceTypeOf(cfg, c, env) == BOOL then [2] else [1, 2])
      else (if ChoiceTypeOf(cfg, c, env) == BOOL then [0, 2] else [0, 1, 2])
    else if d.isOptional then [0, 1]
    else [1]
  }

  function ChoiceAsgReads(cfg: Config, c: nat, env: Env): set<Attr> {
    {CVis(c)} +
    if env(CVis(c)).t == 2 && cfg.Choice(c).typ == TRISTATE then {TriV(cfg.modules)} else {}
  }

  // ---------- Choice selection ----------

  function FirstVisible(ss: seq<nat>, env: Env): Option<nat> {
    if ss == [] then None
    else if env(Vis(ss[0])).t != 0 then Some(ss[0])
    else FirstVisible(ss[1..], env)
  }

  function FirstVisibleReads(ss: seq<nat>, env: Env): set<Attr> {
    if ss == [] then {}
    else {Vis(ss[0])} + if env(Vis(ss[0])).t != 0 then {} else FirstVisibleReads(ss[1..], env)
  }

  predicate UsableDefault(cfg: Config, u: User, d: ChoiceDefault, env: Env) {
    ExprVal(cfg, u, d.cond, env) != 0 && env(Vis(d.sym)).t != 0
  }

  function UsableDefaultReads(cfg: Config, u: User, d: ChoiceDefault, env: Env): set<Attr> {
    ExprReads(cfg, u, d.cond, env) +
    if ExprVal(cfg, u, d.cond, env) != 0 then {Vis(d.sym)} else {}
  }

  /** Choice._selection_from_defaults() */
  function SelectionFromDefaults(cfg: Config, u: User, ds: seq<ChoiceDefault>, ss: seq<nat>, env: Env): Option<nat> {
    if ds == [] then FirstVisible(ss, env)
    else if UsableDefault(cfg, u, ds[0], env) then Some(ds[0].sym)
    else SelectionFromDefaults(cfg, u, ds[1..], ss, env)
  }

  function SelectionFromDefaultsReads(cfg: Config, u: User, ds: seq<ChoiceDefault>, ss: seq<nat>, env: Env): set<Attr> {
    if ds == [] then FirstVisibleReads(ss, env)
    else
      UsableDefaultReads(cfg, u, ds[0], env) +
      if UsableDefault(cfg, u, ds[0], env) then {}
      else SelectionFromDefaultsReads(cfg, u, ds[1..], ss, env)
  }

  /** Choice.selection */
  function ChoiceSelVal(cfg: Config, u: User, c: nat, env: Env): Option<nat> {
    var d := cfg.Choice(c);
    if ChoiceTri(cfg, u, c, env) != 2 then None
    else if SelectionOf(u, c).Some? && env(Vis(SelectionOf(u, c).value)).t != 0 then SelectionOf(u, c)
    else SelectionFromDefaults(cfg, u, d.defaults, d.syms, env)
  }

  function ChoiceSelReads(cfg: Config, u: User, c: nat, env: Env): set<Attr> {
    var d := cfg.Choice(c);
    var sel := SelectionOf(u, c);
    ChoiceTriReads(cfg, u, c, env) +
    if ChoiceTri(cfg, u, c, env) != 2 then {}
    else
      (if sel.Some? then {Vis(sel.value)} else {}) +
      if sel.Some? && env(Vis(sel.value)).t != 0 then {}
      else SelectionFromDefaultsReads(cfg, u, d.defaults, d.syms, env)
  }

  // ---------- One step ----------

  function Step(cfg: Config, u: User, a: Attr, env: Env): Val {
    match a
    case Vis(i) => NO_VAL.(t := SymVisVal(cfg, u, i, env))
    case TriV(i) => var r := SymTriVal(cfg, u, i, env); NO_VAL.(t := r.val, w := r.write)
    case StrV(i) => var r := SymStrVal(cfg, u, i, env); NO_VAL.(s := r.val, w := r.write)
    case Asg(i) => NO_VAL.(asg := SymAsgVal(cfg, u, i, env))
    case CVis(c) => NO_VAL.(t := ChoiceVisVal(cfg, u, c, env))
    case CSel(c) => NO_VAL.(sel := ChoiceSelVal(cfg, u, c, env))
    case CAsg(c) => NO_VAL.(asg := ChoiceAsgVal(cfg, c, env))
  }

  /** The attributes read to compute `a`. */
  function Reads(cfg: Config, u: User, a: Attr, env: Env): set<Attr> {
    match a
    case Vis(i) => SymVisReads(cfg, u, i, env)
    case TriV(i) => SymTriReads(cfg, u, i, env)
    case StrV(i) => SymStrReads(cfg, u, i, env)
    case Asg(i) => SymAsgReads(cfg, u, i, env)
    case CVis(c) => ChoiceVisReads(cfg, u, c, env)
    case CSel(c) => ChoiceSelReads(cfg, u, c, env)
    case CAsg(c) => ChoiceAsgReads(cfg, c, env)
  }
}
