/** The static configuration (symbols, choices and their properties after the
    menu tree has been finalised), the user's assignments, and the cached
    attributes the evaluator computes from both.

    Symbols and choices are referred to by their index in the configuration. */
module Types {

  datatype Option<+T> = None | Some(value: T)

  /** n, m and y as 0, 1 and 2. */
  type Tri = x: int | 0 <= x <= 2

  datatype SType = UNKNOWN | BOOL | TRISTATE | STRING | INT | HEX

  datatype RelOp = EQUAL | UNEQUAL | LESS | LESS_EQUAL | GREATER | GREATER_EQUAL

  datatype Expr =
    | SymE(s: nat)
    | ChoiceE(c: nat)
    | And(l: Expr, r: Expr)
    | Or(l: Expr, r: Expr)
    | Not(e: Expr)
    | Rel(op: RelOp, a: nat, b: nat)

  datatype Default = Default(value: Expr, cond: Expr)

  datatype RangeDef = RangeDef(low: nat, high: nat, cond: Expr)

  /** `prompts` holds the conditions of the menu nodes that have a prompt.
      `constTri` is set on the constant symbols n, m and y only.
      `neverWritten` marks 'option env' symbols and the defconfig_list symbol. */
  datatype SymDef = SymDef(
    name: string,
    typ: SType,
    constTri: Option<Tri>,
    isConstant: bool,
    defined: bool,
    prompts: seq<Expr>,
    defaults: seq<Default>,
    ranges: seq<RangeDef>,
    revDep: Expr,
    weakRevDep: Expr,
    directDep: Expr,
    choice: Option<nat>,
    neverWritten: bool)

  datatype ChoiceDefault = ChoiceDefault(sym: nat, cond: Expr)

  datatype ChoiceDef = ChoiceDef(
    typ: SType,
    isOptional: bool,
    prompts: seq<Expr>,
    defaults: seq<ChoiceDefault>,
    syms: seq<nat>)

  /** `n` and `modules` are the indices of the constant symbol n and of MODULES. */
  datatype Config = Config(
    syms: seq<SymDef>,
    choices: seq<ChoiceDef>,
    n: nat,
    modules: nat)
  {
    function Sym(i: nat): SymDef {
      if i < |syms| then syms[i] else NO_SYM
    }

    function Choice(c: nat): ChoiceDef {
      if c < |choices| then choices[c] else NO_CHOICE
    }
  }

  const NO_SYM := SymDef("", UNKNOWN, None, false, false, [], [], [],
                         SymE(0), SymE(0), SymE(0), None, false)

  /** One of the constant symbols n, m and y. The constant n is the first symbol. */
  function Constant(name: string, t: Tri): SymDef {
    SymDef(name, TRISTATE, Some(t), true, false, [], [], [], SymE(0), SymE(0), SymE(0), None, false)
  }

  const NO_CHOICE := ChoiceDef(UNKNOWN, false, [], [], [])

  /** A value given to set_value(): a tristate number or a string. */
  datatype UVal = UTri(t: Tri) | UStr(s: string)

  /** What the user has assigned: symbol values, choice modes and choice selections.
      An absent key is Python's None. */
  datatype User = User(sym: map<nat, UVal>, mode: map<nat, Tri>, selection: map<nat, nat>)

  /** A symbol or a choice. */
  datatype Ref = S(i: nat) | C(c: nat)

  /** The cached attributes of symbols and choices. */
  datatype Attr =
    | Vis(i: nat)
    | TriV(i: nat)
    | StrV(i: nat)
    | Asg(i: nat)
    | CVis(c: nat)
    | CSel(c: nat)
    | CAsg(c: nat)

  /** The value of an attribute. Each attribute uses the component(s) of its kind:
      `t` and `s` the tristate and string values, `w` the flag _write_to_conf that is
      computed along with a symbol's value. */
  datatype Val = Val(t: Tri, s: string, w: bool, sel: Option<nat>, asg: seq<Tri>)

  const NO_VAL := Val(0, "", false, None, [])

  function ItemOf(a: Attr): Ref {
    match a
    case Vis(i) => S(i)
    case TriV(i) => S(i)
    case StrV(i) => S(i)
    case Asg(i) => S(i)
    case CVis(c) => C(c)
    case CSel(c) => C(c)
    case CAsg(c) => C(c)
  }

  function VisOf(x: Ref): Attr {
    match x
    case S(i) => Vis(i)
    case C(c) => CVis(c)
  }

  function UserOf(u: User, i: nat): Option<UVal> {
    if i in u.sym then Some(u.sym[i]) else None
  }

  function ModeOf(u: User, c: nat): Option<Tri> {
    if c in u.mode then Some(u.mode[c]) else None
  }

  function SelectionOf(u: User, c: nat): Option<nat> {
    if c in u.selection then Some(u.selection[c]) else None
  }

  predicate IsBoolTri(t: SType) {
    t == BOOL || t == TRISTATE
  }

  predicate IsIntHex(t: SType) {
    t == INT || t == HEX
  }

  function Min(x: Tri, y: Tri): Tri {
    if x <= y then x else y
  }

  function Max(x: Tri, y: Tri): Tri {
    if x >= y then x else y
  }

  function TriStr(t: Tri): string {
    if t == 0 then "n" else if t == 1 then "m" else "y"
  }
}
