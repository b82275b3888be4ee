/** The range clamp of int and hex symbols. */
module Ranges {
  import opened Types
  import opened Numbers
  import opened Semantics
  import opened Evaluation
  import opened Caching
  import opened UserInput

  /** The range in effect for symbol i, if any. */
  ghost function RangeInEffect(cfg: Config, u: User, i: nat): Option<(int, int)>
    requires Acyclic(cfg)
  {
    ActiveRange(cfg, u, cfg.Sym(i), EnvOf(cfg, u))
  }

  /** The numeric reading of the value of symbol i; empty and malformed values count as 0. */
  ghost function NumericValue(cfg: Config, u: User, i: nat): int
    requires Acyclic(cfg)
  {
    NumOrZero(Eval(cfg, u, StrV(i)).s, BaseOf(cfg.Sym(i).typ))
  }

  /** A clamped value reads as the bound it was clamped to. */
  lemma ClampedNumber(typ: SType, low: int, high: int, val: string)
    requires IsIntHex(typ)
    ensures var n := NumOrZero(val, BaseOf(typ));
            NumOrZero(Clamp(typ, Some((low, high)), val), BaseOf(typ)) ==
            if n < low then low else if n > high then high else n
  {
    hide ParseInt, NumStr;
    PrintParseNumber(typ, low);
    PrintParseNumber(typ, high);
  }

  /** With an active range, the value of an int or hex symbol is in the range, whatever the
      user assigned and whatever the defaults are, exactly if the range is not empty. */
  lemma InRange(cfg: Config, u: User, i: nat)
    requires ConfigOK(cfg) && UserOK(cfg, u) && i < |cfg.syms| && IsIntHex(cfg.syms[i].typ)
    requires RangeInEffect(cfg, u, i).Some?
    ensures var (low, high) := RangeInEffect(cfg, u, i).value;
            low <= NumericValue(cfg, u, i) <= high <==> low <= high
  {
    hide ActiveRange, ParseInt, DefaultText;
    EvalStep(cfg, u, StrV(i));
    var (low, high) := RangeInEffect(cfg, u, i).value;
    ClampedNumber(cfg.syms[i].typ, low, high, DefaultText(cfg, u, cfg.syms[i].defaults, EnvOf(cfg, u)));
  }

  /** The user state without an assignment to symbol i. */
  function Without(u: User, i: nat): User {
    u.(sym := u.sym - {i})
  }

  lemma WithoutSame(cfg: Config, u: User, i: nat)
    requires ConfigOK(cfg) && UserOK(cfg, u) && i < |cfg.syms| && IsIntHex(cfg.syms[i].typ)
    ensures UserOK(cfg, Without(u, i)) && SameBelow(cfg, u, Without(u, i), StrV(i))
  {
    hide Eval, ConfigOK, ValidValue;
  }

  /** The value assigned to a number symbol cannot affect what the symbol itself reads. */
  lemma StepWithout(cfg: Config, u: User, i: nat)
    requires ConfigOK(cfg) && UserOK(cfg, u) && i < |cfg.syms| && IsIntHex(cfg.syms[i].typ)
    ensures Eval(cfg, Without(u, i), StrV(i)) == Step(cfg, Without(u, i), StrV(i), EnvOf(cfg, u))
  {
    WithoutSame(cfg, u, i);
    hide Step, Reads, Eval, ConfigOK, UserOK, SameBelow;
    StepUnaffected(cfg, u, Without(u, i), StrV(i));
  }

  /** A value the user assigned is kept exactly as written if the symbol is visible and the
      number is in range; otherwise the value is the one without the assignment. */
  lemma UserNumberOrDefault(cfg: Config, u: User, i: nat)
    requires ConfigOK(cfg) && UserOK(cfg, u) && i < |cfg.syms| && IsIntHex(cfg.syms[i].typ)
    requires i in u.sym
    ensures var text := UserStr(u.sym[i]);
            var kept := Eval(cfg, u, Vis(i)).t != 0 &&
                        !OutsideRange(RangeInEffect(cfg, u, i), NumOrZero(text, BaseOf(cfg.syms[i].typ)));
            Eval(cfg, u, StrV(i)).s == if kept then text else Eval(cfg, Without(u, i), StrV(i)).s
  {
    hide ActiveRange, NumOrZero, DefaultText, HasDefault, ValidValue;
    var u', env := Without(u, i), EnvOf(cfg, u);
    EvalStep(cfg, u, StrV(i));
    StepWithout(cfg, u, i);
    AssignedNumber(cfg, u, i);
    SameActiveRange(cfg, u, u', cfg.syms[i], env);
    SameFirstDefault(cfg, u, u', cfg.syms[i].defaults, env);
  }

  lemma AssignedNumber(cfg: Config, u: User, i: nat)
    requires UserOK(cfg, u) && i in u.sym && IsIntHex(cfg.Sym(i).typ)
    ensures UserStr(u.sym[i]) != ""
  {
    NotEmpty(cfg.syms[i].typ, u.sym[i]);
  }

  lemma NotEmpty(typ: SType, v: UVal)
    requires IsIntHex(typ) && ValidValue(typ, v)
    ensures v.UStr? && UserStr(v) != ""
  {
    assert StripRight("") == "";
    assert ParseInt("", 10).None? && ParseInt("", 16).None?;
  }
}
