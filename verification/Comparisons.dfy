/** What relations between symbols mean: numbers are compared as numbers, and strings, or what is
    not a number, in lexicographic order. */
module Comparisons {
  import opened Types
  import opened Numbers
  import opened Semantics
  import opened Evaluation
  import opened Caching

  // ---------- Strings ----------

  /** s comes before t: after a common prefix it ends or has a smaller character. */
  ghost predicate ComesBefore(s: string, t: string) {
    exists k: nat :: SmallerAt(s, t, k)
  }

  predicate SmallerAt(s: string, t: string, k: nat) {
    && k <= |s| && k < |t| && s[..k] == t[..k]
    && (k == |s| || s[k] < t[k])
  }

  lemma {:induction false} StrcmpMeaning(s: string, t: string)
    ensures Strcmp(s, t) == 0 <==> s == t
    ensures Strcmp(s, t) < 0 <==> ComesBefore(s, t)
    ensures Strcmp(s, t) > 0 <==> ComesBefore(t, s)
  {
    if s != [] && t != [] && s[0] == t[0] {
      StrcmpMeaning(s[1..], t[1..]);
      SameFirst(s, t);
      SameFirst(t, s);
      assert s == [s[0]] + s[1..] && t == [t[0]] + t[1..];
    } else {
      DifferentFirst(s, t);
      DifferentFirst(t, s);
    }
  }

  lemma SameFirst(s: string, t: string)
    requires s != [] && t != [] && s[0] == t[0]
    ensures ComesBefore(s, t) <==> ComesBefore(s[1..], t[1..])
  {
    if ComesBefore(s, t) {
      var k: nat :| SmallerAt(s, t, k);
      assert k > 0;
      assert s[1..][..k - 1] == s[..k][1..] && t[1..][..k - 1] == t[..k][1..];
      assert SmallerAt(s[1..], t[1..], k - 1);
    }
    if ComesBefore(s[1..], t[1..]) {
      var k: nat :| SmallerAt(s[1..], t[1..], k);
      assert s[..k + 1] == [s[0]] + s[1..][..k] && t[..k + 1] == [t[0]] + t[1..][..k];
      assert SmallerAt(s, t, k + 1);
    }
  }

  lemma DifferentFirst(s: string, t: string)
    requires s == [] || t == [] || s[0] != t[0]
    ensures ComesBefore(s, t) <==> t != [] && (s == [] || s[0] < t[0])
  {
    if ComesBefore(s, t) {
      var k: nat :| SmallerAt(s, t, k);
      PrefixFirst(s, t, k);
    }
    if t != [] && (s == [] || s[0] < t[0]) {
      assert SmallerAt(s, t, 0);
    }
  }

  lemma PrefixFirst(s: string, t: string, k: nat)
    requires SmallerAt(s, t, k)
    ensures k > 0 ==> s != [] && s[0] == t[0]
  {
    assert k > 0 ==> s[..k][0] == t[..k][0];
  }

  // ---------- Numbers ----------

  /** The number that a value of symbol s counts as: 0, 1 or 2 for n, m and y, and otherwise the
      number that the string is, if it is one, in the base of the type. */
  ghost predicate CountsAs(cfg: Config, s: nat, env: Env, x: int) {
    if IsBoolTri(cfg.Sym(s).typ) then env(TriV(s)).t == x
    else ParseInt(env(StrV(s)).s, if cfg.Sym(s).typ == INT then 10 else if cfg.Sym(s).typ == HEX then 16 else 0) == Some(x)
  }

  predicate BothStrings(cfg: Config, a: nat, b: nat) {
    cfg.Sym(a).typ == STRING && cfg.Sym(b).typ == STRING
  }

  /** Symbols that are not both strings and have numbers as values are compared as numbers. */
  lemma RelationOfNumbers(cfg: Config, u: User, op: RelOp, a: nat, b: nat, env: Env, x: int, y: int)
    requires !BothStrings(cfg, a, b) && CountsAs(cfg, a, env, x) && CountsAs(cfg, b, env, y)
    ensures var v := ExprVal(cfg, u, Rel(op, a, b), env);
            && (v == 0 || v == 2)
            && (op == EQUAL ==> (v == 2 <==> x == y)) && (op == UNEQUAL ==> (v == 2 <==> x != y))
            && (op == LESS ==> (v == 2 <==> x < y)) && (op == LESS_EQUAL ==> (v == 2 <==> x <= y))
            && (op == GREATER ==> (v == 2 <==> x > y)) && (op == GREATER_EQUAL ==> (v == 2 <==> x >= y))
  {
    hide ParseInt, Strcmp;
  }

  /** Two strings, and values of which one is not a number, are compared as strings. */
  lemma RelationOfStrings(cfg: Config, u: User, op: RelOp, a: nat, b: nat, env: Env)
    requires BothStrings(cfg, a, b) || !(exists x :: CountsAs(cfg, a, env, x)) || !(exists y :: CountsAs(cfg, b, env, y))
    ensures var v, s, t := ExprVal(cfg, u, Rel(op, a, b), env), env(StrV(a)).s, env(StrV(b)).s;
            && (v == 0 || v == 2)
            && (op == EQUAL ==> (v == 2 <==> s == t)) && (op == UNEQUAL ==> (v == 2 <==> s != t))
            && (op == LESS ==> (v == 2 <==> ComesBefore(s, t)))
            && (op == LESS_EQUAL ==> (v == 2 <==> s == t || ComesBefore(s, t)))
            && (op == GREATER ==> (v == 2 <==> ComesBefore(t, s)))
            && (op == GREATER_EQUAL ==> (v == 2 <==> s == t || ComesBefore(t, s)))
  {
    StrcmpMeaning(env(StrV(a)).s, env(StrV(b)).s);
    NumberOrNone(cfg, a, env);
    NumberOrNone(cfg, b, env);
    hide ParseInt, Strcmp, ComesBefore, CountsAs, SymToNum;
  }

  lemma NumberOrNone(cfg: Config, s: nat, env: Env)
    ensures SymToNum(cfg, s, env).Some? ==> CountsAs(cfg, s, env, SymToNum(cfg, s, env).value)
  {
    hide ParseInt;
  }

  // ---------- Numbers as they are written ----------

  lemma {:induction false} DigitsFirst(n: nat)
    ensures Digits(n, 10)[0] == '0' ==> n == 0
    ensures |Digits(n, 10)| >= 2 ==> '0' <= Digits(n, 10)[1] <= '9'
  {
    if n >= 10 {
      Quotient(n, 10);
      DigitsFirst(n / 10);
    }
  }

  /** A decimal number is read as such where the base is inferred from the text. */
  lemma ParseDecStrAuto(n: int)
    ensures ParseInt(DecStr(n), 0) == Some(n)
  {
    var m: nat := if n < 0 then -n else n;
    DigitsArePlain(m, 10);
    DigitsFirst(m);
    ReadDigitsOfNumber(m, 10);
    assert ReadUnsigned(Digits(m, 10), 0) == Some(m) by {
      hide ReadDigits, Digits;
    }
    hide ReadUnsigned, ParseInt, Digits, ReadDigits;
    ParseSigned(Digits(m, 10), n < 0, 0, m);
  }

  /** The constant y in X < y, where y is written as a decimal number, is the number. */
  lemma ConstantCountsAs(cfg: Config, u: User, s: nat, y: int)
    requires Acyclic(cfg) && HasN(cfg) && UserOK(cfg, u)
    requires cfg.Sym(s).typ == UNKNOWN && cfg.Sym(s).name == DecStr(y)
    ensures CountsAs(cfg, s, EnvOf(cfg, u), y)
  {
    hide Eval, ParseInt, DecStr;
    EvalStep(cfg, u, StrV(s));
    ParseDecStrAuto(y);
  }

  /** A relation between an int symbol and a decimal constant compares the numbers. */
  lemma IntAndConstant(cfg: Config, u: User, op: RelOp, a: nat, b: nat, x: int, y: int)
    requires Acyclic(cfg) && HasN(cfg) && UserOK(cfg, u)
    requires cfg.Sym(a).typ == INT && Eval(cfg, u, StrV(a)).s == DecStr(x)
    requires cfg.Sym(b).typ == UNKNOWN && cfg.Sym(b).name == DecStr(y)
    ensures ExprVal(cfg, u, Rel(op, a, b), EnvOf(cfg, u)) ==
            if (op == EQUAL && x == y) || (op == UNEQUAL && x != y) || (op == LESS && x < y)
               || (op == LESS_EQUAL && x <= y) || (op == GREATER && x > y) || (op == GREATER_EQUAL && x >= y)
            then 2 else 0
  {
    hide Eval, ParseInt, DecStr, ExprVal;
    ConstantCountsAs(cfg, u, b, y);
    ParseDecStr(x);
    RelationOfNumbers(cfg, u, op, a, b, EnvOf(cfg, u), x, y);
  }
}
