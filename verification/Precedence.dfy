/** How expressions without parentheses are read. */
module Precedence {
  import opened Types
  import opened ExprParser

  /** The tokens p, before anything but a relation, are the factor e. */
  ghost predicate IsFactor(k: Mode, p: seq<Token>, e: Expr) {
    forall ts :: FactorThen(k, p, e, ts)
  }

  predicate FactorThen(k: Mode, p: seq<Token>, e: Expr, ts: seq<Token>) {
    ts != [] && !ts[0].RelT? ==> ParseFactor(k, p + ts) == Some((e, ts))
  }

  /** Neither an operator nor a relation comes next. */
  predicate EndsHere(ts: seq<Token>) {
    ts != [] && !ts[0].RelT? && ts[0] != AndT && ts[0] != OrT
  }

  lemma ReadFactor(k: Mode, p: seq<Token>, e: Expr, ts: seq<Token>)
    requires IsFactor(k, p, e) && ts != [] && !ts[0].RelT?
    ensures ParseFactor(k, p + ts) == Some((e, ts))
  {
    hide ParseFactor;
    assert FactorThen(k, p, e, ts);
  }

  lemma ReadAnd(k: Mode, a: seq<Token>, x: Expr, ts: seq<Token>)
    requires IsFactor(k, a, x) && ts != [] && !ts[0].RelT?
    ensures ts[0] != AndT ==> ParseAnd(k, a + ts) == Some((x, ts))
    ensures ts[0] == AndT ==>
              ParseAnd(k, a + ts) == var r := ParseAnd(k, ts[1..]); if r.None? then None else Some((And(x, r.value.0), r.value.1))
  {
    ReadFactor(k, a, x, ts);
    hide ParseFactor, IsFactor;
  }

  lemma ReadOr(k: Mode, p: seq<Token>, x: Expr, ts: seq<Token>)
    requires ParseAnd(k, p) == Some((x, ts)) && ts != []
    ensures ts[0] != OrT ==> ParseOr(k, p) == Some((x, ts))
    ensures ts[0] == OrT ==>
              ParseOr(k, p) == var r := ParseOr(k, ts[1..]); if r.None? then None else Some((Or(x, r.value.0), r.value.1))
  {
    hide ParseAnd;
  }

  /** a && b && c */
  lemma AndRuns(k: Mode, a: seq<Token>, x: Expr, b: seq<Token>, y: Expr, ts: seq<Token>)
    requires IsFactor(k, a, x) && IsFactor(k, b, y) && ts != [] && !ts[0].RelT? && ts[0] != AndT
    ensures ParseAnd(k, a + ([AndT] + (b + ts))) == Some((And(x, y), ts))
  {
    hide ParseFactor, ParseAnd, IsFactor;
    ReadAnd(k, b, y, ts);
    ReadAnd(k, a, x, [AndT] + (b + ts));
    assert ([AndT] + (b + ts))[1..] == b + ts;
  }

  /** && binds tighter than ||, and both group to the right. */
  lemma Operators(k: Mode, a: seq<Token>, x: Expr, b: seq<Token>, y: Expr, c: seq<Token>, z: Expr, ts: seq<Token>)
    requires IsFactor(k, a, x) && IsFactor(k, b, y) && IsFactor(k, c, z) && EndsHere(ts)
    ensures ParseOr(k, a + ([OrT] + (b + ([AndT] + (c + ts))))) == Some((Or(x, And(y, z)), ts))
    ensures ParseOr(k, a + ([AndT] + (b + ([OrT] + (c + ts))))) == Some((Or(And(x, y), z), ts))
    ensures ParseOr(k, a + ([OrT] + (b + ([OrT] + (c + ts))))) == Some((Or(x, Or(y, z)), ts))
    ensures ParseOr(k, a + ([AndT] + (b + ([AndT] + (c + ts))))) == Some((And(x, And(y, z)), ts))
  {
    hide ParseFactor, ParseAnd, ParseOr, IsFactor;
    var orC, andC := [OrT] + (c + ts), [AndT] + (c + ts);
    var orB, andB := [OrT] + (b + andC), [AndT] + (b + orC);
    var orOr, andAnd := [OrT] + (b + orC), [AndT] + (b + andC);
    assert orC[1..] == c + ts && andC[1..] == c + ts;
    assert orB[1..] == b + andC && andB[1..] == b + orC && orOr[1..] == b + orC && andAnd[1..] == b + andC;
    ReadAnd(k, c, z, ts);
    ReadOr(k, c + ts, z, ts);
    AndRuns(k, b, y, c, z, ts);
    ReadOr(k, b + andC, And(y, z), ts);
    ReadAnd(k, a, x, orB);
    ReadOr(k, a + orB, x, orB);
    AndRuns(k, a, x, b, y, orC);
    ReadOr(k, a + andB, And(x, y), orC);
    ReadAnd(k, b, y, orC);
    ReadOr(k, b + orC, y, orC);
    ReadAnd(k, a, x, orOr);
    ReadOr(k, a + orOr, x, orOr);
    ReadAnd(k, a, x, andAnd);
    ReadOr(k, a + andAnd, And(x, And(y, z)), ts);
  }

  /** Factors: symbols, with m standing for m && MODULES where this is asked for; relations, whose
      operands stay as they are; negations, which reach as far as the next factor; and whatever
      stands in parentheses. */
  lemma Factors(k: Mode, s: nat, op: RelOp, s': nat, a: seq<Token>, x: Expr, p: seq<Token>, e: Expr)
    requires IsFactor(k, a, x) && forall ts :: ts != [] && ts[0] == CloseT ==> ParseOr(k, p + ts) == Some((e, ts))
    ensures IsFactor(k, [SymT(s)], if k.transform && s == k.m then And(SymE(k.m), SymE(k.modules)) else SymE(s))
    ensures IsFactor(k, [SymT(s), RelT(op), SymT(s')], Rel(op, s, s'))
    ensures IsFactor(k, [NotT] + a, Not(x))
    ensures IsFactor(k, [OpenT] + p + [CloseT], e)
  {
    forall ts
      ensures FactorThen(k, [SymT(s)], PlainSym(k, s), ts) && FactorThen(k, [SymT(s), RelT(op), SymT(s')], Rel(op, s, s'), ts)
    {
      assert ([SymT(s)] + ts)[1..] == ts && ([SymT(s), RelT(op), SymT(s')] + ts)[3..] == ts;
    }
    forall ts
      ensures FactorThen(k, [NotT] + a, Not(x), ts)
    {
      NotFactor(k, a, x, ts);
    }
    forall ts
      ensures FactorThen(k, [OpenT] + p + [CloseT], e, ts)
    {
      ParenFactor(k, p, e, ts);
    }
    hide ParseFactor, FactorThen;
  }

  lemma NotFactor(k: Mode, a: seq<Token>, x: Expr, ts: seq<Token>)
    requires IsFactor(k, a, x)
    ensures FactorThen(k, [NotT] + a, Not(x), ts)
  {
    assert FactorThen(k, a, x, ts);
    assert ([NotT] + a + ts)[1..] == a + ts;
    hide IsFactor;
  }

  lemma ParenFactor(k: Mode, p: seq<Token>, e: Expr, ts: seq<Token>)
    requires forall ts :: ts != [] && ts[0] == CloseT ==> ParseOr(k, p + ts) == Some((e, ts))
    ensures FactorThen(k, [OpenT] + p + [CloseT], e, ts)
  {
    hide ParseOr;
    assert ([OpenT] + p + [CloseT] + ts)[1..] == p + ([CloseT] + ts);
    assert ([CloseT] + ts)[1..] == ts;
  }

  /** What is not an expression: a relation without a symbol behind it, a parenthesis that is not
      closed, and anything that no factor begins with. */
  lemma Malformed(k: Mode, s: nat, op: RelOp, p: seq<Token>, e: Expr, ts: seq<Token>)
    requires ts != []
    ensures !ts[0].SymT? ==> ParseFactor(k, [SymT(s), RelT(op)] + ts) == None
    ensures ParseOr(k, p + ts) == Some((e, ts)) && ts[0] != CloseT ==> ParseFactor(k, [OpenT] + (p + ts)) == None
    ensures !ts[0].SymT? && ts[0] != NotT && ts[0] != OpenT ==> ParseOr(k, ts) == None
  {
    assert ([OpenT] + (p + ts))[1..] == p + ts;
    assert ParseFactor(k, ts) == None ==> ParseAnd(k, ts) == None;
    var rel := [SymT(s), RelT(op)] + ts;
    assert rel[2] == ts[0];
  }
}
