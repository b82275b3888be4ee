/** The configuration engine: symbol and choice objects whose cached values are filled
    on demand and invalidated on assignment.

    The ghost fields `user`, `flags` and `cache` of Kconfig give the abstract state the
    object fields stand for. `Valid` includes the cache invariant, so every method shows
    that cached values agree with plain recursive evaluation. */
module Engine {
  import opened Types
  import opened Numbers
  import opened Semantics
  import opened Evaluation
  import opened Caching
  import opened Updates

  class Symbol {
    var userValue: Option<UVal>
    var cachedVis: Option<Tri>
    var cachedTri: Option<Tri>
    var cachedStr: Option<string>
    var cachedAsg: Option<seq<Tri>>
    var writeToConf: bool
    var wasSet: bool
    var dependents: set<Ref>

    constructor ()
      ensures userValue == None && cachedVis == None && cachedTri == None
      ensures cachedStr == None && cachedAsg == None
      ensures !writeToConf && !wasSet && dependents == {}
    {
      userValue, cachedVis, cachedTri, cachedStr, cachedAsg := None, None, None, None, None;
      writeToConf, wasSet, dependents := false, false, {};
    }
  }

  class Choice {
    var userValue: Option<Tri>
    var userSelection: Option<nat>
    var cachedVis: Option<Tri>
    var cachedAsg: Option<seq<Tri>>
    var cachedSel: Option<Option<nat>>
    var wasSet: bool
    var dependents: set<Ref>

    constructor ()
      ensures userValue == None && userSelection == None
      ensures cachedVis == None && cachedAsg == None && cachedSel == None
      ensures !wasSet && dependents == {}
    {
      userValue, userSelection, cachedVis, cachedAsg, cachedSel := None, None, None, None, None;
      wasSet, dependents := false, {};
    }
  }

  // ---------- The properties of an item, one at a time ----------

  lemma {:induction false} PromptMember(cfg: Config, ps: seq<Expr>, k: nat)
    requires k < |ps|
    ensures ExprAttrs(cfg, ps[k]) <= PromptAttrs(cfg, ps)
    ensures ExprItems(ps[k]) <= PromptItems(ps)
  {
    if k > 0 {
      PromptMember(cfg, ps[1..], k - 1);
    }
  }

  lemma {:induction false} DefaultMember(cfg: Config, ds: seq<Default>, k: nat)
    requires k < |ds|
    ensures ExprAttrs(cfg, ds[k].cond) + ExprAttrs(cfg, ds[k].value) <= DefaultAttrs(cfg, ds)
    ensures ExprAttrs(cfg, ds[k].cond) + DefaultStrReads(ds[k].value) <= DefaultStrAttrs(cfg, ds)
    ensures ExprItems(ds[k].cond) + ExprItems(ds[k].value) <= DefaultItems(ds)
  {
    if k > 0 {
      DefaultMember(cfg, ds[1..], k - 1);
    }
  }

  lemma {:induction false} RangeMember(cfg: Config, rs: seq<RangeDef>, k: nat)
    requires k < |rs|
    ensures ExprAttrs(cfg, rs[k].cond) + {StrV(rs[k].low), StrV(rs[k].high)} <= RangeAttrs(cfg, rs)
    ensures ExprItems(rs[k].cond) + {S(rs[k].low), S(rs[k].high)} <= RangeItems(rs)
  {
    if k > 0 {
      RangeMember(cfg, rs[1..], k - 1);
    }
  }

  lemma {:induction false} ChoiceDefaultMember(cfg: Config, ds: seq<ChoiceDefault>, k: nat)
    requires k < |ds|
    ensures ExprAttrs(cfg, ds[k].cond) + {Vis(ds[k].sym)} <= ChoiceDefaultAttrs(cfg, ds)
    ensures ExprItems(ds[k].cond) <= ChoiceDefaultItems(ds)
  {
    if k > 0 {
      ChoiceDefaultMember(cfg, ds[1..], k - 1);
    }
  }

  // ---------- The engine ----------

  /** What a cached field holds according to the abstract cache. */
  function CachedTri(cache: Cache, a: Attr): Option<Tri> {
    if a in cache then Some(cache[a].t) else None
  }

  function CachedStr(cache: Cache, a: Attr): Option<string> {
    if a in cache then Some(cache[a].s) else None
  }

  function CachedAsg(cache: Cache, a: Attr): Option<seq<Tri>> {
    if a in cache then Some(cache[a].asg) else None
  }

  function CachedSel(cache: Cache, a: Attr): Option<Option<nat>> {
    if a in cache then Some(cache[a].sel) else None
  }

  /** Evaluation only adds to the cache. */
  ghost predicate Grows(before: Cache, after: Cache) {
    forall a :: a in before ==> a in after
  }

  // ---------- New objects ----------

  /** The preset values of n, m and y. */
  ghost function ConstantCache(cfg: Config): Cache {
    map i | 0 <= i < |cfg.syms| && cfg.syms[i].constTri.Some? :: TriV(i) := NO_VAL.(t := cfg.syms[i].constTri.value)
  }

  lemma ConstantCacheOK(cfg: Config)
    requires ConfigOK(cfg)
    ensures UserOK(cfg, User(map[], map[], map[]))
    ensures CacheOK(cfg, User(map[], map[], map[]), ConstantCache(cfg))
  {
    var u := User(map[], map[], map[]);
    forall a | a in ConstantCache(cfg)
      ensures ConstantCache(cfg)[a] == Eval(cfg, u, a) && Reads(cfg, u, a, EnvOf(cfg, u)) == {}
    {
      EvalStep(cfg, u, a);
    }
  }

  ghost predicate BlankSyms(cfg: Config, ss: seq<Symbol>)
    reads ss
  {
    && |ss| <= |cfg.syms|
    && (forall i :: 0 <= i < |ss| ==>
          && ss[i].userValue == None && ss[i].cachedVis == None && ss[i].cachedStr == None
          && ss[i].cachedAsg == None && ss[i].cachedTri == cfg.syms[i].constTri
          && !ss[i].writeToConf && !ss[i].wasSet && ss[i].dependents == {})
  }

  ghost predicate BlankChoices(cs: seq<Choice>)
    reads cs
  {
    forall c :: 0 <= c < |cs| ==>
      && cs[c].userValue == None && cs[c].userSelection == None && cs[c].cachedVis == None
      && cs[c].cachedAsg == None && cs[c].cachedSel == None
      && !cs[c].wasSet && cs[c].dependents == {}
  }

  /** One object per symbol; n, m and y get their value at once. */
  method NewSymbols(cfg: Config) returns (ss: seq<Symbol>)
    ensures |ss| == |cfg.syms| && BlankSyms(cfg, ss)
    ensures forall i :: 0 <= i < |ss| ==> fresh(ss[i])
    ensures forall i, j :: 0 <= i < j < |ss| ==> ss[i] != ss[j]
  {
    ss := [];
    while |ss| < |cfg.syms|
      invariant |ss| <= |cfg.syms| && BlankSyms(cfg, ss)
      invariant forall i :: 0 <= i < |ss| ==> fresh(ss[i])
      invariant forall i, j :: 0 <= i < j < |ss| ==> ss[i] != ss[j]
    {
      var s := new Symbol();
      s.cachedTri := cfg.syms[|ss|].constTri;
      ss := ss + [s];
    }
  }

  method NewChoices(cfg: Config) returns (cs: seq<Choice>)
    ensures |cs| == |cfg.choices| && BlankChoices(cs)
    ensures forall c :: 0 <= c < |cs| ==> fresh(cs[c])
    ensures forall i, j :: 0 <= i < j < |cs| ==> cs[i] != cs[j]
  {
    cs := [];
    while |cs| < |cfg.choices|
      invariant |cs| <= |cfg.choices| && BlankChoices(cs)
      invariant forall c :: 0 <= c < |cs| ==> fresh(cs[c])
      invariant forall i, j :: 0 <= i < j < |cs| ==> cs[i] != cs[j]
    {
      var c := new Choice();
      cs := cs + [c];
    }
  }

  class Kconfig {
    const cfg: Config
    const syms: seq<Symbol>
    const choices: seq<Choice>

    ghost var user: User
    ghost var flags: set<Ref>
    ghost var cache: Cache

    // Each field agrees with the abstract state.

    ghost predicate Shape() {
      && |syms| == |cfg.syms| && |choices| == |cfg.choices|
      && (forall i, j :: 0 <= i < j < |syms| ==> syms[i] != syms[j])
      && (forall i, j :: 0 <= i < j < |choices| ==> choices[i] != choices[j])
    }

    ghost predicate UserMatches()
      reads this`user, this`flags, syms`userValue, syms`wasSet
      reads choices`userValue, choices`userSelection, choices`wasSet
    {
      && (forall i :: 0 <= i < |syms| ==>
            syms[i].userValue == UserOf(user, i) && (syms[i].wasSet <==> S(i) in flags))
      && (forall c :: 0 <= c < |choices| ==>
            && choices[c].userValue == ModeOf(user, c)
            && choices[c].userSelection == SelectionOf(user, c)
            && (choices[c].wasSet <==> C(c) in flags))
      && (forall x :: x in flags ==> ItemInRange(cfg, x))
    }

    ghost predicate VisMatches()
      reads this`cache, syms`cachedVis
    {
      forall i :: 0 <= i < |syms| ==> syms[i].cachedVis == CachedTri(cache, Vis(i))
    }

    ghost predicate TriMatches()
      reads this`cache, syms`cachedTri
    {
      forall i :: 0 <= i < |syms| ==> syms[i].cachedTri == CachedTri(cache, TriV(i))
    }

    ghost predicate StrMatches()
      reads this`cache, syms`cachedStr
    {
      forall i :: 0 <= i < |syms| ==> syms[i].cachedStr == CachedStr(cache, StrV(i))
    }

    ghost predicate AsgMatches()
      reads this`cache, syms`cachedAsg
    {
      forall i :: 0 <= i < |syms| ==> syms[i].cachedAsg == CachedAsg(cache, Asg(i))
    }

    ghost predicate CVisMatches()
      reads this`cache, choices`cachedVis
    {
      forall c :: 0 <= c < |choices| ==> choices[c].cachedVis == CachedTri(cache, CVis(c))
    }

    ghost predicate CSelMatches()
      reads this`cache, choices`cachedSel
    {
      forall c :: 0 <= c < |choices| ==> choices[c].cachedSel == CachedSel(cache, CSel(c))
    }

    ghost predicate CAsgMatches()
      reads this`cache, choices`cachedAsg
    {
      forall c :: 0 <= c < |choices| ==> choices[c].cachedAsg == CachedAsg(cache, CAsg(c))
    }

    /** _write_to_conf belongs to the cached value: of tri_value for bool and tristate
        symbols, of str_value for the others. */
    ghost predicate WriteMatches()
      requires Shape()
      reads this`cache, syms`writeToConf
    {
      && (forall i :: 0 <= i < |syms| && TriV(i) in cache && IsBoolTri(cfg.syms[i].typ) ==>
            syms[i].writeToConf == cache[TriV(i)].w)
      && (forall i :: 0 <= i < |syms| && StrV(i) in cache && !IsBoolTri(cfg.syms[i].typ) ==>
            syms[i].writeToConf == cache[StrV(i)].w)
    }

    /** n, m and y never lose their preset value. */
    ghost predicate ConstantsCached()
      reads this`cache
    {
      forall i :: 0 <= i < |cfg.syms| && cfg.syms[i].constTri.Some? ==> TriV(i) in cache
    }

    ghost predicate DependentsMatch()
      reads syms`dependents, choices`dependents
    {
      && (forall i, y :: 0 <= i < |syms| ==>
            (y in syms[i].dependents <==> ItemInRange(cfg, y) && DependsOn(cfg, y, S(i))))
      && (forall c, y :: 0 <= c < |choices| ==>
            (y in choices[c].dependents <==> ItemInRange(cfg, y) && DependsOn(cfg, y, C(c))))
    }

    /** The cached fields agree with the abstract cache. */
    ghost predicate CacheMatches()
      requires Shape()
      reads this`cache, syms`cachedVis, syms`cachedTri, syms`cachedStr, syms`cachedAsg, syms`writeToConf
      reads choices`cachedVis, choices`cachedSel, choices`cachedAsg
    {
      && VisMatches() && TriMatches() && StrMatches() && AsgMatches()
      && CVisMatches() && CSelMatches() && CAsgMatches() && WriteMatches() && ConstantsCached()
    }

    ghost predicate Valid()
      reads this, syms, choices
    {
      && ConfigOK(cfg)
      && UserOK(cfg, user)
      && CacheOK(cfg, user, cache)
      && Shape() && UserMatches() && DependentsMatch() && CacheMatches()
    }

    /** The reference values for the current user state. */
    ghost function Reference(): Env
      requires Acyclic(cfg)
      reads this`user
    {
      EnvOf(cfg, user)
    }

    ghost predicate AllCovered(rs: set<Attr>)
      reads this`cache
    {
      forall b :: b in rs ==> Covered(cfg, cache, b)
    }

    /** The expression mentions attributes of rank below `bound` only. */
    ghost predicate Below(e: Expr, bound: nat)
      requires Acyclic(cfg)
    {
      && (forall b :: b in ExprAttrs(cfg, e) ==> Rank(cfg)(b) < bound)
      && (forall x :: x in ExprItems(e) ==> ItemInRange(cfg, x))
    }

    // ---------- The assignments to the cached fields ----------

    method StoreVis(i: nat, v: Val)
      requires Shape() && CacheMatches() && i < |syms|
      modifies this`cache, {syms[i]}`cachedVis
      ensures CacheMatches() && cache == old(cache)[Vis(i) := v]
    {
      syms[i].cachedVis := Some(v.t);
      cache := cache[Vis(i) := v];
    }

    /** _write_to_conf is set along with the value it belongs to. */
    method SetWriteToConf(i: nat, ghost a: Attr, w: bool)
      requires Shape() && CacheMatches() && i < |syms|
      requires a == if IsBoolTri(cfg.syms[i].typ) then TriV(i) else StrV(i)
      requires a in cache ==> cache[a].w == w
      modifies {syms[i]}`writeToConf
      ensures CacheMatches() && syms[i].writeToConf == w
    {
      syms[i].writeToConf := w;
    }

    method StoreTri(i: nat, v: Val)
      requires Shape() && CacheMatches() && i < |syms|
      requires IsBoolTri(cfg.syms[i].typ) ==> syms[i].writeToConf == v.w
      modifies this`cache, {syms[i]}`cachedTri
      ensures CacheMatches() && cache == old(cache)[TriV(i) := v]
    {
      syms[i].cachedTri := Some(v.t);
      cache := cache[TriV(i) := v];
    }

    method StoreStr(i: nat, v: Val)
      requires Shape() && CacheMatches() && i < |syms|
      requires !IsBoolTri(cfg.syms[i].typ) ==> syms[i].writeToConf == v.w
      modifies this`cache, {syms[i]}`cachedStr
      ensures CacheMatches() && cache == old(cache)[StrV(i) := v]
    {
      syms[i].cachedStr := Some(v.s);
      cache := cache[StrV(i) := v];
    }

    method StoreAsg(i: nat, v: Val)
      requires Shape() && CacheMatches() && i < |syms|
      modifies this`cache, {syms[i]}`cachedAsg
      ensures CacheMatches() && cache == old(cache)[Asg(i) := v]
    {
      syms[i].cachedAsg := Some(v.asg);
      cache := cache[Asg(i) := v];
    }

    method StoreChoiceVis(c: nat, v: Val)
      requires Shape() && CacheMatches() && c < |choices|
      modifies this`cache, {choices[c]}`cachedVis
      ensures CacheMatches() && cache == old(cache)[CVis(c) := v]
    {
      choices[c].cachedVis := Some(v.t);
      cache := cache[CVis(c) := v];
    }

    method StoreSelection(c: nat, v: Val)
      requires Shape() && CacheMatches() && c < |choices|
      modifies this`cache, {choices[c]}`cachedSel
      ensures CacheMatches() && cache == old(cache)[CSel(c) := v]
    {
      choices[c].cachedSel := Some(v.sel);
      cache := cache[CSel(c) := v];
    }

    method StoreChoiceAsg(c: nat, v: Val)
      requires Shape() && CacheMatches() && c < |choices|
      modifies this`cache, {choices[c]}`cachedAsg
      ensures CacheMatches() && cache == old(cache)[CAsg(c) := v]
    {
      choices[c].cachedAsg := Some(v.asg);
      cache := cache[CAsg(c) := v];
    }

    // Filling a cached field with a computed value keeps the engine valid.

    method FillVis(i: nat, v: Val)
      requires Valid() && i < |cfg.syms| && v == Eval(cfg, user, Vis(i))
      requires AllCovered(Reads(cfg, user, Vis(i), Reference()))
      modifies this`cache, syms
      ensures Valid() && cache == old(cache)[Vis(i) := v]
    {
      hide CacheMatches, UserMatches, DependentsMatch, CacheOK, UserOK, Eval;
      FillSound(cfg, user, cache, Vis(i));
      StoreVis(i, v);
    }

    method FillTri(i: nat, v: Val)
      requires Valid() && i < |cfg.syms| && v == Eval(cfg, user, TriV(i))
      requires AllCovered(Reads(cfg, user, TriV(i), Reference()))
      modifies this`cache, syms
      ensures Valid() && cache == old(cache)[TriV(i) := v]
    {
      hide CacheMatches, UserMatches, DependentsMatch, CacheOK, UserOK, Eval;
      FillSound(cfg, user, cache, TriV(i));
      ValueOf(TriV(i));
      // a symbol that is not bool or tristate counts as n, and _write_to_conf is left alone
      if IsBoolTri(cfg.syms[i].typ) {
        SetWriteToConf(i, TriV(i), v.w);
      }
      StoreTri(i, v);
    }

    method FillStr(i: nat, v: Val)
      requires Valid() && i < |cfg.syms| && v == Eval(cfg, user, StrV(i))
      requires AllCovered(Reads(cfg, user, StrV(i), Reference()))
      modifies this`cache, syms
      ensures Valid() && cache == old(cache)[StrV(i) := v]
    {
      hide CacheMatches, UserMatches, DependentsMatch, CacheOK, UserOK, Eval;
      FillSound(cfg, user, cache, StrV(i));
      ValueOf(StrV(i));
      if !IsBoolTri(cfg.syms[i].typ) {
        SetWriteToConf(i, StrV(i), v.w);
      }
      StoreStr(i, v);
    }

    method FillAsg(i: nat, v: Val)
      requires Valid() && i < |cfg.syms| && v == Eval(cfg, user, Asg(i))
      requires AllCovered(Reads(cfg, user, Asg(i), Reference()))
      modifies this`cache, syms
      ensures Valid() && cache == old(cache)[Asg(i) := v]
    {
      hide CacheMatches, UserMatches, DependentsMatch, CacheOK, UserOK, Eval;
      FillSound(cfg, user, cache, Asg(i));
      StoreAsg(i, v);
    }

    method FillChoiceVis(c: nat, v: Val)
      requires Valid() && c < |cfg.choices| && v == Eval(cfg, user, CVis(c))
      requires AllCovered(Reads(cfg, user, CVis(c), Reference()))
      modifies this`cache, choices
      ensures Valid() && cache == old(cache)[CVis(c) := v]
    {
      hide CacheMatches, UserMatches, DependentsMatch, CacheOK, UserOK, Eval;
      FillSound(cfg, user, cache, CVis(c));
      StoreChoiceVis(c, v);
    }

    method FillSelection(c: nat, v: Val)
      requires Valid() && c < |cfg.choices| && v == Eval(cfg, user, CSel(c))
      requires AllCovered(Reads(cfg, user, CSel(c), Reference()))
      modifies this`cache, choices
      ensures Valid() && cache == old(cache)[CSel(c) := v]
    {
      hide CacheMatches, UserMatches, DependentsMatch, CacheOK, UserOK, Eval;
      FillSound(cfg, user, cache, CSel(c));
      StoreSelection(c, v);
    }

    method FillChoiceAsg(c: nat, v: Val)
      requires Valid() && c < |cfg.choices| && v == Eval(cfg, user, CAsg(c))
      requires AllCovered(Reads(cfg, user, CAsg(c), Reference()))
      modifies this`cache, choices
      ensures Valid() && cache == old(cache)[CAsg(c) := v]
    {
      hide CacheMatches, UserMatches, DependentsMatch, CacheOK, UserOK, Eval;
      FillSound(cfg, user, cache, CAsg(c));
      StoreChoiceAsg(c, v);
    }

    // ---------- What validity says about one item ----------

    lemma Basics()
      requires Valid()
      ensures Acyclic(cfg) && |syms| == |cfg.syms| && |choices| == |cfg.choices|
      ensures cfg.modules < |cfg.syms| && Inert(cfg, TriV(cfg.n))
    {
      assert SymOK(cfg, cfg.n);
    }

    lemma ValueOf(a: Attr)
      requires Valid()
      ensures Acyclic(cfg)
      ensures Eval(cfg, user, a) == Step(cfg, user, a, Reference())
      ensures a in cache ==> cache[a] == Eval(cfg, user, a)
    {
      EvalStep(cfg, user, a);
    }

    lemma SymFields(i: nat)
      requires Valid() && i < |cfg.syms|
      ensures |syms| == |cfg.syms|
      ensures syms[i].userValue == UserOf(user, i)
      ensures syms[i].cachedVis == CachedTri(cache, Vis(i))
      ensures syms[i].cachedTri == CachedTri(cache, TriV(i))
      ensures syms[i].cachedStr == CachedStr(cache, StrV(i))
      ensures syms[i].cachedAsg == CachedAsg(cache, Asg(i))
      ensures cfg.syms[i].constTri.Some? ==> TriV(i) in cache
      ensures SymOK(cfg, i)
      ensures i in user.sym ==> ValidValue(cfg.syms[i].typ, user.sym[i])
    {
    }

    lemma WriteFields(i: nat)
      requires Valid() && i < |cfg.syms|
      ensures |syms| == |cfg.syms| && Acyclic(cfg)
      ensures IsBoolTri(cfg.syms[i].typ) && TriV(i) in cache ==>
                syms[i].writeToConf == Eval(cfg, user, TriV(i)).w
      ensures !IsBoolTri(cfg.syms[i].typ) && StrV(i) in cache ==>
                syms[i].writeToConf == Eval(cfg, user, StrV(i)).w
    {
    }

    lemma ChoiceFields(c: nat)
      requires Valid() && c < |cfg.choices|
      ensures |choices| == |cfg.choices|
      ensures choices[c].userValue == ModeOf(user, c)
      ensures choices[c].userSelection == SelectionOf(user, c)
      ensures choices[c].cachedVis == CachedTri(cache, CVis(c))
      ensures choices[c].cachedSel == CachedSel(cache, CSel(c))
      ensures choices[c].cachedAsg == CachedAsg(cache, CAsg(c))
      ensures ChoiceOK(cfg, c)
      ensures c in user.selection ==> user.selection[c] in cfg.choices[c].syms
    {
    }

    /** Expressions in the properties of an item are below the rank of its attributes. */
    lemma PropertyBelow(a: Attr, e: Expr)
      requires Valid() && AttrInRange(cfg, a)
      requires ExprAttrs(cfg, e) <= StaticReads(cfg, a) && ExprItems(e) <= ItemsOf(cfg, ItemOf(a))
      ensures Acyclic(cfg) && Below(e, Rank(cfg)(a))
    {
    }

    lemma Lower(a: Attr, b: Attr)
      requires Valid() && b in StaticReads(cfg, a)
      ensures Acyclic(cfg) && Rank(cfg)(b) < Rank(cfg)(a)
    {
      assert IsRank(cfg, Rank(cfg));
    }

    lemma PromptsBelow(a: Attr, ps: seq<Expr>)
      requires Valid() && AttrInRange(cfg, a)
      requires PromptAttrs(cfg, ps) <= StaticReads(cfg, a) && PromptItems(ps) <= ItemsOf(cfg, ItemOf(a))
      ensures Acyclic(cfg) && forall k :: 0 <= k < |ps| ==> Below(ps[k], Rank(cfg)(a))
    {
      forall k | 0 <= k < |ps|
        ensures Below(ps[k], Rank(cfg)(a))
      {
        PromptMember(cfg, ps, k);
        PropertyBelow(a, ps[k]);
      }
    }

    // ---------- Expressions ----------

    method ChoiceType(c: nat, ghost bound: nat) returns (t: SType)
      requires Valid() && c < |cfg.choices|
      requires cfg.choices[c].typ == TRISTATE ==> Rank(cfg)(TriV(cfg.modules)) < bound
      modifies this`cache, syms, choices
      ensures Valid() && Grows(old(cache), cache)
      ensures t == ChoiceTypeOf(cfg, c, Reference())
      ensures cfg.choices[c].typ == TRISTATE ==> TriV(cfg.modules) in cache
      decreases bound, 0
    {
      hide Valid, Eval;
      Basics();
      t := cfg.choices[c].typ;
      if t == TRISTATE {
        var m := TriValue(cfg.modules);
        if m == 0 {
          t := BOOL;
        }
      }
    }

    /** Choice.tri_value */
    method ChoiceTriValue(c: nat, ghost bound: nat) returns (val: Tri)
      requires Valid() && c < |cfg.choices|
      requires forall b :: b in ModeAttrs(cfg, c) ==> Rank(cfg)(b) < bound
      modifies this`cache, syms, choices
      ensures Valid() && Grows(old(cache), cache)
      ensures val == ChoiceTri(cfg, user, c, Reference())
      ensures AllCovered(ChoiceTriReads(cfg, user, c, Reference()))
      decreases bound, 1
    {
      hide Valid, Eval;
      ChoiceFields(c);
      assert CVis(c) in ModeAttrs(cfg, c);
      val := if cfg.choices[c].isOptional then 0 else 1;
      if choices[c].userValue.Some? {
        val := Max(val, choices[c].userValue.value);
      }
      var vis := ChoiceVisibility(c);
      val := Min(val, vis);
      if val == 1 {
        var t := ChoiceType(c, bound);
        if t == BOOL {
          val := 2;
        }
      }
    }

    /** expr_value() */
    method ExprValue(e: Expr, ghost bound: nat) returns (v: Tri)
      requires Valid() && Below(e, bound)
      modifies this`cache, syms, choices
      ensures Valid() && Grows(old(cache), cache)
      ensures v == ExprVal(cfg, user, e, Reference())
      ensures AllCovered(ExprReads(cfg, user, e, Reference()))
      decreases bound, 2, e
    {
      hide Valid, Eval, Compare, CompareReads, ChoiceTri, ChoiceTriReads;
      Basics();
      match e {
        case SymE(s) =>
          assert TriV(s) in ExprAttrs(cfg, e);
          assert S(s) in ExprItems(e);
          v := TriValue(s);
        case ChoiceE(c) =>
          assert C(c) in ExprItems(e);
          v := ChoiceTriValue(c, bound);
        case And(l, r) =>
          v := ExprValue(l, bound);
          if v != 0 {
            var v2 := ExprValue(r, bound);
            v := Min(v, v2);
          }
        case Or(l, r) =>
          v := ExprValue(l, bound);
          if v != 2 {
            var v2 := ExprValue(r, bound);
            v := Max(v, v2);
          }
        case Not(e1) =>
          var v1 := ExprValue(e1, bound);
          v := 2 - v1;
        case Rel(op, a, b) =>
          assert S(a) in ExprItems(e) && S(b) in ExprItems(e);
          var comp := CompareSyms(a, b, bound);
          v := if Holds(op, comp) then 2 else 0;
      }
    }

    method CompareStrs(a: nat, b: nat, ghost bound: nat) returns (comp: int)
      requires Valid() && a < |cfg.syms| && b < |cfg.syms|
      requires Rank(cfg)(StrV(a)) < bound && Rank(cfg)(StrV(b)) < bound
      modifies this`cache, syms, choices
      ensures Valid() && Grows(old(cache), cache)
      ensures comp == Strcmp(Reference()(StrV(a)).s, Reference()(StrV(b)).s)
      ensures StrV(a) in cache && StrV(b) in cache
      decreases bound, 0
    {
      hide Valid, Eval;
      Basics();
      var s1 := StrValue(a);
      var s2 := StrValue(b);
      comp := Strcmp(s1, s2);
    }

    /** The comparison of the two operands of a relation: as strings if both are of string
        type, else as numbers, else (when one is not a number) as strings. */
    method CompareSyms(a: nat, b: nat, ghost bound: nat) returns (comp: int)
      requires Valid() && a < |cfg.syms| && b < |cfg.syms|
      requires forall x :: x in SymToNumReads(cfg, a) + SymToNumReads(cfg, b) + {StrV(a), StrV(b)}
                 ==> Rank(cfg)(x) < bound
      modifies this`cache, syms, choices
      ensures Valid() && Grows(old(cache), cache)
      ensures comp == Compare(cfg, a, b, Reference())
      ensures AllCovered(CompareReads(cfg, a, b, Reference()))
      decreases bound, 1
    {
      hide Valid, Eval, SymToNumReads, SymToNum;
      Basics();
      assert Rank(cfg)(StrV(a)) < bound && Rank(cfg)(StrV(b)) < bound;
      if cfg.syms[a].typ == STRING && cfg.syms[b].typ == STRING {
        comp := CompareStrs(a, b, bound);
      } else {
        var x := NumberOf(a, bound);
        if x.None? {
          comp := CompareStrs(a, b, bound);
        } else {
          var y := NumberOf(b, bound);
          if y.None? {
            comp := CompareStrs(a, b, bound);
          } else {
            comp := x.value - y.value;
          }
        }
      }
    }

    /** _sym_to_num() */
    method NumberOf(s: nat, ghost bound: nat) returns (n: Option<int>)
      requires Valid() && s < |cfg.syms|
      requires forall x :: x in SymToNumReads(cfg, s) ==> Rank(cfg)(x) < bound
      modifies this`cache, syms, choices
      ensures Valid() && Grows(old(cache), cache)
      ensures n == SymToNum(cfg, s, Reference())
      ensures AllCovered(SymToNumReads(cfg, s))
      decreases bound, 0
    {
      hide Valid, Eval;
      Basics();
      if IsBoolTri(cfg.syms[s].typ) {
        assert TriV(s) in SymToNumReads(cfg, s);
        var t := TriValue(s);
        n := Some(t);
      } else {
        assert StrV(s) in SymToNumReads(cfg, s);
        var t := StrValue(s);
        n := ParseInt(t, BaseOf(cfg.syms[s].typ));
      }
    }

    // ---------- Visibility ----------

    /** The loop over the prompts in _visibility(). */
    method PromptVisibility(ps: seq<Expr>, ghost bound: nat) returns (vis: Tri)
      requires Valid() && forall k :: 0 <= k < |ps| ==> Below(ps[k], bound)
      modifies this`cache, syms, choices
      ensures Valid() && Grows(old(cache), cache)
      ensures vis == PromptMax(cfg, user, ps, Reference())
      ensures AllCovered(PromptReads(cfg, user, ps, Reference()))
      decreases bound, 3
    {
      hide Valid, Eval, ExprVal, ExprReads, Below;
      Basics();
      vis := 0;
      var k := 0;
      while k < |ps|
        invariant 0 <= k <= |ps|
        invariant Valid() && Grows(old(cache), cache)
        invariant Max(vis, PromptMax(cfg, user, ps[k..], Reference())) == PromptMax(cfg, user, ps, Reference())
        invariant forall b :: b in PromptReads(cfg, user, ps, Reference()) ==>
                    b in PromptReads(cfg, user, ps[k..], Reference()) || Covered(cfg, cache, b)
      {
        assert ps[k..][0] == ps[k] && ps[k..][1..] == ps[k + 1..];
        var v := ExprValue(ps[k], bound);
        vis := Max(vis, v);
        k := k + 1;
      }
    }

    /** Symbol.type */
    method TypeValue(i: nat, ghost bound: nat) returns (t: SType)
      requires Valid() && i < |cfg.syms|
      requires forall b :: b in TypeAttrs(cfg, i) ==> Rank(cfg)(b) < bound
      modifies this`cache, syms, choices
      ensures Valid() && Grows(old(cache), cache)
      ensures t == TypeOf(cfg, user, i, Reference())
      ensures AllCovered(TypeReads(cfg, user, i, Reference()))
      decreases bound, 2
    {
      hide Valid, Eval, ChoiceTri, ChoiceTriReads;
      SymFields(i);
      Basics();
      t := cfg.syms[i].typ;
      if t == TRISTATE {
        var yMode := false;
        if cfg.syms[i].choice.Some? {
          var mode := ChoiceTriValue(cfg.syms[i].choice.value, bound);
          yMode := mode == 2;
        }
        if yMode {
          t := BOOL;
        } else {
          assert TriV(cfg.modules) in TypeAttrs(cfg, i);
          var m := TriValue(cfg.modules);
          if m == 0 {
            t := BOOL;
          }
        }
      }
    }

    /** The part of _visibility() about choice symbols. */
    method HiddenValue(i: nat, vis: Tri, ghost bound: nat) returns (hidden: bool)
      requires Valid() && i < |cfg.syms|
      requires cfg.syms[i].choice.Some? ==>
                 forall b :: b in ModeAttrs(cfg, cfg.syms[i].choice.value) ==> Rank(cfg)(b) < bound
      modifies this`cache, syms, choices
      ensures Valid() && Grows(old(cache), cache)
      ensures hidden == HiddenByMode(cfg, user, cfg.syms[i], vis, Reference())
      ensures AllCovered(HiddenReads(cfg, user, cfg.syms[i], vis, Reference()))
      decreases bound, 2
    {
      hide Valid, Eval, ChoiceTri, ChoiceTriReads;
      SymFields(i);
      Basics();
      var d := cfg.syms[i];
      hidden := false;
      if d.choice.Some? {
        var c := d.choice.value;
        if cfg.choices[c].typ == TRISTATE && d.typ != TRISTATE {
          var mode := ChoiceTriValue(c, bound);
          hidden := mode != 2;
        }
        if d.typ == TRISTATE && vis == 1 {
          var mode := ChoiceTriValue(c, bound);
          hidden := mode == 2;
        }
      }
    }

    /** Symbol.visibility */
    method Visibility(i: nat) returns (vis: Tri)
      requires Valid() && i < |cfg.syms|
      modifies this`cache, syms, choices
      ensures Valid() && Grows(old(cache), cache)
      ensures vis == Eval(cfg, user, Vis(i)).t
      ensures Vis(i) in cache
      decreases Rank(cfg)(Vis(i)), 5
    {
      hide Valid, Eval, PromptMax, PromptReads, HiddenByMode, HiddenReads, TypeOf, TypeReads;
      SymFields(i);
      ValueOf(Vis(i));
      if syms[i].cachedVis.Some? {
        return syms[i].cachedVis.value;
      }
      vis := ComputeVisibility(i);
      FillVis(i, NO_VAL.(t := vis));
    }

    method ComputeVisibility(i: nat) returns (vis: Tri)
      requires Valid() && i < |cfg.syms|
      modifies this`cache, syms, choices
      ensures Valid() && Grows(old(cache), cache)
      ensures vis == SymVisVal(cfg, user, i, Reference())
      ensures AllCovered(SymVisReads(cfg, user, i, Reference()))
      decreases Rank(cfg)(Vis(i)), 4
    {
      hide Valid, Eval, PromptMax, PromptReads, HiddenByMode, HiddenReads, TypeOf, TypeReads;
      Basics();
      SymFields(i);
      VisibilityBelow(i);
      ghost var bound := Rank(cfg)(Vis(i));
      vis := PromptVisibility(cfg.syms[i].prompts, bound);
      var hidden := HiddenValue(i, vis, bound);
      if hidden {
        vis := 0;
      } else if vis == 1 {
        var t := TypeValue(i, bound);
        if t != TRISTATE {
          vis := 2;
        }
      }
    }

    lemma VisibilityBelow(i: nat)
      requires Valid() && i < |cfg.syms|
      ensures Acyclic(cfg)
      ensures forall k :: 0 <= k < |cfg.syms[i].prompts| ==> Below(cfg.syms[i].prompts[k], Rank(cfg)(Vis(i)))
      ensures cfg.syms[i].choice.Some? ==>
                forall b :: b in ModeAttrs(cfg, cfg.syms[i].choice.value) ==> Rank(cfg)(b) < Rank(cfg)(Vis(i))
      ensures forall b :: b in TypeAttrs(cfg, i) ==> Rank(cfg)(b) < Rank(cfg)(Vis(i))
    {
      var d := cfg.syms[i];
      assert SymOK(cfg, i);
      if d.prompts != [] {
        PromptsBelow(Vis(i), d.prompts);
      }
      forall b | b in StaticReads(cfg, Vis(i))
        ensures Rank(cfg)(b) < Rank(cfg)(Vis(i))
      {
        Lower(Vis(i), b);
      }
    }

    /** Choice.visibility */
    method ChoiceVisibility(c: nat) returns (vis: Tri)
      requires Valid() && c < |cfg.choices|
      modifies this`cache, syms, choices
      ensures Valid() && Grows(old(cache), cache)
      ensures vis == Eval(cfg, user, CVis(c)).t
      ensures CVis(c) in cache
      decreases Rank(cfg)(CVis(c)), 5
    {
      hide Valid, Eval, PromptMax, PromptReads;
      ChoiceFields(c);
      ValueOf(CVis(c));
      if choices[c].cachedVis.Some? {
        return choices[c].cachedVis.value;
      }
      vis := ComputeChoiceVisibility(c);
      FillChoiceVis(c, NO_VAL.(t := vis));
    }

    method ComputeChoiceVisibility(c: nat) returns (vis: Tri)
      requires Valid() && c < |cfg.choices|
      modifies this`cache, syms, choices
      ensures Valid() && Grows(old(cache), cache)
      ensures vis == ChoiceVisVal(cfg, user, c, Reference())
      ensures AllCovered(ChoiceVisReads(cfg, user, c, Reference()))
      decreases Rank(cfg)(CVis(c)), 4
    {
      hide Valid, Eval, PromptMax, PromptReads;
      Basics();
      PromptsBelow(CVis(c), cfg.choices[c].prompts);
      ghost var bound := Rank(cfg)(CVis(c));
      vis := PromptVisibility(cfg.choices[c].prompts, bound);
      if vis == 1 {
        if cfg.choices[c].typ == TRISTATE {
          Lower(CVis(c), TriV(cfg.modules));
        }
        var t := ChoiceType(c, bound);
        if t != TRISTATE {
          vis := 2;
        }
      }
    }

    // ---------- Defaults and ranges ----------

    /** The loop over the defaults: the first one whose condition is not n. */
    method FindDefault(ds: seq<Default>, ghost bound: nat) returns (k: nat, condVal: Tri)
      requires Valid() && forall j :: 0 <= j < |ds| ==> Below(ds[j].cond, bound)
      modifies this`cache, syms, choices
      ensures Valid() && Grows(old(cache), cache)
      ensures k == FirstDefault(cfg, user, ds, Reference())
      ensures k < |ds| ==> condVal == ExprVal(cfg, user, ds[k].cond, Reference())
      ensures AllCovered(FirstDefaultReads(cfg, user, ds, Reference()))
      decreases bound, 3
    {
      hide Valid, Eval, ExprVal, ExprReads, Below;
      Basics();
      k, condVal := 0, 0;
      while k < |ds|
        invariant 0 <= k <= |ds|
        invariant Valid() && Grows(old(cache), cache)
        invariant k + FirstDefault(cfg, user, ds[k..], Reference()) == FirstDefault(cfg, user, ds, Reference())
        invariant forall b :: b in FirstDefaultReads(cfg, user, ds, Reference()) ==>
                    b in FirstDefaultReads(cfg, user, ds[k..], Reference()) || Covered(cfg, cache, b)
      {
        assert ds[k..][0] == ds[k] && ds[k..][1..] == ds[k + 1..];
        condVal := ExprValue(ds[k].cond, bound);
        if condVal != 0 {
          return;
        }
        k := k + 1;
      }
    }

    /** The loop over the ranges: the first one whose condition is not n. */
    method FindRange(rs: seq<RangeDef>, ghost bound: nat) returns (k: nat)
      requires Valid() && forall j :: 0 <= j < |rs| ==> Below(rs[j].cond, bound)
      modifies this`cache, syms, choices
      ensures Valid() && Grows(old(cache), cache)
      ensures k == FirstRange(cfg, user, rs, Reference())
      ensures AllCovered(FirstRangeReads(cfg, user, rs, Reference()))
      decreases bound, 3
    {
      hide Valid, Eval, ExprVal, ExprReads, Below;
      Basics();
      k := 0;
      while k < |rs|
        invariant 0 <= k <= |rs|
        invariant Valid() && Grows(old(cache), cache)
        invariant k + FirstRange(cfg, user, rs[k..], Reference()) == FirstRange(cfg, user, rs, Reference())
        invariant forall b :: b in FirstRangeReads(cfg, user, rs, Reference()) ==>
                    b in FirstRangeReads(cfg, user, rs[k..], Reference()) || Covered(cfg, cache, b)
      {
        assert rs[k..][0] == rs[k] && rs[k..][1..] == rs[k + 1..];
        var condVal := ExprValue(rs[k].cond, bound);
        if condVal != 0 {
          return;
        }
        k := k + 1;
      }
    }

    // ---------- Tristate values ----------

    lemma TriBelow(i: nat)
      requires Valid() && i < |cfg.syms| && cfg.syms[i].defined
      requires IsBoolTri(cfg.syms[i].typ) && cfg.syms[i].choice.None? && cfg.syms[i].constTri.None?
      ensures Acyclic(cfg)
      ensures var d, r := cfg.syms[i], Rank(cfg)(TriV(i));
              && Below(d.revDep, r) && Below(d.weakRevDep, r) && Below(d.directDep, r)
              && Rank(cfg)(Vis(i)) < r
              && (forall b :: b in TypeAttrs(cfg, i) ==> Rank(cfg)(b) < r)
              && forall k :: 0 <= k < |d.defaults| ==> Below(d.defaults[k].cond, r) && Below(d.defaults[k].value, r)
    {
      var d := cfg.syms[i];
      PropertyBelow(TriV(i), d.revDep);
      PropertyBelow(TriV(i), d.weakRevDep);
      PropertyBelow(TriV(i), d.directDep);
      forall b | b in StaticReads(cfg, TriV(i))
        ensures Rank(cfg)(b) < Rank(cfg)(TriV(i))
      {
        Lower(TriV(i), b);
      }
      forall k | 0 <= k < |d.defaults|
        ensures Below(d.defaults[k].cond, Rank(cfg)(TriV(i))) && Below(d.defaults[k].value, Rank(cfg)(TriV(i)))
      {
        DefaultMember(cfg, d.defaults, k);
        PropertyBelow(TriV(i), d.defaults[k].cond);
        PropertyBelow(TriV(i), d.defaults[k].value);
      }
    }

    /** The default of a bool or tristate symbol, limited by its condition. */
    method DefaultTriValue(ds: seq<Default>, ghost bound: nat) returns (val: Tri)
      requires Valid()
      requires forall k :: 0 <= k < |ds| ==> Below(ds[k].cond, bound) && Below(ds[k].value, bound)
      modifies this`cache, syms, choices
      ensures Valid() && Grows(old(cache), cache)
      ensures val == DefaultTri(cfg, user, ds, Reference())
      ensures AllCovered(DefaultTriReads(cfg, user, ds, Reference()))
      decreases bound, 4
    {
      hide Valid, Eval, ExprVal, ExprReads, FirstDefault, FirstDefaultReads, Below;
      Basics();
      val := 0;
      var k, condVal := FindDefault(ds, bound);
      if k < |ds| {
        val := ExprValue(ds[k].value, bound);
        val := Min(val, condVal);
      }
    }

    /** User value, or else defaults and implies. */
    method BaseTriValue(i: nat) returns (val: Tri, write: bool)
      requires Valid() && i < |cfg.syms| && cfg.syms[i].defined
      requires IsBoolTri(cfg.syms[i].typ) && cfg.syms[i].choice.None? && cfg.syms[i].constTri.None?
      modifies this`cache, syms, choices
      ensures Valid() && Grows(old(cache), cache)
      ensures TriResult(val, write) == BaseTri(cfg, user, i, Reference())
      ensures AllCovered(BaseTriReads(cfg, user, i, Reference()))
      decreases Rank(cfg)(TriV(i)), 5
    {
      hide Valid, Eval, ExprVal, ExprReads, DefaultTri, DefaultTriReads, Below;
      Basics();
      TriBelow(i);
      ghost var bound := Rank(cfg)(TriV(i));
      var d := cfg.syms[i];
      var vis := Visibility(i);
      write := vis != 0;
      SymFields(i);
      if vis != 0 && syms[i].userValue.Some? {
        val := Min(UserTri(syms[i].userValue.value), vis);
      } else {
        val := DefaultTriValue(d.defaults, bound);
        write := write || val != 0;
        var weak := ExprValue(d.weakRevDep, bound);
        if weak != 0 {
          var direct := ExprValue(d.directDep, bound);
          if direct != 0 {
            val := Max(weak, val);
            write := true;
          }
        }
      }
    }

    /** Whether m becomes y: for bool symbols and symbols implied to y. */
    method PromotesMValue(i: nat, ghost bound: nat) returns (promotes: bool)
      requires Valid() && i < |cfg.syms|
      requires forall b :: b in TypeAttrs(cfg, i) ==> Rank(cfg)(b) < bound
      requires Below(cfg.syms[i].weakRevDep, bound)
      modifies this`cache, syms, choices
      ensures Valid() && Grows(old(cache), cache)
      ensures promotes == PromotesM(cfg, user, i, Reference())
      ensures AllCovered(PromotesMReads(cfg, user, i, Reference()))
      decreases bound, 3
    {
      hide Valid, Eval, TypeOf, TypeReads, ExprVal, ExprReads, Below;
      Basics();
      var t := TypeValue(i, bound);
      promotes := t == BOOL;
      if !promotes {
        var weak := ExprValue(cfg.syms[i].weakRevDep, bound);
        promotes := weak == 2;
      }
    }

    /** The value of a bool or tristate symbol outside choices. */
    method ComputePlainTri(i: nat) returns (val: Tri, write: bool)
      requires Valid() && i < |cfg.syms| && cfg.syms[i].defined
      requires IsBoolTri(cfg.syms[i].typ) && cfg.syms[i].choice.None? && cfg.syms[i].constTri.None?
      modifies this`cache, syms, choices
      ensures Valid() && Grows(old(cache), cache)
      ensures TriResult(val, write) == SymTriVal(cfg, user, i, Reference())
      ensures AllCovered(SymTriReads(cfg, user, i, Reference()))
      decreases Rank(cfg)(TriV(i)), 6
    {
      hide Valid, Eval, BaseTri, BaseTriReads, ExprVal, ExprReads, PromotesM, PromotesMReads, Below;
      Basics();
      TriBelow(i);
      ghost var bound := Rank(cfg)(TriV(i));
      var d := cfg.syms[i];
      val, write := BaseTriValue(i);
      var rev := ExprValue(d.revDep, bound);
      if rev != 0 {
        // the comparison with the direct dependencies only decides about a warning
        var direct := ExprValue(d.directDep, bound);
        val := Max(rev, val);
        write := true;
      }
      if val == 1 {
        var promotes := PromotesMValue(i, bound);
        if promotes {
          val := 2;
        }
      }
    }

    /** The value of a choice symbol. */
    method ComputeMemberTri(i: nat) returns (val: Tri, write: bool)
      requires Valid() && i < |cfg.syms|
      requires IsBoolTri(cfg.syms[i].typ) && cfg.syms[i].choice.Some? && cfg.syms[i].constTri.None?
      modifies this`cache, syms, choices
      ensures Valid() && Grows(old(cache), cache)
      ensures TriResult(val, write) == SymTriVal(cfg, user, i, Reference())
      ensures AllCovered(SymTriReads(cfg, user, i, Reference()))
      decreases Rank(cfg)(TriV(i)), 6
    {
      hide Valid, Eval;
      Basics();
      SymFields(i);
      Lower(TriV(i), Vis(i));
      Lower(TriV(i), CSel(cfg.syms[i].choice.value));
      var vis := Visibility(i);
      write := vis != 0;
      val := 0;
      SymFields(i);
      if vis == 2 {
        var sel := Selection(cfg.syms[i].choice.value);
        val := if sel == Some(i) then 2 else 0;
      } else if vis != 0 && syms[i].userValue.Some? && UserTri(syms[i].userValue.value) != 0 {
        val := 1;
      }
    }

    /** Symbol.tri_value */
    method TriValue(i: nat) returns (v: Tri)
      requires Valid() && i < |cfg.syms|
      modifies this`cache, syms, choices
      ensures Valid() && Grows(old(cache), cache)
      ensures v == Eval(cfg, user, TriV(i)).t
      ensures TriV(i) in cache
      decreases Rank(cfg)(TriV(i)), 7
    {
      hide Valid, Eval, SelectedTri, SelectedTriReads, PromotesM, PromotesMReads;
      SymFields(i);
      ValueOf(TriV(i));
      if syms[i].cachedTri.Some? {
        return syms[i].cachedTri.value;
      }
      if !IsBoolTri(cfg.syms[i].typ) {
        v := 0;
        FillTri(i, NO_VAL);
      } else if cfg.syms[i].choice.None? {
        var write;
        v, write := ComputePlainTri(i);
        FillTri(i, NO_VAL.(t := v, w := write));
      } else {
        var write;
        v, write := ComputeMemberTri(i);
        FillTri(i, NO_VAL.(t := v, w := write));
      }
    }

    // ---------- String values ----------

    lemma MentionedInRange(y: Ref, x: Ref)
      requires Valid() && ItemInRange(cfg, y) && x in ItemsOf(cfg, y)
      ensures ItemInRange(cfg, x)
    {
    }

    ghost predicate StrDefaultBelow(d: Default, bound: nat)
      requires Acyclic(cfg)
    {
      && Below(d.cond, bound)
      && (d.value.SymE? ==> d.value.s < |cfg.syms| && Rank(cfg)(StrV(d.value.s)) < bound)
    }

    ghost predicate RangeBelow(r: RangeDef, bound: nat)
      requires Acyclic(cfg)
    {
      && Below(r.cond, bound)
      && r.low < |cfg.syms| && Rank(cfg)(StrV(r.low)) < bound
      && r.high < |cfg.syms| && Rank(cfg)(StrV(r.high)) < bound
    }

    lemma StrDefaultsBelow(i: nat)
      requires Valid() && i < |cfg.syms| && cfg.syms[i].defined
      requires !IsBoolTri(cfg.syms[i].typ) && cfg.syms[i].typ != UNKNOWN
      ensures Acyclic(cfg)
      ensures forall k :: 0 <= k < |cfg.syms[i].defaults| ==>
                StrDefaultBelow(cfg.syms[i].defaults[k], Rank(cfg)(StrV(i)))
    {
      hide Valid, Below;
      Basics();
      var d := cfg.syms[i];
      forall k | 0 <= k < |d.defaults|
        ensures StrDefaultBelow(d.defaults[k], Rank(cfg)(StrV(i)))
      {
        DefaultMember(cfg, d.defaults, k);
        PropertyBelow(StrV(i), d.defaults[k].cond);
        if d.defaults[k].value.SymE? {
          MentionedInRange(S(i), S(d.defaults[k].value.s));
          Lower(StrV(i), StrV(d.defaults[k].value.s));
        }
      }
    }

    lemma StrRangesBelow(i: nat)
      requires Valid() && i < |cfg.syms| && cfg.syms[i].defined
      requires !IsBoolTri(cfg.syms[i].typ) && cfg.syms[i].typ != UNKNOWN
      ensures Acyclic(cfg)
      ensures forall k :: 0 <= k < |cfg.syms[i].ranges| ==>
                RangeBelow(cfg.syms[i].ranges[k], Rank(cfg)(StrV(i)))
    {
      hide Valid, Below;
      Basics();
      var d := cfg.syms[i];
      forall k | 0 <= k < |d.ranges|
        ensures RangeBelow(d.ranges[k], Rank(cfg)(StrV(i)))
      {
        RangeMember(cfg, d.ranges, k);
        PropertyBelow(StrV(i), d.ranges[k].cond);
        MentionedInRange(S(i), S(d.ranges[k].low));
        MentionedInRange(S(i), S(d.ranges[k].high));
        Lower(StrV(i), StrV(d.ranges[k].low));
        Lower(StrV(i), StrV(d.ranges[k].high));
      }
    }

    /** The bounds of the active range, malformed bounds counting as 0. */
    method ActiveRangeValue(i: nat) returns (range: Option<(int, int)>)
      requires Valid() && i < |cfg.syms| && cfg.syms[i].defined && IsIntHex(cfg.syms[i].typ)
      modifies this`cache, syms, choices
      ensures Valid() && Grows(old(cache), cache)
      ensures range == ActiveRange(cfg, user, cfg.syms[i], Reference())
      ensures AllCovered(ActiveRangeReads(cfg, user, cfg.syms[i], Reference()))
      decreases Rank(cfg)(StrV(i)), 4
    {
      hide Valid, Eval, FirstRange, FirstRangeReads, NumOrZero, Below;
      Basics();
      StrRangesBelow(i);
      var d := cfg.syms[i];
      var k := FindRange(d.ranges, Rank(cfg)(StrV(i)));
      if k < |d.ranges| {
        var low := StrValue(d.ranges[k].low);
        var high := StrValue(d.ranges[k].high);
        range := Some((NumOrZero(low, BaseOf(d.typ)), NumOrZero(high, BaseOf(d.typ))));
      } else {
        range := None;
      }
    }

    /** The string value of the first active default. */
    method DefaultTextValue(i: nat) returns (val: string, hasDefault: bool)
      requires Valid() && i < |cfg.syms| && cfg.syms[i].defined
      requires !IsBoolTri(cfg.syms[i].typ) && cfg.syms[i].typ != UNKNOWN
      modifies this`cache, syms, choices
      ensures Valid() && Grows(old(cache), cache)
      ensures val == DefaultText(cfg, user, cfg.syms[i].defaults, Reference())
      ensures hasDefault == HasDefault(cfg, user, cfg.syms[i].defaults, Reference())
      ensures AllCovered(DefaultTextReads(cfg, user, cfg.syms[i].defaults, Reference()))
      decreases Rank(cfg)(StrV(i)), 4
    {
      hide Valid, Eval, FirstDefault, FirstDefaultReads, Below;
      Basics();
      StrDefaultsBelow(i);
      var ds := cfg.syms[i].defaults;
      var k, condVal := FindDefault(ds, Rank(cfg)(StrV(i)));
      hasDefault := k < |ds|;
      val := "";
      if k < |ds| && ds[k].value.SymE? {
        val := StrValue(ds[k].value.s);
      }
    }

    lemma IntCases(i: nat)
      requires Valid() && i < |cfg.syms|
      ensures Acyclic(cfg)
      ensures var env, d := Reference(), cfg.syms[i];
              var range := ActiveRange(cfg, user, d, env);
              var always := {Vis(i)} + ActiveRangeReads(cfg, user, d, env);
              if UsesUserNumber(user, i, d, env(Vis(i)).t, range) then
                && IntVal(cfg, user, i, env) == StrResult(UserStr(UserOf(user, i).value), true)
                && (AllCovered(always) ==> AllCovered(IntReads(cfg, user, i, env)))
              else
                && IntVal(cfg, user, i, env) ==
                   StrResult(Clamp(d.typ, range, DefaultText(cfg, user, d.defaults, env)),
                             env(Vis(i)).t != 0 || HasDefault(cfg, user, d.defaults, env))
                && (AllCovered(always) && AllCovered(DefaultTextReads(cfg, user, d.defaults, env)) ==>
                      AllCovered(IntReads(cfg, user, i, env)))
    {
      Basics();
      hide Valid, Eval, ActiveRange, ActiveRangeReads, DefaultText, DefaultTextReads, HasDefault, UsesUserNumber,
        NumOrZero, Clamp, ConfigOK, Acyclic, Covered;
    }

    lemma StrReadsVis(i: nat)
      requires Valid() && i < |cfg.syms| && !IsBoolTri(cfg.syms[i].typ)
      requires cfg.syms[i].typ != UNKNOWN
      ensures Acyclic(cfg) && |syms| == |cfg.syms| && Rank(cfg)(Vis(i)) < Rank(cfg)(StrV(i))
    {
      hide Valid, Acyclic, ConfigOK, SymOK, Eval;
      Basics();
      Lower(StrV(i), Vis(i));
    }

    method ComputeInt(i: nat) returns (val: string, write: bool)
      requires Valid() && i < |cfg.syms| && cfg.syms[i].defined && IsIntHex(cfg.syms[i].typ)
      modifies this`cache, syms, choices
      ensures Valid() && Grows(old(cache), cache)
      ensures StrResult(val, write) == IntVal(cfg, user, i, Reference())
      ensures AllCovered(IntReads(cfg, user, i, Reference()))
      decreases Rank(cfg)(StrV(i)), 5
    {
      hide Valid, Eval, ActiveRange, ActiveRangeReads, DefaultText, DefaultTextReads, HasDefault,
        NumOrZero, Clamp, BaseOf, OutsideRange, ConfigOK, Acyclic, StaticReads, SymOK, IntVal, IntReads;
      StrReadsVis(i);
      var d := cfg.syms[i];
      var vis := Visibility(i);
      write := vis != 0;
      var range := ActiveRangeValue(i);
      SymFields(i);
      var useDefaults := true;
      val := "";
      if vis != 0 && syms[i].userValue.Some? && UserStr(syms[i].userValue.value) != "" {
        var userVal := NumOrZero(UserStr(syms[i].userValue.value), BaseOf(d.typ));
        if !OutsideRange(range, userVal) {
          val := UserStr(syms[i].userValue.value);
          useDefaults := false;
        }
      }
      if useDefaults {
        var hasDefault;
        val, hasDefault := DefaultTextValue(i);
        write := write || hasDefault;
        val := Clamp(d.typ, range, val);
      }
      IntCases(i);
    }

    method ComputeText(i: nat) returns (val: string, write: bool)
      requires Valid() && i < |cfg.syms| && cfg.syms[i].defined && cfg.syms[i].typ == STRING
      modifies this`cache, syms, choices
      ensures Valid() && Grows(old(cache), cache)
      ensures StrResult(val, write) == TextVal(cfg, user, i, Reference())
      ensures AllCovered(TextReads(cfg, user, i, Reference()))
      decreases Rank(cfg)(StrV(i)), 5
    {
      hide Valid, Eval, DefaultText, DefaultTextReads, HasDefault;
      Basics();
      Lower(StrV(i), Vis(i));
      var vis := Visibility(i);
      write := vis != 0;
      SymFields(i);
      if vis != 0 && syms[i].userValue.Some? {
        val := UserStr(syms[i].userValue.value);
      } else {
        var hasDefault;
        val, hasDefault := DefaultTextValue(i);
        write := write || hasDefault;
      }
    }

    /** Symbol.str_value */
    method StrValue(i: nat) returns (val: string)
      requires Valid() && i < |cfg.syms|
      modifies this`cache, syms, choices
      ensures Valid() && Grows(old(cache), cache)
      ensures val == Eval(cfg, user, StrV(i)).s
      ensures StrV(i) in cache
      decreases Rank(cfg)(StrV(i)), 6
    {
      hide Valid, Eval, IntVal, IntReads, TextVal, TextReads;
      SymFields(i);
      ValueOf(StrV(i));
      if syms[i].cachedStr.Some? {
        return syms[i].cachedStr.value;
      }
      var d := cfg.syms[i];
      if IsBoolTri(d.typ) {
        Lower(StrV(i), TriV(i));
        var t := TriValue(i);
        val := TriStr(t);
        WriteFields(i);
        FillStr(i, NO_VAL.(s := val, w := syms[i].writeToConf));
      } else if d.typ == UNKNOWN {
        val := d.name;
        FillStr(i, NO_VAL.(s := val));
      } else {
        var write;
        if IsIntHex(d.typ) {
          val, write := ComputeInt(i);
        } else {
          val, write := ComputeText(i);
        }
        if d.neverWritten {
          write := false;
        }
        FillStr(i, NO_VAL.(s := val, w := write));
      }
    }

    // ---------- Choice selection ----------

    lemma SelectionBelow(c: nat)
      requires Valid() && c < |cfg.choices|
      ensures Acyclic(cfg)
      ensures var d, r := cfg.choices[c], Rank(cfg)(CSel(c));
              && (forall b :: b in ModeAttrs(cfg, c) ==> Rank(cfg)(b) < r)
              && (forall k :: 0 <= k < |d.defaults| ==> Below(d.defaults[k].cond, r) && d.defaults[k].sym in d.syms)
              && (forall s :: s in d.syms ==> s < |cfg.syms| && Rank(cfg)(Vis(s)) < r)
    {
      var d := cfg.choices[c];
      assert ChoiceOK(cfg, c);
      forall b | b in StaticReads(cfg, CSel(c))
        ensures Rank(cfg)(b) < Rank(cfg)(CSel(c))
      {
        Lower(CSel(c), b);
      }
      forall k | 0 <= k < |d.defaults|
        ensures Below(d.defaults[k].cond, Rank(cfg)(CSel(c)))
      {
        ChoiceDefaultMember(cfg, d.defaults, k);
        PropertyBelow(CSel(c), d.defaults[k].cond);
      }
      forall s | s in d.syms
        ensures Rank(cfg)(Vis(s)) < Rank(cfg)(CSel(c))
      {
        assert Vis(s) in StaticReads(cfg, CSel(c));
      }
    }

    /** The loop over the choice symbols: the first visible one. */
    method FindVisible(c: nat) returns (sel: Option<nat>)
      requires Valid() && c < |cfg.choices|
      modifies this`cache, syms, choices
      ensures Valid() && Grows(old(cache), cache)
      ensures sel == FirstVisible(cfg.choices[c].syms, Reference())
      ensures AllCovered(FirstVisibleReads(cfg.choices[c].syms, Reference()))
      decreases Rank(cfg)(CSel(c)), 3
    {
      hide Valid, Eval, Below;
      Basics();
      SelectionBelow(c);
      var ss := cfg.choices[c].syms;
      sel := None;
      var k := 0;
      while k < |ss|
        invariant 0 <= k <= |ss|
        invariant Valid() && Grows(old(cache), cache)
        invariant FirstVisible(ss[k..], Reference()) == FirstVisible(ss, Reference())
        invariant forall b :: b in FirstVisibleReads(ss, Reference()) ==>
                    b in FirstVisibleReads(ss[k..], Reference()) || Covered(cfg, cache, b)
      {
        assert ss[k..][0] == ss[k] && ss[k..][1..] == ss[k + 1..];
        assert ss[k] in ss;
        var vis := Visibility(ss[k]);
        if vis != 0 {
          return Some(ss[k]);
        }
        k := k + 1;
      }
    }

    /** Choice._selection_from_defaults() */
    method SelectionFromDefaultsValue(c: nat) returns (sel: Option<nat>)
      requires Valid() && c < |cfg.choices|
      modifies this`cache, syms, choices
      ensures Valid() && Grows(old(cache), cache)
      ensures var d := cfg.choices[c];
              && sel == SelectionFromDefaults(cfg, user, d.defaults, d.syms, Reference())
              && AllCovered(SelectionFromDefaultsReads(cfg, user, d.defaults, d.syms, Reference()))
      decreases Rank(cfg)(CSel(c)), 4
    {
      hide Valid, Eval, Below, ExprVal, ExprReads, FirstVisible, FirstVisibleReads;
      Basics();
      SelectionBelow(c);
      var ds, ss := cfg.choices[c].defaults, cfg.choices[c].syms;
      var k := 0;
      while k < |ds|
        invariant 0 <= k <= |ds|
        invariant Valid() && Grows(old(cache), cache)
        invariant SelectionFromDefaults(cfg, user, ds[k..], ss, Reference())
               == SelectionFromDefaults(cfg, user, ds, ss, Reference())
        invariant forall b :: b in SelectionFromDefaultsReads(cfg, user, ds, ss, Reference()) ==>
                    || b in SelectionFromDefaultsReads(cfg, user, ds[k..], ss, Reference())
                    || Covered(cfg, cache, b)
      {
        assert ds[k..][0] == ds[k] && ds[k..][1..] == ds[k + 1..];
        var condVal := ExprValue(ds[k].cond, Rank(cfg)(CSel(c)));
        if condVal != 0 {
          var vis := Visibility(ds[k].sym);
          if vis != 0 {
            return Some(ds[k].sym);
          }
        }
        k := k + 1;
      }
      sel := FindVisible(c);
    }

    method ComputeSelection(c: nat) returns (sel: Option<nat>)
      requires Valid() && c < |cfg.choices|
      modifies this`cache, syms, choices
      ensures Valid() && Grows(old(cache), cache)
      ensures sel == ChoiceSelVal(cfg, user, c, Reference())
      ensures AllCovered(ChoiceSelReads(cfg, user, c, Reference()))
      decreases Rank(cfg)(CSel(c)), 5
    {
      hide Valid, Eval, Below, ChoiceTri, ChoiceTriReads, SelectionFromDefaults, SelectionFromDefaultsReads;
      Basics();
      SelectionBelow(c);
      var mode := ChoiceTriValue(c, Rank(cfg)(CSel(c)));
      if mode != 2 {
        return None;
      }
      ChoiceFields(c);
      var userSel := choices[c].userSelection;
      if userSel.Some? {
        var vis := Visibility(userSel.value);
        if vis != 0 {
          return userSel;
        }
      }
      sel := SelectionFromDefaultsValue(c);
    }

    /** Choice.selection */
    method Selection(c: nat) returns (sel: Option<nat>)
      requires Valid() && c < |cfg.choices|
      modifies this`cache, syms, choices
      ensures Valid() && Grows(old(cache), cache)
      ensures sel == Eval(cfg, user, CSel(c)).sel
      ensures CSel(c) in cache
      decreases Rank(cfg)(CSel(c)), 6
    {
      hide Valid, Eval, ChoiceSelVal, ChoiceSelReads;
      ChoiceFields(c);
      ValueOf(CSel(c));
      if choices[c].cachedSel.Some? {
        return choices[c].cachedSel.value;
      }
      sel := ComputeSelection(c);
      FillSelection(c, NO_VAL.(sel := sel));
    }

    // ---------- Assignable values ----------

    lemma AsgReadsBelow(i: nat)
      requires Valid() && i < |cfg.syms| && IsBoolTri(cfg.syms[i].typ)
      ensures Acyclic(cfg)
      ensures Rank(cfg)(Vis(i)) < Rank(cfg)(Asg(i))
      ensures forall b :: b in TypeAttrs(cfg, i) ==> Rank(cfg)(b) < Rank(cfg)(Asg(i))
    {
      hide Valid, Eval, ConfigOK, SymOK, ExprAttrs, TypeAttrs, IsRank;
      Basics();
      forall b | b in StaticReads(cfg, Asg(i))
        ensures Rank(cfg)(b) < Rank(cfg)(Asg(i))
      {
        Lower(Asg(i), b);
      }
    }

    lemma AsgExprsBelow(i: nat)
      requires Valid() && i < |cfg.syms| && IsBoolTri(cfg.syms[i].typ) && cfg.syms[i].defined
      ensures Acyclic(cfg)
      ensures Below(cfg.syms[i].revDep, Rank(cfg)(Asg(i))) && Below(cfg.syms[i].weakRevDep, Rank(cfg)(Asg(i)))
    {
      hide Valid, Eval, ConfigOK, SymOK, Below, TypeAttrs, ExprAttrs, ExprItems, PromptItems, DefaultItems, RangeItems;
      Basics();
      PropertyBelow(Asg(i), cfg.syms[i].revDep);
      PropertyBelow(Asg(i), cfg.syms[i].weakRevDep);
    }

    lemma UndefinedInvisible(i: nat)
      requires Valid() && i < |cfg.syms| && !cfg.syms[i].defined
      ensures Acyclic(cfg) && Eval(cfg, user, Vis(i)).t == 0
    {
      assert SymOK(cfg, i);
      hide Eval, UserMatches, DependentsMatch, CacheMatches, CacheOK, Shape;
      PromptlessVis(cfg, user, i);
    }

    lemma AsgBelow(i: nat)
      requires Valid() && i < |cfg.syms| && IsBoolTri(cfg.syms[i].typ)
      ensures Acyclic(cfg)
      ensures var d, r := cfg.syms[i], Rank(cfg)(Asg(i));
              && Rank(cfg)(Vis(i)) < r
              && (d.defined ==> Below(d.revDep, r) && Below(d.weakRevDep, r))
              && (forall b :: b in TypeAttrs(cfg, i) ==> Rank(cfg)(b) < r)
      ensures !cfg.syms[i].defined ==> Eval(cfg, user, Vis(i)).t == 0
    {
      hide Valid, Eval, Below, TypeAttrs;
      AsgReadsBelow(i);
      if cfg.syms[i].defined {
        AsgExprsBelow(i);
      } else {
        UndefinedInvisible(i);
      }
    }

    method ComputeAssignable(i: nat) returns (asg: seq<Tri>)
      requires Valid() && i < |cfg.syms|
      modifies this`cache, syms, choices
      ensures Valid() && Grows(old(cache), cache)
      ensures asg == SymAsgVal(cfg, user, i, Reference())
      ensures AllCovered(SymAsgReads(cfg, user, i, Reference()))
    {
      hide Valid, Eval, Below, ExprVal, ExprReads, PromotesM, PromotesMReads;
      Basics();
      var d := cfg.syms[i];
      if !IsBoolTri(d.typ) {
        return [];
      }
      AsgBelow(i);
      ghost var bound := Rank(cfg)(Asg(i));
      var vis := Visibility(i);
      if vis == 0 {
        return [];
      }
      var rev := ExprValue(d.revDep, bound);
      if vis == 2 {
        if d.choice.Some? {
          return [2];
        }
        if rev == 2 {
          return [2];
        }
        var promotes := PromotesMValue(i, bound);
        if rev == 0 {
          return if promotes then [0, 2] else [0, 1, 2];
        }
        return if promotes then [2] else [1, 2];
      }
      if rev == 0 {
        var weak := ExprValue(d.weakRevDep, bound);
        return if weak != 2 then [0, 1] else [0, 2];
      }
      return if rev == 2 then [2] else [1];
    }

    /** Symbol.assignable */
    method Assignable(i: nat) returns (asg: seq<Tri>)
      requires Valid() && i < |cfg.syms|
      modifies this`cache, syms, choices
      ensures Valid() && Grows(old(cache), cache)
      ensures asg == Eval(cfg, user, Asg(i)).asg
    {
      hide Valid, Eval, SymAsgVal, SymAsgReads;
      SymFields(i);
      ValueOf(Asg(i));
      if syms[i].cachedAsg.Some? {
        return syms[i].cachedAsg.value;
      }
      asg := ComputeAssignable(i);
      FillAsg(i, NO_VAL.(asg := asg));
    }

    /** Choice.assignable */
    method ChoiceAssignable(c: nat) returns (asg: seq<Tri>)
      requires Valid() && c < |cfg.choices|
      modifies this`cache, syms, choices
      ensures Valid() && Grows(old(cache), cache)
      ensures asg == Eval(cfg, user, CAsg(c)).asg
    {
      hide Valid, Eval;
      ChoiceFields(c);
      Basics();
      ValueOf(CAsg(c));
      if choices[c].cachedAsg.Some? {
        return choices[c].cachedAsg.value;
      }
      hide ConfigOK, Acyclic, StaticReads, ChoiceOK;
      var vis := ChoiceVisibility(c);
      if vis == 0 {
        asg := [];
      } else if vis == 2 {
        ModeReadsModules(c);
        var t := ChoiceType(c, Rank(cfg)(CAsg(c)));
        if !cfg.choices[c].isOptional {
          asg := if t == BOOL then [2] else [1, 2];
        } else {
          asg := if t == BOOL then [0, 2] else [0, 1, 2];
        }
      } else {
        asg := if cfg.choices[c].isOptional then [0, 1] else [1];
      }
      FillChoiceAsg(c, NO_VAL.(asg := asg));
    }

    lemma ModeReadsModules(c: nat)
      requires Valid() && c < |cfg.choices|
      ensures Acyclic(cfg)
      ensures cfg.choices[c].typ == TRISTATE ==> Rank(cfg)(TriV(cfg.modules)) < Rank(cfg)(CAsg(c))
    {
      hide Acyclic;
      if cfg.choices[c].typ == TRISTATE {
        Lower(CAsg(c), TriV(cfg.modules));
      }
    }

    // ---------- Invalidation ----------

    twostate lemma ChoiceSideKept(i: nat)
      requires old(CVisMatches() && CSelMatches() && CAsgMatches()) && cache == Without(old(cache), S(i))
      requires unchanged(choices`cachedVis) && unchanged(choices`cachedSel) && unchanged(choices`cachedAsg)
      ensures CVisMatches() && CSelMatches() && CAsgMatches()
    {
    }

    twostate lemma SymSideKept(c: nat)
      requires old(VisMatches() && TriMatches() && StrMatches() && AsgMatches())
      requires cache == Without(old(cache), C(c))
      requires unchanged(syms`cachedVis) && unchanged(syms`cachedTri)
      requires unchanged(syms`cachedStr) && unchanged(syms`cachedAsg)
      ensures VisMatches() && TriMatches() && StrMatches() && AsgMatches()
    {
    }

    twostate lemma SymSideDropped(i: nat)
      requires Shape() && i < |syms| && cache == Without(old(cache), S(i))
      requires old(VisMatches() && TriMatches() && StrMatches() && AsgMatches())
      requires syms[i].cachedVis == None && syms[i].cachedTri == None
      requires syms[i].cachedStr == None && syms[i].cachedAsg == None
      requires forall o :: o in syms && o != syms[i] ==>
                 && o.cachedVis == old(o.cachedVis) && o.cachedTri == old(o.cachedTri)
                 && o.cachedStr == old(o.cachedStr) && o.cachedAsg == old(o.cachedAsg)
      ensures VisMatches() && TriMatches() && StrMatches() && AsgMatches()
    {
    }

    twostate lemma ChoiceSideDropped(c: nat)
      requires Shape() && c < |choices| && cache == Without(old(cache), C(c))
      requires old(CVisMatches() && CSelMatches() && CAsgMatches())
      requires choices[c].cachedVis == None && choices[c].cachedSel == None && choices[c].cachedAsg == None
      requires forall o :: o in choices && o != choices[c] ==>
                 && o.cachedVis == old(o.cachedVis) && o.cachedSel == old(o.cachedSel)
                 && o.cachedAsg == old(o.cachedAsg)
      ensures CVisMatches() && CSelMatches() && CAsgMatches()
    {
    }

    twostate lemma WriteSideKept(x: Ref)
      requires Shape() && old(WriteMatches() && ConstantsCached()) && cache == Without(old(cache), x)
      requires unchanged(syms`writeToConf) && (x.S? ==> cfg.Sym(x.i).constTri.None?)
      ensures WriteMatches() && ConstantsCached()
    {
    }

    /** Symbol._invalidate() */
    method InvalidateSym(i: nat)
      requires Shape() && CacheMatches() && i < |cfg.syms| && cfg.syms[i].constTri.None?
      modifies this`cache, {syms[i]}`cachedVis, {syms[i]}`cachedTri, {syms[i]}`cachedStr, {syms[i]}`cachedAsg
      ensures CacheMatches() && cache == Without(old(cache), S(i))
    {
      hide VisMatches, TriMatches, StrMatches, AsgMatches, CVisMatches, CSelMatches, CAsgMatches,
        WriteMatches, ConstantsCached;
      var o := syms[i];
      o.cachedStr, o.cachedTri, o.cachedVis, o.cachedAsg := None, None, None, None;
      cache := Without(cache, S(i));
      SymSideDropped(i);
      ChoiceSideKept(i);
      WriteSideKept(S(i));
    }

    /** Choice._invalidate() */
    method InvalidateChoice(c: nat)
      requires Shape() && CacheMatches() && c < |cfg.choices|
      modifies this`cache, {choices[c]}`cachedVis, {choices[c]}`cachedAsg, {choices[c]}`cachedSel
      ensures CacheMatches() && cache == Without(old(cache), C(c))
    {
      hide VisMatches, TriMatches, StrMatches, AsgMatches, CVisMatches, CSelMatches, CAsgMatches,
        WriteMatches, ConstantsCached;
      var o := choices[c];
      o.cachedVis, o.cachedAsg, o.cachedSel := None, None, None;
      cache := Without(cache, C(c));
      ChoiceSideDropped(c);
      SymSideKept(c);
      WriteSideKept(C(c));
    }

    /** Kconfig._invalidate_all() */
    method InvalidateAll() returns (ghost dead: set<Ref>)
      requires Shape() && CacheMatches() && ConfigOK(cfg)
      requires forall a :: a in cache ==> AttrInRange(cfg, a)
      modifies this`cache, syms`cachedVis, syms`cachedTri, syms`cachedStr, syms`cachedAsg
      modifies choices`cachedVis, choices`cachedSel, choices`cachedAsg
      ensures CacheMatches() && Invalidated(cfg, old(cache), cache, dead)
      ensures forall i :: 0 <= i < |cfg.syms| && cfg.syms[i].defined ==> S(i) in dead
      ensures forall c :: 0 <= c < |cfg.choices| ==> C(c) in dead
    {
      hide CacheMatches, ConfigOK, DependsOn, Inert;
      dead := {};
      var i := 0;
      while i < |cfg.syms|
        invariant 0 <= i <= |cfg.syms| && CacheMatches()
        invariant Removed(old(cache), cache, dead)
        invariant forall j :: 0 <= j < i && cfg.syms[j].defined ==> S(j) in dead
        invariant forall x :: x in dead ==> x.S? && x.i < i && cfg.syms[x.i].defined
      {
        if cfg.syms[i].defined {
          DefinedNotConstant(i);
          InvalidateSym(i);
          dead := dead + {S(i)};
        }
        i := i + 1;
      }
      var c := 0;
      while c < |cfg.choices|
        invariant 0 <= c <= |cfg.choices| && CacheMatches()
        invariant Removed(old(cache), cache, dead)
        invariant forall j :: 0 <= j < |cfg.syms| && cfg.syms[j].defined ==> S(j) in dead
        invariant forall j :: 0 <= j < c ==> C(j) in dead
      {
        InvalidateChoice(c);
        dead := dead + {C(c)};
        c := c + 1;
      }
      EverythingInvalidated(old(cache), dead);
    }

    /** The values of the items in `dead`, and no others, are gone. */
    ghost predicate Removed(before: Cache, after: Cache, dead: set<Ref>) {
      && (forall a :: a in after ==> a in before && after[a] == before[a] && ItemOf(a) !in dead)
      && (forall a :: a in before && a !in after ==> ItemOf(a) in dead)
    }

    lemma DefinedNotConstant(i: nat)
      requires ConfigOK(cfg) && i < |cfg.syms| && cfg.syms[i].defined
      ensures cfg.syms[i].constTri.None?
    {
      assert SymOK(cfg, i);
    }

    lemma EverythingInvalidated(before: Cache, dead: set<Ref>)
      requires forall a :: a in before ==> AttrInRange(cfg, a)
      requires Removed(before, cache, dead)
      requires forall j :: 0 <= j < |cfg.syms| && cfg.syms[j].defined ==> S(j) in dead
      requires forall j :: 0 <= j < |cfg.choices| ==> C(j) in dead
      ensures Invalidated(cfg, before, cache, dead)
    {
      forall a | a in cache
        ensures Inert(cfg, a)
      {
        assert AttrInRange(cfg, a);
        match ItemOf(a) {
          case S(i) => assert !cfg.syms[i].defined;
          case C(c) => assert false;
        }
      }
      forall x, y | x in dead && ItemInRange(cfg, y) && DependsOn(cfg, y, x)
        ensures VisOf(y) !in cache
      {
        match y {
          case S(i) => assert cfg.syms[i].defined;
          case C(c) => assert C(c) in dead;
        }
        assert ItemOf(VisOf(y)) == y;
      }
    }

    /** An item that can be invalidated: constants are never. */
    predicate Changeable(x: Ref) {
      match x
      case S(i) => i < |cfg.syms| && cfg.syms[i].defined
      case C(c) => c < |cfg.choices|
    }

    method HasCachedVis(x: Ref) returns (b: bool)
      requires Shape() && CacheMatches() && ItemInRange(cfg, x)
      ensures b <==> VisOf(x) in cache
    {
      match x {
        case S(i) => b := syms[i].cachedVis.Some?;
        case C(c) => b := choices[c].cachedVis.Some?;
      }
    }

    method DependentsOf(x: Ref) returns (ds: set<Ref>)
      requires Shape() && DependentsMatch() && ItemInRange(cfg, x)
      ensures forall y :: y in ds <==> ItemInRange(cfg, y) && DependsOn(cfg, y, x)
    {
      match x {
        case S(i) => ds := syms[i].dependents;
        case C(c) => ds := choices[c].dependents;
      }
    }

    method Invalidate(x: Ref)
      requires Shape() && CacheMatches() && ConfigOK(cfg) && Changeable(x)
      modifies this`cache, syms`cachedVis, syms`cachedTri, syms`cachedStr, syms`cachedAsg
      modifies choices`cachedVis, choices`cachedSel, choices`cachedAsg
      ensures CacheMatches() && cache == Without(old(cache), x)
    {
      hide CacheMatches, ConfigOK;
      match x {
        case S(i) =>
          DefinedNotConstant(i);
          InvalidateSym(i);
        case C(c) => InvalidateChoice(c);
      }
    }

    /** Symbol._rec_invalidate() and Choice._rec_invalidate(). The dependents are visited in
        an arbitrary order. Each recursive call makes one item with a cached visibility lose
        it, so the recursion ends even though the dependents graph may have cycles. */
    method RecInvalidate(x: Ref) returns (ghost dead: set<Ref>)
      requires Shape() && DependentsMatch() && CacheMatches() && ConfigOK(cfg) && Changeable(x)
      requires forall a :: a in cache ==> AttrInRange(cfg, a)
      modifies this`cache, syms`cachedVis, syms`cachedTri, syms`cachedStr, syms`cachedAsg
      modifies choices`cachedVis, choices`cachedSel, choices`cachedAsg
      ensures CacheMatches() && Invalidated(cfg, old(cache), cache, dead) && x in dead
      decreases Live(cfg, cache), if VisOf(x) in cache then 0 else 1
    {
      hide CacheMatches, ConfigOK, DependsOn, Inert, InvalidatedExcept, DependentsMatch, Live;
      if x == S(cfg.modules) {
        dead := InvalidateAll();
        return;
      }
      ghost var before := cache;
      Invalidate(x);
      var todo := DependentsOf(x);
      InvalidateOne(cfg, before, x, todo);
      dead := {x};
      while todo != {}
        invariant CacheMatches() && InvalidatedExcept(cfg, before, cache, dead, x, todo)
        invariant x in dead && VisOf(x) !in cache
        invariant forall a :: a in cache ==> a in before
        invariant forall y :: y in todo ==> ItemInRange(cfg, y) && DependsOn(cfg, y, x)
        decreases todo
      {
        var y :| y in todo;
        var live := HasCachedVis(y);
        if live {
          DependentChangeable(x, y);
          LiveShrinks(cfg, before, cache, x);
          ghost var mid := cache;
          ghost var more := RecInvalidate(y);
          MergeDependent(cfg, before, mid, cache, dead, more, x, todo, y);
          dead := dead + more;
        } else {
          SkipDependent(cfg, before, cache, dead, x, todo, y);
        }
        todo := todo - {y};
      }
      AllDealtWith(before, dead, x);
    }

    lemma DependentChangeable(x: Ref, y: Ref)
      requires ConfigOK(cfg) && ItemInRange(cfg, y) && DependsOn(cfg, y, x)
      ensures Changeable(y)
    {
    }

    lemma AllDealtWith(before: Cache, dead: set<Ref>, x: Ref)
      requires InvalidatedExcept(cfg, before, cache, dead, x, {})
      ensures Invalidated(cfg, before, cache, dead)
    {
    }

    // ---------- Assignments ----------

    ghost function St(): State
      reads this`user, this`flags
    {
      State(user, flags)
    }

    /** The object fields agree with the abstract state, while the cached values may still be
        those of an earlier user state. */
    ghost predicate Consistent()
      reads this, syms, choices
    {
      && ConfigOK(cfg) && UserOK(cfg, user)
      && (forall a :: a in cache ==> AttrInRange(cfg, a))
      && Shape() && UserMatches() && DependentsMatch() && CacheMatches()
    }

    lemma Parts()
      requires Valid()
      ensures Consistent() && ConfigOK(cfg) && UserOK(cfg, user) && CacheOK(cfg, user, cache)
    {
    }

    /** The caches after an assignment: `dead` was invalidated and the user input of the
        surviving items is as before. */
    lemma AssignmentSound(before: Cache, u: User, dead: set<Ref>)
      requires Consistent() && ConfigOK(cfg) && UserOK(cfg, u) && CacheOK(cfg, u, before)
      requires Invalidated(cfg, before, cache, dead) && ChangedOnly(cfg, u, user, cache)
      ensures Valid()
    {
      InvalidationSound(cfg, u, user, before, cache, dead);
    }

    method StoreUserValue(i: nat, v: Option<UVal>)
      requires Shape() && UserMatches() && i < |cfg.syms|
      modifies this`user, {syms[i]}`userValue
      ensures UserMatches()
      ensures user == old(user).(sym := if v.Some? then old(user).sym[i := v.value] else old(user).sym - {i})
    {
      syms[i].userValue := v;
      user := user.(sym := if v.Some? then user.sym[i := v.value] else user.sym - {i});
    }

    method StoreWasSet(x: Ref, b: bool)
      requires Shape() && UserMatches() && ItemInRange(cfg, x)
      modifies this`flags, syms`wasSet, choices`wasSet
      ensures UserMatches() && flags == if b then old(flags) + {x} else old(flags) - {x}
    {
      match x {
        case S(i) => syms[i].wasSet := b;
        case C(c) => choices[c].wasSet := b;
      }
      flags := if b then flags + {x} else flags - {x};
    }

    method StoreMode(c: nat, mode: Option<Tri>)
      requires Shape() && UserMatches() && c < |cfg.choices|
      modifies this`user, {choices[c]}`userValue
      ensures UserMatches()
      ensures user == old(user).(
                mode := if mode.Some? then old(user).mode[c := mode.value] else old(user).mode - {c})
    {
      choices[c].userValue := mode;
      user := user.(mode := if mode.Some? then user.mode[c := mode.value] else user.mode - {c});
    }

    method StoreUserSelection(c: nat, sel: Option<nat>)
      requires Shape() && UserMatches() && c < |cfg.choices|
      modifies this`user, {choices[c]}`userSelection
      ensures UserMatches()
      ensures user == old(user).(
                selection := if sel.Some? then old(user).selection[c := sel.value] else old(user).selection - {c})
    {
      choices[c].userSelection := sel;
      user := user.(selection := if sel.Some? then user.selection[c := sel.value] else user.selection - {c});
    }

    method RecInvalidateItem(x: Ref) returns (ghost dead: set<Ref>)
      requires Consistent() && Changeable(x)
      modifies this`cache, syms, choices
      ensures Consistent() && Invalidated(cfg, old(cache), cache, dead) && x in dead
    {
      hide CacheMatches, DependentsMatch, UserMatches, UserOK, ConfigOK, Changeable;
      dead := RecInvalidate(x);
    }

    /** Symbol._rec_invalidate_if_has_prompt() */
    method RecInvalidateIfHasPrompt(i: nat) returns (ghost dead: set<Ref>)
      requires Consistent() && i < |cfg.syms|
      modifies this`cache, syms, choices
      ensures Consistent() && Invalidated(cfg, old(cache), cache, dead)
      ensures Vis(i) !in cache || Promptless(cfg, cfg.syms[i])
    {
      if cfg.syms[i].prompts != [] {
        assert SymOK(cfg, i);
        dead := RecInvalidateItem(S(i));
        assert ItemOf(Vis(i)) == S(i);
      } else {
        dead := {};
      }
    }

    /** Only _was_set changes. */
    method MarkSet(x: Ref, b: bool)
      requires Valid() && ItemInRange(cfg, x)
      modifies this`flags, syms`wasSet, choices`wasSet
      ensures Valid() && flags == if b then old(flags) + {x} else old(flags) - {x}
    {
      hide CacheMatches, DependentsMatch, UserMatches, CacheOK, ConfigOK, UserOK;
      StoreWasSet(x, b);
    }

    /** The fields that set_value() assigns: the user value, and the selection of the choice
        if a choice symbol is set to y. */
    method AssignFields(i: nat, value: UVal)
      requires Consistent() && i < |cfg.syms| && ValidValue(cfg.syms[i].typ, value)
      modifies this`user, this`flags, syms`userValue, syms`wasSet, choices`userSelection, choices`wasSet
      ensures Consistent() && St() == AssignSym(cfg.syms[i], old(St()), i, value)
    {
      hide CacheMatches, DependentsMatch, UserMatches, ValidValue, UserOK;
      var d := cfg.syms[i];
      assert SymOK(cfg, i);
      AssignSymOK(cfg, St(), i, value);
      assert d.choice.Some? ==> d.choice.value < |cfg.choices|;
      hide ConfigOK, SymOK;
      StoreUserValue(i, Some(value));
      StoreWasSet(S(i), true);
      if d.choice.Some? && value == UTri(2) {
        MarkSelected(d.choice.value, i);
      }
    }

    method MarkSelected(c: nat, i: nat)
      requires Shape() && UserMatches() && c < |choices|
      modifies this`user, this`flags, choices`userSelection, syms`wasSet, choices`wasSet
      ensures UserMatches() && flags == old(flags) + {C(c)}
      ensures user == old(user).(selection := old(user).selection[c := i])
    {
      hide UserMatches;
      StoreUserSelection(c, Some(i));
      StoreWasSet(C(c), true);
    }

    /** The part of set_value() after the value has been found valid. */
    method AssignValue(i: nat, value: UVal)
      requires Valid() && i < |cfg.syms| && ValidValue(cfg.syms[i].typ, value)
      modifies this`user, this`flags, this`cache, syms, choices
      ensures Valid() && St() == AssignSym(cfg.syms[i], old(St()), i, value)
    {
      hide Valid, Consistent, CacheOK, ValidValue, Invalidated, ConfigOK, UserOK;
      Parts();
      SymFields(i);
      var d := cfg.syms[i];
      ghost var u, before := user, cache;
      AssignFields(i, value);
      ghost var dead: set<Ref>;
      if d.choice.Some? && value == UTri(2) {
        dead := RecInvalidateItem(C(d.choice.value));
        MemberInvalidated(before, d.choice.value, i, dead);
      } else {
        dead := RecInvalidateIfHasPrompt(i);
      }
      AssignmentSound(before, u, dead);
    }

    /** Symbol.set_value() */
    method SetValue(i: nat, v: UVal) returns (ok: bool)
      requires Valid() && i < |cfg.syms|
      modifies this`user, this`flags, this`cache, syms, choices
      ensures Valid() && St() == SetSym(cfg, old(St()), i, v)
      ensures ok <==> AcceptsSym(cfg, i, v)
    {
      hide Valid, ValidValue, AssignSym;
      SymFields(i);
      var d := cfg.syms[i];
      var value := Normalize(d.typ, v);
      if syms[i].userValue == Some(value) && d.choice.None? {
        MarkSet(S(i), true);
        return true;
      }
      if !ValidValue(d.typ, value) {
        return false;
      }
      AssignValue(i, value);
      return true;
    }

    method ClearField(i: nat)
      requires Consistent() && i < |cfg.syms|
      modifies this`user, syms`userValue
      ensures Consistent() && St() == UnsetSym(old(St()), i)
    {
      hide CacheMatches, DependentsMatch, UserMatches, UserOK, ConfigOK;
      UnsetOK(cfg, St(), i);
      StoreUserValue(i, None);
    }

    /** Symbol.unset_value() */
    method UnsetValue(i: nat)
      requires Valid() && i < |cfg.syms|
      modifies this`user, this`cache, syms, choices
      ensures Valid() && St() == UnsetSym(old(St()), i)
    {
      hide Valid, Consistent, CacheOK, Invalidated, ConfigOK, UserOK;
      Parts();
      SymFields(i);
      if syms[i].userValue.Some? {
        ghost var u, before := user, cache;
        ClearField(i);
        ghost var dead := RecInvalidateIfHasPrompt(i);
        AssignmentSound(before, u, dead);
      } else {
        assert user.sym - {i} == user.sym;
      }
    }

    method AssignMode(c: nat, mode: Tri)
      requires Consistent() && c < |cfg.choices| && ValidValue(cfg.choices[c].typ, UTri(mode))
      modifies this`user, this`flags, syms`wasSet, choices`wasSet, choices`userValue
      ensures Consistent()
      ensures St() == State(old(user).(mode := old(user).mode[c := mode]), old(flags) + {C(c)})
    {
      hide CacheMatches, DependentsMatch, UserMatches, UserOK, ConfigOK, ValidValue;
      SetChoiceOK(cfg, St(), c, UTri(mode));
      StoreMode(c, Some(mode));
      StoreWasSet(C(c), true);
    }

    /** Choice.set_value() */
    method SetChoiceValue(c: nat, v: UVal) returns (ok: bool)
      requires Valid() && c < |cfg.choices|
      modifies this`user, this`flags, this`cache, syms, choices
      ensures Valid() && St() == SetChoice(cfg, old(St()), c, v)
      ensures ok <==> AcceptsChoice(cfg, c, v)
    {
      hide Valid, Consistent, CacheOK, ValidValue, Invalidated, ConfigOK, UserOK;
      Parts();
      ChoiceFields(c);
      var value := TriOfStr(v);
      ghost var u, before := user, cache;
      if value.UTri? && choices[c].userValue == Some(value.t) {
        ModeAccepted(cfg, user, c);
        assert user.mode[c := value.t] == user.mode;
        MarkSet(C(c), true);
        return true;
      }
      if !(value.UTri? && ValidValue(cfg.choices[c].typ, value)) {
        return false;
      }
      AssignMode(c, value.t);
      ghost var dead := RecInvalidateItem(C(c));
      ChoiceInvalidated(before, c, dead);
      AssignmentSound(before, u, dead);
      return true;
    }

    method ClearChoiceFields(c: nat)
      requires Consistent() && c < |cfg.choices|
      modifies this`user, choices`userValue, choices`userSelection
      ensures Consistent() && St() == UnsetChoice(old(St()), c)
    {
      hide CacheMatches, DependentsMatch, UserMatches, UserOK, ConfigOK;
      UnsetChoiceOK(cfg, St(), c);
      StoreMode(c, None);
      StoreUserSelection(c, None);
    }

    /** Choice.unset_value() */
    method UnsetChoiceValue(c: nat)
      requires Valid() && c < |cfg.choices|
      modifies this`user, this`cache, syms, choices
      ensures Valid() && St() == UnsetChoice(old(St()), c)
    {
      hide Valid, Consistent, CacheOK, Invalidated, ConfigOK, UserOK;
      Parts();
      ChoiceFields(c);
      if choices[c].userValue.Some? || choices[c].userSelection.Some? {
        ghost var u, before := user, cache;
        ClearChoiceFields(c);
        ghost var dead := RecInvalidateItem(C(c));
        ChoiceInvalidated(before, c, dead);
        AssignmentSound(before, u, dead);
      } else {
        assert user.mode - {c} == user.mode && user.selection - {c} == user.selection;
      }
    }

    lemma ChoiceInvalidated(before: Cache, c: nat, dead: set<Ref>)
      requires Invalidated(cfg, before, cache, dead) && C(c) in dead
      ensures CVis(c) !in cache
    {
      assert ItemOf(CVis(c)) == C(c);
    }

    lemma MemberInvalidated(before: Cache, c: nat, i: nat, dead: set<Ref>)
      requires ConfigOK(cfg) && i < |cfg.syms| && cfg.syms[i].choice == Some(c)
      requires Invalidated(cfg, before, cache, dead) && C(c) in dead
      ensures CVis(c) !in cache && (Vis(i) !in cache || Promptless(cfg, cfg.syms[i]))
    {
      assert SymOK(cfg, i) && ChoiceOK(cfg, c);
      assert ItemOf(CVis(c)) == C(c);
    }

    // ---------- Building the dependents sets ----------

    ghost function DepsOf(x: Ref): set<Ref>
      requires Shape() && ItemInRange(cfg, x)
      reads syms`dependents, choices`dependents
    {
      match x
      case S(i) => syms[i].dependents
      case C(c) => choices[c].dependents
    }

    ghost function Items(): set<Ref> {
      (set i | 0 <= i < |cfg.syms| :: S(i)) + (set c | 0 <= c < |cfg.choices| :: C(c))
    }

    ghost function AllDeps(): Deps
      requires Shape()
      reads syms`dependents, choices`dependents
    {
      map x | x in Items() :: DepsOf(x)
    }

    lemma ItemsInRange()
      ensures forall x :: x in Items() <==> ItemInRange(cfg, x)
    {
    }

    method AddDependent(x: Ref, y: Ref)
      requires Shape() && ItemInRange(cfg, x)
      modifies syms`dependents, choices`dependents
      ensures x in old(AllDeps()) && AllDeps() == old(AllDeps())[x := old(AllDeps())[x] + {y}]
    {
      ItemsInRange();
      ghost var before := AllDeps();
      match x {
        case S(i) => syms[i].dependents := syms[i].dependents + {y};
        case C(c) => choices[c].dependents := choices[c].dependents + {y};
      }
      forall z | z in before
        ensures AllDeps()[z] == before[x := before[x] + {y}][z]
      {
      }
    }

    /** _depend_on() of an expression that is a single item. */
    method DependOnItem(y: Ref, x: Ref)
      requires Shape() && ItemInRange(cfg, x)
      modifies syms`dependents, choices`dependents
      ensures AllDeps() == AddAll(cfg, old(AllDeps()), {x}, y)
    {
      ghost var before := AllDeps();
      if !(x.S? && cfg.syms[x.i].isConstant) {
        AddDependent(x, y);
      }
      forall z | z in before
        ensures AllDeps()[z] == AddAll(cfg, before, {x}, y)[z]
      {
      }
    }

    /** _depend_on() */
    method DependOn(y: Ref, e: Expr)
      requires Shape() && forall x :: x in ExprItems(e) ==> ItemInRange(cfg, x)
      modifies syms`dependents, choices`dependents
      ensures AllDeps() == AddAll(cfg, old(AllDeps()), ExprItems(e), y)
      decreases e
    {
      hide AddAll, ItemInRange;
      ghost var before := AllDeps();
      match e {
        case SymE(s) =>
          assert S(s) in ExprItems(e);
          DependOnItem(y, S(s));
        case ChoiceE(c) =>
          assert C(c) in ExprItems(e);
          DependOnItem(y, C(c));
        case And(l, r) =>
          DependOn(y, l);
          DependOn(y, r);
          AddAllTwice(cfg, before, ExprItems(l), ExprItems(r), y);
        case Or(l, r) =>
          DependOn(y, l);
          DependOn(y, r);
          AddAllTwice(cfg, before, ExprItems(l), ExprItems(r), y);
        case Not(e1) => DependOn(y, e1);
        case Rel(_, a, b) =>
          assert S(a) in ExprItems(e) && S(b) in ExprItems(e);
          DependOnItem(y, S(a));
          DependOnItem(y, S(b));
          AddAllTwice(cfg, before, {S(a)}, {S(b)}, y);
          assert ExprItems(e) == {S(a)} + {S(b)};
      }
    }

    method DependOnPrompts(y: Ref, ps: seq<Expr>)
      requires Shape() && forall x :: x in PromptItems(ps) ==> ItemInRange(cfg, x)
      modifies syms`dependents, choices`dependents
      ensures AllDeps() == AddAll(cfg, old(AllDeps()), PromptItems(ps), y)
    {
      hide ItemInRange, DepsOf;
      ghost var before := AllDeps();
      if ps == [] {
        AddNone(cfg, before, y);
      } else {
        hide AddAll, AllDeps;
        DependOn(y, ps[0]);
        DependOnPrompts(y, ps[1..]);
        AddAllTwice(cfg, before, ExprItems(ps[0]), PromptItems(ps[1..]), y);
      }
    }

    method DependOnDefaults(y: Ref, ds: seq<Default>)
      requires Shape() && forall x :: x in DefaultItems(ds) ==> ItemInRange(cfg, x)
      modifies syms`dependents, choices`dependents
      ensures AllDeps() == AddAll(cfg, old(AllDeps()), DefaultItems(ds), y)
    {
      hide ItemInRange, DepsOf;
      ghost var before := AllDeps();
      if ds == [] {
        AddNone(cfg, before, y);
      } else {
        hide AddAll, AllDeps;
        var value, cond := ds[0].value, ds[0].cond;
        DependOn(y, value);
        DependOn(y, cond);
        DependOnDefaults(y, ds[1..]);
        AddAllTwice(cfg, before, ExprItems(value), ExprItems(cond), y);
        AddAllTwice(cfg, before, ExprItems(value) + ExprItems(cond), DefaultItems(ds[1..]), y);
      }
    }

    method DependOnRanges(y: Ref, rs: seq<RangeDef>)
      requires Shape() && forall x :: x in RangeItems(rs) ==> ItemInRange(cfg, x)
      modifies syms`dependents, choices`dependents
      ensures AllDeps() == AddAll(cfg, old(AllDeps()), RangeItems(rs), y)
    {
      hide ItemInRange, DepsOf;
      ghost var before := AllDeps();
      if rs == [] {
        AddNone(cfg, before, y);
      } else {
        hide AddAll, AllDeps;
        var low, high, cond := S(rs[0].low), S(rs[0].high), rs[0].cond;
        DependOnItem(y, low);
        DependOnItem(y, high);
        DependOn(y, cond);
        DependOnRanges(y, rs[1..]);
        AddAllTwice(cfg, before, {low}, {high}, y);
        AddAllTwice(cfg, before, {low} + {high}, ExprItems(cond), y);
        AddAllTwice(cfg, before, {low} + {high} + ExprItems(cond), RangeItems(rs[1..]), y);
        assert RangeItems(rs) == {low} + {high} + ExprItems(cond) + RangeItems(rs[1..]);
      }
    }

    method DependOnChoiceDefaults(y: Ref, ds: seq<ChoiceDefault>)
      requires Shape() && forall x :: x in ChoiceDefaultItems(ds) ==> ItemInRange(cfg, x)
      modifies syms`dependents, choices`dependents
      ensures AllDeps() == AddAll(cfg, old(AllDeps()), ChoiceDefaultItems(ds), y)
    {
      hide ItemInRange, DepsOf;
      ghost var before := AllDeps();
      if ds == [] {
        AddNone(cfg, before, y);
      } else {
        hide AddAll, AllDeps;
        DependOn(y, ds[0].cond);
        DependOnChoiceDefaults(y, ds[1..]);
        AddAllTwice(cfg, before, ExprItems(ds[0].cond), ChoiceDefaultItems(ds[1..]), y);
      }
    }

    /** The part of _build_dep() about one symbol. */
    method BuildSymDep(i: nat)
      requires Shape() && ConfigOK(cfg) && i < |cfg.syms| && cfg.syms[i].defined
      modifies syms`dependents, choices`dependents
      ensures AllDeps() == AddAll(cfg, old(AllDeps()), ItemsOf(cfg, S(i)), S(i))
    {
      var d := cfg.syms[i];
      assert forall x :: x in SymItems(d) ==> ItemInRange(cfg, x) by {
        assert SymItems(d) == ItemsOf(cfg, S(i));
      }
      hide ConfigOK, ItemInRange, AllDeps, AddAll;
      ghost var y, before := S(i), AllDeps();
      var a, b, e := PromptItems(d.prompts), DefaultItems(d.defaults), ExprItems(d.revDep);
      var f, g, h := ExprItems(d.weakRevDep), RangeItems(d.ranges), ExprItems(d.directDep);
      DependOnPrompts(S(i), d.prompts);
      DependOnDefaults(S(i), d.defaults);
      DependOn(S(i), d.revDep);
      DependOn(S(i), d.weakRevDep);
      DependOnRanges(S(i), d.ranges);
      DependOn(S(i), d.directDep);
      AddAllTwice(cfg, before, a, b, y);
      AddAllTwice(cfg, before, a + b, e, y);
      AddAllTwice(cfg, before, a + b + e, f, y);
      AddAllTwice(cfg, before, a + b + e + f, g, y);
      AddAllTwice(cfg, before, a + b + e + f + g, h, y);
    }

    /** The part of _build_dep() about one choice. */
    method BuildChoiceDep(c: nat)
      requires Shape() && ConfigOK(cfg) && c < |cfg.choices|
      modifies syms`dependents, choices`dependents
      ensures AllDeps() == AddAll(cfg, old(AllDeps()), ItemsOf(cfg, C(c)), C(c))
    {
      var d := cfg.choices[c];
      assert forall x :: x in ChoiceItems(d) ==> ItemInRange(cfg, x) by {
        assert ChoiceItems(d) == ItemsOf(cfg, C(c));
      }
      hide ConfigOK, ItemInRange, AllDeps, AddAll;
      ghost var before := AllDeps();
      DependOnPrompts(C(c), d.prompts);
      DependOnChoiceDefaults(C(c), d.defaults);
      AddAllTwice(cfg, before, PromptItems(d.prompts), ChoiceDefaultItems(d.defaults), C(c));
    }

    /** Kconfig._build_dep() */
    method BuildDep()
      requires Shape() && ConfigOK(cfg) && DepsUpTo(cfg, AllDeps(), 0, 0)
      modifies syms`dependents, choices`dependents
      ensures DepsUpTo(cfg, AllDeps(), |cfg.syms|, |cfg.choices|)
    {
      hide ConfigOK, AllDeps, AddAll;
      var i := 0;
      while i < |cfg.syms|
        invariant 0 <= i <= |cfg.syms| && DepsUpTo(cfg, AllDeps(), i, 0)
      {
        if cfg.syms[i].defined {
          DepsUpToNext(cfg, AllDeps(), i, 0, i + 1, 0, S(i));
          BuildSymDep(i);
        } else {
          DepsUpToSkip(cfg, AllDeps(), i);
        }
        i := i + 1;
      }
      var c := 0;
      while c < |cfg.choices|
        invariant 0 <= c <= |cfg.choices| && DepsUpTo(cfg, AllDeps(), |cfg.syms|, c)
      {
        DepsUpToNext(cfg, AllDeps(), |cfg.syms|, c, |cfg.syms|, c + 1, C(c));
        BuildChoiceDep(c);
        c := c + 1;
      }
    }

    /** Kconfig._add_choice_deps() */
    method AddChoiceDeps()
      requires Shape() && ConfigOK(cfg) && DepsUpTo(cfg, AllDeps(), |cfg.syms|, |cfg.choices|)
      modifies syms`dependents, choices`dependents
      ensures DependentsMatch()
    {
      hide AllDeps, DepsUpTo, MembersUpTo, DependentsMatch;
      MembersStart(cfg, AllDeps());
      var c := 0;
      while c < |cfg.choices|
        invariant 0 <= c <= |cfg.choices| && MembersUpTo(cfg, AllDeps(), c, 0)
      {
        var ss := cfg.choices[c].syms;
        assert ChoiceOK(cfg, c);
        var k := 0;
        while k < |ss|
          invariant 0 <= k <= |ss| && MembersUpTo(cfg, AllDeps(), c, k)
        {
          assert ss[k] in ss;
          ghost var before := AllDeps();
          AddDependent(S(ss[k]), C(c));
          MembersUpToNext(cfg, before, c, k);
          k := k + 1;
        }
        MembersUpToNextChoice(cfg, AllDeps(), c);
        c := c + 1;
      }
      MembersComplete(cfg, AllDeps());
      ExactMeansMatch();
    }

    lemma ExactMeansMatch()
      requires Shape() && DepsExact(cfg, AllDeps())
      ensures DependentsMatch()
    {
      ItemsInRange();
      forall i, y | 0 <= i < |syms|
        ensures y in syms[i].dependents <==> ItemInRange(cfg, y) && DependsOn(cfg, y, S(i))
      {
        assert S(i) in AllDeps();
      }
      forall c, y | 0 <= c < |choices|
        ensures y in choices[c].dependents <==> ItemInRange(cfg, y) && DependsOn(cfg, y, C(c))
      {
        assert C(c) in AllDeps();
      }
    }

    // ---------- A new engine ----------

    /** The engine after parsing: nothing is assigned, and only n, m and y have a value.
        The dependents sets are then built. */
    constructor (cfg: Config)
      requires ConfigOK(cfg)
      ensures Valid() && this.cfg == cfg
      ensures St() == State(User(map[], map[], map[]), {})
      ensures forall i :: 0 <= i < |syms| ==> fresh(syms[i])
      ensures forall c :: 0 <= c < |choices| ==> fresh(choices[c])
    {
      hide ConfigOK, CacheOK, UserOK, ConstantCache, BlankSyms, BlankChoices;
      var ss := NewSymbols(cfg);
      var cs := NewChoices(cfg);
      this.cfg := cfg;
      this.syms := ss;
      this.choices := cs;
      this.user := User(map[], map[], map[]);
      this.flags := {};
      this.cache := ConstantCache(cfg);
      new;
      assert Shape();
      hide Shape, Valid, St;
      BuildAllDeps();
    }

    method BuildAllDeps()
      requires Shape() && ConfigOK(cfg) && BlankSyms(cfg, syms) && BlankChoices(choices)
      requires St() == State(User(map[], map[], map[]), {}) && cache == ConstantCache(cfg)
      modifies syms`dependents, choices`dependents
      ensures Valid()
    {
      hide ConfigOK, CacheOK, UserOK, BlankSyms, BlankChoices, ConstantCache;
      hide CacheMatches, DependentsMatch, AllDeps, UserMatches, DepsUpTo, Acyclic, Shape;
      ConstantCacheOK(cfg);
      StartsConsistent();
      BuildDep();
      AddChoiceDeps();
    }

    lemma StartsConsistent()
      requires Shape() && BlankSyms(cfg, syms) && BlankChoices(choices)
      requires St() == State(User(map[], map[], map[]), {}) && cache == ConstantCache(cfg)
      ensures UserMatches() && CacheMatches() && DepsUpTo(cfg, AllDeps(), 0, 0)
    {
      NothingAssigned();
      NothingCached();
      NoDependents();
    }

    lemma NothingAssigned()
      requires Shape() && BlankSyms(cfg, syms) && BlankChoices(choices)
      requires St() == State(User(map[], map[], map[]), {})
      ensures UserMatches()
    {
    }

    lemma NothingCached()
      requires Shape() && BlankSyms(cfg, syms) && BlankChoices(choices)
      requires cache == ConstantCache(cfg)
      ensures CacheMatches()
    {
    }

    lemma NoDependents()
      requires Shape() && BlankSyms(cfg, syms) && BlankChoices(choices)
      ensures DepsUpTo(cfg, AllDeps(), 0, 0)
    {
      ItemsInRange();
    }

    // ---------- Reading for output ----------

    /** str_value together with _write_to_conf, which evaluation sets as a side effect. */
    method WrittenValue(i: nat) returns (val: string, write: bool)
      requires Valid() && i < |cfg.syms|
      modifies this`cache, syms, choices
      ensures Valid() && Grows(old(cache), cache)
      ensures val == Eval(cfg, user, StrV(i)).s && write == Eval(cfg, user, StrV(i)).w
    {
      hide Valid, Eval, IntVal, TextVal;
      val := StrValue(i);
      Basics();
      if IsBoolTri(cfg.syms[i].typ) {
        StrMeansTri(i);
      }
      WriteFields(i);
      ValueOf(StrV(i));
      write := syms[i].writeToConf;
    }

    /** Kconfig.unset_values() */
    method UnsetValues()
      requires Valid()
      modifies this`user, this`cache, syms, choices
      ensures Valid() && flags == old(flags)
      ensures forall i :: cfg.Sym(i).defined ==> i !in user.sym
      ensures forall i :: !cfg.Sym(i).defined ==> UserOf(user, i) == UserOf(old(user), i)
      ensures user.mode == map[] && user.selection == map[]
    {
      hide Valid;
      Basics();
      var i := 0;
      while i < |cfg.syms|
        invariant 0 <= i <= |cfg.syms| && Valid()
        invariant flags == old(flags)
        invariant user.mode == old(user).mode && user.selection == old(user).selection
        invariant forall j :: 0 <= j < i && cfg.syms[j].defined ==> j !in user.sym
        invariant forall j :: !cfg.Sym(j).defined ==> UserOf(user, j) == UserOf(old(user), j)
      {
        if cfg.syms[i].defined {
          UnsetValue(i);
        }
        i := i + 1;
      }
      var c := 0;
      while c < |cfg.choices|
        invariant 0 <= c <= |cfg.choices| && Valid()
        invariant flags == old(flags)
        invariant forall j :: cfg.Sym(j).defined ==> j !in user.sym
        invariant forall j :: !cfg.Sym(j).defined ==> UserOf(user, j) == UserOf(old(user), j)
        invariant forall d :: 0 <= d < c ==> d !in user.mode && d !in user.selection
      {
        UnsetChoiceValue(c);
        c := c + 1;
      }
      OnlyRealChoices();
    }

    lemma OnlyRealChoices()
      requires Valid() && forall c :: 0 <= c < |cfg.choices| ==> c !in user.mode && c !in user.selection
      ensures user.mode == map[] && user.selection == map[]
    {
    }

    /** The string value of a bool or tristate symbol is not cached without the tristate value. */
    lemma StrMeansTri(i: nat)
      requires Valid() && i < |cfg.syms| && IsBoolTri(cfg.syms[i].typ) && StrV(i) in cache
      ensures TriV(i) in cache
    {
      assert SymOK(cfg, i);
      assert TriV(i) in Reads(cfg, user, StrV(i), Reference());
    }
  }
}
