/** What a passed loop check says about evaluation. */
module WellFounded {
  import opened Types
  import opened Semantics
  import opened Evaluation
  import opened Caching
  import opened DepLoop

  // ---------- What a successful check means ----------

  /** Defined symbols that depend on each other directly never form a cycle. */
  lemma {:induction false} NoSymbolCycle(cfg: Config, order: map<Ref, nat>, loop: seq<Ref>)
    requires Ordered(cfg, order) && loop != []
    requires forall k :: 0 <= k < |loop| ==> loop[k].S?
    requires forall k :: 0 < k < |loop| ==> Mentioned(cfg, loop[k], loop[k - 1])
    ensures !Mentioned(cfg, loop[0], loop[|loop| - 1])
  {
    var last := |loop| - 1;
    if Mentioned(cfg, loop[0], loop[last]) {
      forall k | 0 <= k <= last
        ensures loop[k] in order
      {
        assert k < last ==> Mentioned(cfg, loop[k + 1], loop[k + 1 - 1]);
      }
      OrderClimbs(cfg, order, loop, last);
    }
  }

  lemma {:induction false} OrderClimbs(cfg: Config, order: map<Ref, nat>, loop: seq<Ref>, k: nat)
    requires Ordered(cfg, order) && k < |loop|
    requires forall j :: 0 <= j < |loop| ==> loop[j].S? && loop[j] in order
    requires forall j :: 0 < j < |loop| ==> Mentioned(cfg, loop[j], loop[j - 1])
    ensures order[loop[0]] <= order[loop[k]]
  {
    hide Mentioned;
    if k > 0 {
      OrderClimbs(cfg, order, loop, k - 1);
      assert Mentioned(cfg, loop[k], loop[k - 1]);
    }
  }

  // ---------- Heights ----------

  /** The height of a symbol in the order of evaluation. */
  ghost function Height(cfg: Config, order: map<Ref, nat>, i: nat): nat
    requires Ordered(cfg, order)
  {
    if !cfg.Sym(i).defined then 0 else 2 + |order| - order[S(i)]
  }

  /** The attributes of symbols in the order of the symbols, those of choices above them, and
      on top the assignable values, which nothing reads. */
  ghost function HeightRank(cfg: Config, order: map<Ref, nat>, a: Attr): nat
    requires Ordered(cfg, order)
  {
    match a
    case Vis(i) => if cfg.Sym(i).defined then 8 * Height(cfg, order, i) else 16
    case TriV(i) => 8 * Height(cfg, order, i) + 1
    case StrV(i) => 8 * Height(cfg, order, i) + 2
    case CVis(_) => 8 * (|order| + 3)
    case CSel(_) => 8 * (|order| + 3) + 1
    case CAsg(_) => 8 * (|order| + 3) + 1
    case Asg(_) => 8 * (|order| + 3) + 2
  }

  lemma HeightLimit(cfg: Config, order: map<Ref, nat>, a: Attr)
    requires Ordered(cfg, order)
    ensures HeightRank(cfg, order, a) < 8 * (|order| + 4)
    ensures a.Vis? || a.TriV? || a.StrV? ==> HeightRank(cfg, order, a) < 8 * (|order| + 3)
    ensures !a.Asg? ==> HeightRank(cfg, order, a) < 8 * (|order| + 3) + 2
  {
    hide Mentioned;
  }

  // ---------- What is read ----------

  /** The attributes whose reads no dependents edge shows: MODULES, which tristate symbols read,
      and the visibility and selection of choices, which their symbols read. */
  function Cuts(cfg: Config): set<Attr> {
    {TriV(cfg.modules)} +
    (set c | 0 <= c < |cfg.choices| :: CVis(c)) + (set c | 0 <= c < |cfg.choices| :: CSel(c))
  }

  /** The values of the given symbols. */
  ghost predicate ValuesOf(items: set<Ref>, b: Attr) {
    (b.TriV? || b.StrV?) && ItemOf(b) in items
  }

  /** What expressions over the items read. */
  ghost predicate FromItems(cfg: Config, items: set<Ref>, b: Attr) {
    ValuesOf(items, b) || exists c :: C(c) in items && b in ModeAttrs(cfg, c)
  }

  lemma {:induction false} ExprFromItems(cfg: Config, e: Expr)
    ensures forall b :: b in ExprAttrs(cfg, e) ==> FromItems(cfg, ExprItems(e), b)
  {
    hide ModeAttrs;
    match e
    case ChoiceE(c) => assert C(c) in ExprItems(e);
    case And(l, r) => ExprFromItems(cfg, l); ExprFromItems(cfg, r);
    case Or(l, r) => ExprFromItems(cfg, l); ExprFromItems(cfg, r);
    case Not(e1) => ExprFromItems(cfg, e1);
    case _ =>
  }

  lemma {:induction false} PromptsFromItems(cfg: Config, ps: seq<Expr>)
    ensures forall b :: b in PromptAttrs(cfg, ps) ==> FromItems(cfg, PromptItems(ps), b)
  {
    hide ModeAttrs;
    if ps != [] {
      ExprFromItems(cfg, ps[0]);
      PromptsFromItems(cfg, ps[1..]);
    }
  }

  lemma {:induction false} DefaultsFromItems(cfg: Config, ds: seq<Default>)
    ensures forall b :: b in DefaultAttrs(cfg, ds) ==> FromItems(cfg, DefaultItems(ds), b)
    ensures forall b :: b in DefaultStrAttrs(cfg, ds) ==> FromItems(cfg, DefaultItems(ds), b)
  {
    hide ModeAttrs;
    if ds != [] {
      ExprFromItems(cfg, ds[0].cond);
      ExprFromItems(cfg, ds[0].value);
      DefaultsFromItems(cfg, ds[1..]);
    }
  }

  lemma {:induction false} RangesFromItems(cfg: Config, rs: seq<RangeDef>)
    ensures forall b :: b in RangeAttrs(cfg, rs) ==> FromItems(cfg, RangeItems(rs), b)
  {
    hide ModeAttrs;
    if rs != [] {
      ExprFromItems(cfg, rs[0].cond);
      RangesFromItems(cfg, rs[1..]);
    }
  }

  lemma {:induction false} ChoiceDefaultsFromItems(cfg: Config, ds: seq<ChoiceDefault>, ss: seq<nat>)
    requires forall k :: 0 <= k < |ds| ==> ds[k].sym in ss
    ensures forall b :: b in ChoiceDefaultAttrs(cfg, ds) ==>
                    FromItems(cfg, ChoiceDefaultItems(ds), b) || (b.Vis? && b.i in ss)
  {
    hide ModeAttrs;
    if ds != [] {
      ExprFromItems(cfg, ds[0].cond);
      ChoiceDefaultsFromItems(cfg, ds[1..], ss);
    }
  }

  /** What is mentioned is in range: it is the value of a symbol or a cut. */
  lemma MentionedInRange(cfg: Config, y: Ref, b: Attr)
    requires PartsOK(cfg) && ItemInRange(cfg, y) && FromItems(cfg, ItemsOf(cfg, y), b)
    ensures AttrInRange(cfg, b)
    ensures ValuesOf(ItemsOf(cfg, y), b) || (b in Cuts(cfg) && cfg.choices != [])
  {
    if ValuesOf(ItemsOf(cfg, y), b) {
      assert ItemInRange(cfg, ItemOf(b));
    } else {
      var c :| C(c) in ItemsOf(cfg, y) && b in ModeAttrs(cfg, c);
      assert ItemInRange(cfg, C(c));
    }
    hide ItemsOf;
  }

  /** Values of mentioned symbols, lower attributes of the symbol itself, and the constant n. */
  ghost predicate OwnOrMentioned(cfg: Config, i: nat, a: Attr, b: Attr) {
    || ValuesOf(ItemsOf(cfg, S(i)), b)
    || (b == Vis(i) && a != Vis(i)) || (b == TriV(i) && a == StrV(i))
    || b == TriV(cfg.n)
  }

  /** What an attribute of a defined symbol may read. Only tristates and configurations with
      choices have cuts that are not mentioned. */
  ghost predicate ReadAllowed(cfg: Config, i: nat, a: Attr, b: Attr) {
    || OwnOrMentioned(cfg, i, a, b)
    || (b in Cuts(cfg) && (cfg.choices != [] || cfg.Sym(i).typ == TRISTATE))
  }

  lemma MentionedAllowed(cfg: Config, i: nat, a: Attr, b: Attr)
    requires PartsOK(cfg) && cfg.Sym(i).defined && FromItems(cfg, SymItems(cfg.Sym(i)), b)
    ensures ReadAllowed(cfg, i, a, b)
  {
    hide PartsOK, FromItems;
    MentionedInRange(cfg, S(i), b);
  }

  /** The mode and the selection of the choice of a symbol are cuts. */
  lemma MembershipCut(cfg: Config, i: nat, b: Attr)
    requires PartsOK(cfg) && cfg.Sym(i).choice.Some?
    requires b in ModeAttrs(cfg, cfg.Sym(i).choice.value) + {CSel(cfg.Sym(i).choice.value)}
    ensures b in Cuts(cfg) && cfg.choices != []
  {
    assert SymOK(cfg, i);
    hide ItemsOf;
  }

  lemma VisReads(cfg: Config, i: nat, b: Attr)
    requires PartsOK(cfg) && cfg.Sym(i).defined && b in StaticReads(cfg, Vis(i))
    ensures ReadAllowed(cfg, i, Vis(i), b)
  {
    var d := cfg.syms[i];
    hide PartsOK, PromptAttrs, ModeAttrs, ReadAllowed;
    if b in PromptAttrs(cfg, d.prompts) {
      PromptsFromItems(cfg, d.prompts);
      MentionedAllowed(cfg, i, Vis(i), b);
    } else if d.choice.Some? && b in ModeAttrs(cfg, d.choice.value) {
      MembershipCut(cfg, i, b);
      CutAllowed(cfg, i, Vis(i), b);
    } else {
      PlainAllowed(cfg, i, Vis(i), b);
    }
  }

  lemma CutAllowed(cfg: Config, i: nat, a: Attr, b: Attr)
    requires b in Cuts(cfg) && cfg.choices != []
    ensures ReadAllowed(cfg, i, a, b)
  {
  }

  lemma PlainAllowed(cfg: Config, i: nat, a: Attr, b: Attr)
    requires (b == Vis(i) && a != Vis(i)) || (b == TriV(i) && a == StrV(i)) || b == TriV(cfg.n) ||
             (b == TriV(cfg.modules) && cfg.Sym(i).typ == TRISTATE)
    ensures ReadAllowed(cfg, i, a, b)
  {
    hide ItemsOf;
  }

  lemma TriReads(cfg: Config, i: nat, b: Attr)
    requires PartsOK(cfg) && cfg.Sym(i).defined && b in StaticReads(cfg, TriV(i))
    ensures ReadAllowed(cfg, i, TriV(i), b)
  {
    var d := cfg.syms[i];
    hide PartsOK, ExprAttrs, DefaultAttrs, ModeAttrs, ReadAllowed;
    if d.choice.Some? && b == CSel(d.choice.value) {
      MembershipCut(cfg, i, b);
      CutAllowed(cfg, i, TriV(i), b);
    } else if b == Vis(i) || (d.choice.None? && b in TypeAttrs(cfg, i)) {
      PlainAllowed(cfg, i, TriV(i), b);
    } else {
      DefaultsFromItems(cfg, d.defaults);
      ExprFromItems(cfg, d.revDep);
      ExprFromItems(cfg, d.weakRevDep);
      ExprFromItems(cfg, d.directDep);
      assert FromItems(cfg, SymItems(d), b);
      MentionedAllowed(cfg, i, TriV(i), b);
    }
  }

  lemma StrReads(cfg: Config, i: nat, b: Attr)
    requires PartsOK(cfg) && cfg.Sym(i).defined && b in StaticReads(cfg, StrV(i))
    ensures ReadAllowed(cfg, i, StrV(i), b)
  {
    var d := cfg.syms[i];
    hide PartsOK, DefaultStrAttrs, RangeAttrs, ModeAttrs, ReadAllowed;
    if b == Vis(i) || b == TriV(i) {
      PlainAllowed(cfg, i, StrV(i), b);
    } else {
      DefaultsFromItems(cfg, d.defaults);
      RangesFromItems(cfg, d.ranges);
      assert FromItems(cfg, SymItems(d), b);
      MentionedAllowed(cfg, i, StrV(i), b);
    }
  }

  lemma DefinedReads(cfg: Config, i: nat, a: Attr, b: Attr)
    requires PartsOK(cfg) && cfg.Sym(i).defined && a in {Vis(i), TriV(i), StrV(i)} && b in StaticReads(cfg, a)
    ensures ReadAllowed(cfg, i, a, b)
  {
    hide PartsOK, StaticReads, ReadAllowed;
    match a
    case Vis(_) => VisReads(cfg, i, b);
    case TriV(_) => TriReads(cfg, i, b);
    case _ => StrReads(cfg, i, b);
  }

  /** Undefined symbols are constants or have no type. */
  lemma UndefinedReads(cfg: Config, i: nat, a: Attr, b: Attr)
    requires PartsOK(cfg) && !cfg.Sym(i).defined && a in {Vis(i), TriV(i), StrV(i)} && b in StaticReads(cfg, a)
    ensures (a == Vis(i) && (b == TriV(cfg.n) || b == TriV(cfg.modules))) || (a == StrV(i) && b == TriV(i))
  {
    if i < |cfg.syms| {
      assert SymOK(cfg, i);
    }
    hide ItemsOf;
  }

  /** A choice reads what its properties mention, its own visibility, MODULES, and the
      visibility of its symbols. */
  lemma ChoiceReads(cfg: Config, c: nat, a: Attr, b: Attr)
    requires PartsOK(cfg) && c < |cfg.choices| && a in {CVis(c), CSel(c)} && b in StaticReads(cfg, a)
    ensures FromItems(cfg, ItemsOf(cfg, C(c)), b) || b in Cuts(cfg) || (b.Vis? && b.i < |cfg.syms|)
  {
    var d := cfg.choices[c];
    assert ChoiceOK(cfg, c);
    hide PartsOK, PromptAttrs, ChoiceDefaultAttrs, DependsOn;
    PromptsFromItems(cfg, d.prompts);
    ChoiceDefaultsFromItems(cfg, d.defaults, d.syms);
  }

  lemma MentionedLower(cfg: Config, order: map<Ref, nat>, i: nat, b: Attr)
    requires PartsOK(cfg) && Ordered(cfg, order) && cfg.Sym(i).defined && ValuesOf(ItemsOf(cfg, S(i)), b)
    ensures HeightRank(cfg, order, b) < 8 * Height(cfg, order, i)
  {
    var x := ItemOf(b);
    if cfg.Sym(x.i).defined {
      assert SymOK(cfg, x.i);
      assert Mentioned(cfg, x, S(i));
      assert S(i) in order && x in order && order[S(i)] < order[x];
    }
  }

  lemma OwnLower(cfg: Config, order: map<Ref, nat>, i: nat, a: Attr, b: Attr)
    requires PartsOK(cfg) && Ordered(cfg, order) && cfg.Sym(i).defined && a in {Vis(i), TriV(i), StrV(i)}
    requires OwnOrMentioned(cfg, i, a, b)
    ensures HeightRank(cfg, order, b) < HeightRank(cfg, order, a)
  {
    assert SymOK(cfg, cfg.n);
    if ValuesOf(ItemsOf(cfg, S(i)), b) {
      MentionedLower(cfg, order, i, b);
    }
    hide PartsOK, ItemsOf, Mentioned;
  }

  /** Every read that is not a cut lowers the height. */
  lemma HeightLower(cfg: Config, order: map<Ref, nat>, a: Attr, b: Attr)
    requires PartsOK(cfg) && Ordered(cfg, order) && b in StaticReads(cfg, a) && b !in Cuts(cfg)
    requires a in Universe(cfg)
    ensures HeightRank(cfg, order, b) < HeightRank(cfg, order, a)
  {
    UniverseSpec(cfg);
    hide StaticReads, PartsOK, Ordered, Universe;
    if a.CVis? || a.CSel? {
      ChoiceLower(cfg, order, a.c, a, b);
    } else if cfg.Sym(a.i).defined {
      DefinedReads(cfg, a.i, a, b);
      OwnLower(cfg, order, a.i, a, b);
    } else {
      UndefinedLower(cfg, order, a.i, a, b);
    }
  }

  lemma UndefinedLower(cfg: Config, order: map<Ref, nat>, i: nat, a: Attr, b: Attr)
    requires PartsOK(cfg) && Ordered(cfg, order) && !cfg.Sym(i).defined && a in {Vis(i), TriV(i), StrV(i)}
    requires b in StaticReads(cfg, a) && b !in Cuts(cfg)
    ensures HeightRank(cfg, order, b) < HeightRank(cfg, order, a)
  {
    UndefinedReads(cfg, i, a, b);
    assert SymOK(cfg, cfg.n);
    hide PartsOK, Mentioned, StaticReads;
  }

  lemma ChoiceLower(cfg: Config, order: map<Ref, nat>, c: nat, a: Attr, b: Attr)
    requires PartsOK(cfg) && Ordered(cfg, order) && c < |cfg.choices| && a in {CVis(c), CSel(c)}
    requires b in StaticReads(cfg, a) && b !in Cuts(cfg)
    ensures HeightRank(cfg, order, b) < HeightRank(cfg, order, a)
  {
    hide PartsOK, StaticReads, Ordered, FromItems, ItemsOf;
    ChoiceReads(cfg, c, a, b);
    if FromItems(cfg, ItemsOf(cfg, C(c)), b) {
      MentionedInRange(cfg, C(c), b);
    }
    HeightLimit(cfg, order, b);
  }

  // ---------- Everything that is read ----------

  /** The attributes that values are computed from. */
  function Universe(cfg: Config): set<Attr> {
    (set i | 0 <= i < |cfg.syms| :: Vis(i)) + (set i | 0 <= i < |cfg.syms| :: TriV(i)) +
    (set i | 0 <= i < |cfg.syms| :: StrV(i)) +
    (set c | 0 <= c < |cfg.choices| :: CVis(c)) + (set c | 0 <= c < |cfg.choices| :: CSel(c))
  }

  lemma UniverseSpec(cfg: Config)
    ensures forall a :: a in Universe(cfg) <==> AttrInRange(cfg, a) && !a.Asg? && !a.CAsg?
  {
  }

  lemma ReadsInUniverse(cfg: Config, a: Attr)
    requires PartsOK(cfg) && a in Universe(cfg)
    ensures StaticReads(cfg, a) <= Universe(cfg)
  {
    hide PartsOK, StaticReads, Universe;
    forall b | b in StaticReads(cfg, a)
      ensures b in Universe(cfg)
    {
      ReadInUniverse(cfg, a, b);
    }
  }

  lemma CutsInUniverse(cfg: Config)
    requires PartsOK(cfg)
    ensures Cuts(cfg) <= Universe(cfg) && TriV(cfg.n) in Universe(cfg)
  {
    hide ItemsOf, SymOK, ChoiceOK;
  }

  lemma ReadInUniverse(cfg: Config, a: Attr, b: Attr)
    requires PartsOK(cfg) && a in Universe(cfg) && b in StaticReads(cfg, a)
    ensures b in Universe(cfg)
  {
    UniverseSpec(cfg);
    CutsInUniverse(cfg);
    hide PartsOK, StaticReads, Universe, FromItems, ItemsOf;
    if a.CVis? || a.CSel? {
      ChoiceReads(cfg, a.c, a, b);
      if FromItems(cfg, ItemsOf(cfg, C(a.c)), b) {
        MentionedInRange(cfg, C(a.c), b);
      }
    } else if cfg.Sym(a.i).defined {
      DefinedReads(cfg, a.i, a, b);
      if ValuesOf(ItemsOf(cfg, S(a.i)), b) {
        ValueInRange(cfg, a.i, b);
      }
    } else {
      UndefinedReads(cfg, a.i, a, b);
    }
  }

  lemma ValueInRange(cfg: Config, i: nat, b: Attr)
    requires PartsOK(cfg) && i < |cfg.syms| && ValuesOf(ItemsOf(cfg, S(i)), b)
    ensures AttrInRange(cfg, b)
  {
    assert ItemInRange(cfg, S(i)) && ItemInRange(cfg, ItemOf(b));
  }

  predicate ClosedUnderReads(cfg: Config, attrs: set<Attr>) {
    forall a, b {:trigger b in StaticReads(cfg, a)} :: a in attrs && b in StaticReads(cfg, a) ==> b in attrs
  }

  /** The attributes together with what they read directly. */
  function WithReads(cfg: Config, attrs: set<Attr>): set<Attr> {
    attrs + set a, b | a in attrs && b in StaticReads(cfg, a) :: b
  }

  /** Everything the attributes read, directly or indirectly, by rounds until nothing is new. */
  function Closure(cfg: Config, attrs: set<Attr>): set<Attr>
    requires PartsOK(cfg) && attrs <= Universe(cfg)
    decreases Universe(cfg) - attrs
  {
    var more := WithReads(cfg, attrs);
    if more == attrs then attrs
    else
      RoundInUniverse(cfg, attrs);
      Closure(cfg, more)
  }

  lemma RoundInUniverse(cfg: Config, attrs: set<Attr>)
    requires PartsOK(cfg) && attrs <= Universe(cfg)
    ensures attrs <= WithReads(cfg, attrs) <= Universe(cfg)
    ensures WithReads(cfg, attrs) != attrs ==> Universe(cfg) - WithReads(cfg, attrs) < Universe(cfg) - attrs
  {
    hide StaticReads, Universe, PartsOK;
    forall b | b in WithReads(cfg, attrs)
      ensures b in Universe(cfg)
    {
      if b !in attrs {
        var a :| a in attrs && b in StaticReads(cfg, a);
        ReadInUniverse(cfg, a, b);
      }
    }
    if WithReads(cfg, attrs) != attrs {
      var b :| b in WithReads(cfg, attrs) && b !in attrs;
      assert b in Universe(cfg) - attrs;
    }
  }

  /** The closure is closed, and it is the least such set. */
  lemma {:induction false} ClosureSpec(cfg: Config, attrs: set<Attr>)
    requires PartsOK(cfg) && attrs <= Universe(cfg)
    ensures attrs <= Closure(cfg, attrs) && ClosedUnderReads(cfg, Closure(cfg, attrs))
    decreases Universe(cfg) - attrs
  {
    hide StaticReads, Universe, PartsOK;
    var more := WithReads(cfg, attrs);
    if more == attrs {
      forall a, b | a in attrs && b in StaticReads(cfg, a)
        ensures b in attrs
      {
        assert b in more;
      }
    } else {
      RoundInUniverse(cfg, attrs);
      ClosureSpec(cfg, more);
    }
  }

  lemma {:induction false} ClosureLeast(cfg: Config, attrs: set<Attr>, closed: set<Attr>)
    requires PartsOK(cfg) && attrs <= Universe(cfg) && attrs <= closed && ClosedUnderReads(cfg, closed)
    ensures Closure(cfg, attrs) <= closed
    decreases Universe(cfg) - attrs
  {
    hide StaticReads, Universe, PartsOK;
    var more := WithReads(cfg, attrs);
    if more != attrs {
      RoundInUniverse(cfg, attrs);
      ClosureLeast(cfg, more, closed);
    }
  }

  /** Everything that is read to compute the attribute. */
  function ReadBy(cfg: Config, a: Attr): set<Attr>
    requires PartsOK(cfg) && a in Universe(cfg)
  {
    ReadsInUniverse(cfg, a);
    Closure(cfg, StaticReads(cfg, a))
  }

  lemma ReadBySpec(cfg: Config, a: Attr)
    requires PartsOK(cfg) && a in Universe(cfg)
    ensures StaticReads(cfg, a) <= ReadBy(cfg, a) <= Universe(cfg) && ClosedUnderReads(cfg, ReadBy(cfg, a))
  {
    hide StaticReads, Universe, PartsOK, Closure;
    ReadsInUniverse(cfg, a);
    ClosureSpec(cfg, StaticReads(cfg, a));
    forall x, y | x in Universe(cfg) && y in StaticReads(cfg, x)
      ensures y in Universe(cfg)
    {
      ReadInUniverse(cfg, x, y);
    }
    ClosureLeast(cfg, StaticReads(cfg, a), Universe(cfg));
  }

  /** What is read reads no more. */
  lemma ReadByReads(cfg: Config, a: Attr, b: Attr)
    requires PartsOK(cfg) && a in Universe(cfg) && b in StaticReads(cfg, a)
    ensures b in Universe(cfg) && b in ReadBy(cfg, a) && ReadBy(cfg, b) <= ReadBy(cfg, a)
  {
    hide StaticReads, Universe, PartsOK, Closure;
    ReadInUniverse(cfg, a, b);
    ReadBySpec(cfg, a);
    ReadsInUniverse(cfg, b);
    ClosureLeast(cfg, StaticReads(cfg, b), ReadBy(cfg, a));
  }

  // ---------- When the check is enough ----------

  /** No cut is read to compute it. */
  predicate NoCutReadsItself(cfg: Config)
    requires PartsOK(cfg)
  {
    CutsInUniverse(cfg);
    forall a :: a in Cuts(cfg) ==> a !in ReadBy(cfg, a)
  }

  /** The number of cuts that are read. Attributes that nothing is computed from come last. */
  ghost function CutsRead(cfg: Config, a: Attr): nat
    requires PartsOK(cfg)
  {
    if a in Universe(cfg) then |Cuts(cfg) * ReadBy(cfg, a)| else |Cuts(cfg)| + 1
  }

  /** Two digits, of which the lower one is less than k. */
  function Packed(k: nat, x: nat, h: nat): nat {
    x * k + h
  }

  ghost function CutRank(cfg: Config, order: map<Ref, nat>, a: Attr): nat
    requires PartsOK(cfg) && Ordered(cfg, order)
  {
    Packed(8 * (|order| + 4), CutsRead(cfg, a), HeightRank(cfg, order, a))
  }

  lemma Smaller<T>(a: set<T>, b: set<T>)
    requires a <= b
    ensures |a| <= |b| && (a != b ==> |a| < |b|)
  {
    assert b == a + (b - a);
  }

  lemma CutsReadLower(cfg: Config, a: Attr, b: Attr)
    requires PartsOK(cfg) && NoCutReadsItself(cfg) && b in StaticReads(cfg, a)
    ensures a in Universe(cfg) ==> CutsRead(cfg, b) <= CutsRead(cfg, a)
    ensures a in Universe(cfg) && b in Cuts(cfg) ==> CutsRead(cfg, b) < CutsRead(cfg, a)
    ensures a !in Universe(cfg) && b in Universe(cfg) ==> CutsRead(cfg, b) < CutsRead(cfg, a)
  {
    hide StaticReads, Universe, PartsOK, ReadBy, Cuts;
    if a in Universe(cfg) {
      ReadByReads(cfg, a, b);
      assert b in Cuts(cfg) ==> b in Cuts(cfg) * ReadBy(cfg, a) && b !in Cuts(cfg) * ReadBy(cfg, b);
      Smaller(Cuts(cfg) * ReadBy(cfg, b), Cuts(cfg) * ReadBy(cfg, a));
    } else if b in Universe(cfg) {
      Smaller(Cuts(cfg) * ReadBy(cfg, b), Cuts(cfg));
    }
  }

  /** Outside the universe there are assignable values and attributes of unknown items. */
  lemma OutsideLower(cfg: Config, order: map<Ref, nat>, a: Attr, b: Attr)
    requires PartsOK(cfg) && Ordered(cfg, order) && b in StaticReads(cfg, a)
    requires a !in Universe(cfg) && b !in Universe(cfg)
    ensures HeightRank(cfg, order, b) < HeightRank(cfg, order, a)
  {
    OutsideReads(cfg, a, b);
    HeightLimit(cfg, order, b);
    hide Ordered, StaticReads, PartsOK, Universe;
  }

  lemma OutsideReads(cfg: Config, a: Attr, b: Attr)
    requires PartsOK(cfg) && b in StaticReads(cfg, a) && a !in Universe(cfg) && b !in Universe(cfg)
    ensures (a.Asg? && !b.Asg?) || ((a.CSel? || a.CAsg?) && b.CVis?)
  {
    UniverseSpec(cfg);
    CutsInUniverse(cfg);
    assert TriV(cfg.modules) in Cuts(cfg);
    hide ExprAttrs, PartsOK, Universe, Cuts;
    if a.Asg? {
      NeverAssignable(cfg, cfg.Sym(a.i).revDep);
      NeverAssignable(cfg, cfg.Sym(a.i).weakRevDep);
    }
  }

  lemma {:induction false} NeverAssignable(cfg: Config, e: Expr)
    ensures forall b :: b in ExprAttrs(cfg, e) ==> !b.Asg?
  {
    match e
    case And(l, r) => NeverAssignable(cfg, l); NeverAssignable(cfg, r);
    case Or(l, r) => NeverAssignable(cfg, l); NeverAssignable(cfg, r);
    case Not(e1) => NeverAssignable(cfg, e1);
    case _ =>
  }

  lemma Digits(k: nat, x: nat, y: nat, h: nat, h': nat)
    requires h < k && (x < y || (x == y && h < h'))
    ensures Packed(k, x, h) < Packed(k, y, h')
  {
    if x < y {
      assert y * k >= (x + 1) * k == x * k + k;
    }
  }

  lemma CutRankLower(cfg: Config, order: map<Ref, nat>, a: Attr, b: Attr)
    requires PartsOK(cfg) && Ordered(cfg, order) && NoCutReadsItself(cfg) && b in StaticReads(cfg, a)
    ensures CutRank(cfg, order, b) < CutRank(cfg, order, a)
  {
    hide StaticReads, HeightRank, Ordered, PartsOK, Universe, Cuts, NoCutReadsItself;
    CutsReadLower(cfg, a, b);
    if a in Universe(cfg) {
      if b !in Cuts(cfg) {
        HeightLower(cfg, order, a, b);
      }
    } else if b !in Universe(cfg) {
      OutsideLower(cfg, order, a, b);
    }
    HeightLimit(cfg, order, b);
    var x, y := CutsRead(cfg, b), CutsRead(cfg, a);
    assert x < y || (x <= y && HeightRank(cfg, order, b) < HeightRank(cfg, order, a));
    hide CutsRead;
    Digits(8 * (|order| + 4), x, y, HeightRank(cfg, order, b), HeightRank(cfg, order, a));
  }

  lemma CutFreeAcyclic(cfg: Config, order: map<Ref, nat>)
    requires PartsOK(cfg) && Ordered(cfg, order) && NoCutReadsItself(cfg)
    ensures Acyclic(cfg)
  {
    hide StaticReads, Ordered, PartsOK, NoCutReadsItself, CutRank;
    var rank := a => CutRank(cfg, order, a);
    forall a, b | b in StaticReads(cfg, a)
      ensures rank(b) < rank(a)
    {
      CutRankLower(cfg, order, a, b);
    }
    assert IsRank(cfg, rank);
  }

  /** Nothing that is read has the rank of the reader or a higher one. */
  lemma NothingReadsItself(cfg: Config, rank: Attr -> nat, a: Attr)
    requires PartsOK(cfg) && IsRank(cfg, rank) && a in Universe(cfg)
    ensures a !in ReadBy(cfg, a)
  {
    hide StaticReads, Universe, PartsOK, Closure;
    ReadBySpec(cfg, a);
    ReadsInUniverse(cfg, a);
    var lower := set b | b in ReadBy(cfg, a) && rank(b) < rank(a);
    ClosureLeast(cfg, StaticReads(cfg, a), lower);
  }

  /** The search follows dependents. They do not show that tristate symbols read MODULES and
      that choice symbols read the mode and the selection of their choice. So a passed check
      makes evaluation well-founded exactly if none of these is read to compute itself. */
  lemma CheckedMeansAcyclicIff(cfg: Config, order: map<Ref, nat>)
    requires PartsOK(cfg) && Ordered(cfg, order)
    ensures Acyclic(cfg) <==> NoCutReadsItself(cfg)
  {
    hide StaticReads, Ordered, PartsOK, ReadBy, IsRank;
    CutsInUniverse(cfg);
    if NoCutReadsItself(cfg) {
      CutFreeAcyclic(cfg, order);
    } else if Acyclic(cfg) {
      var a :| a in Cuts(cfg) && a in ReadBy(cfg, a);
      NothingReadsItself(cfg, Rank(cfg), a);
    }
  }

  /** The configuration then meets everything that evaluation relies on. */
  lemma CheckedMeansOK(cfg: Config, order: map<Ref, nat>)
    requires PartsOK(cfg) && Ordered(cfg, order)
    ensures ConfigOK(cfg) <==> NoCutReadsItself(cfg)
  {
    CheckedMeansAcyclicIff(cfg, order);
    hide Acyclic, Ordered, PartsOK, NoCutReadsItself;
  }

  // ---------- Configurations without choices ----------

  /** a belongs to a defined tristate symbol. */
  predicate OfTristate(cfg: Config, a: Attr) {
    (a.Vis? || a.TriV? || a.StrV?) && cfg.Sym(a.i).defined && cfg.Sym(a.i).typ == TRISTATE
  }

  /** Everything the value of MODULES is computed from, including itself. */
  function ReadByModules(cfg: Config): set<Attr>
    requires PartsOK(cfg)
  {
    CutsInUniverse(cfg);
    {TriV(cfg.modules)} + ReadBy(cfg, TriV(cfg.modules))
  }

  /** No defined tristate symbol is among MODULES and what it reads. */
  predicate ModulesReadsNoTristate(cfg: Config)
    requires PartsOK(cfg)
  {
    forall a :: a in ReadByModules(cfg) ==> !OfTristate(cfg, a)
  }

  lemma TristateReadsModules(cfg: Config, i: nat)
    requires PartsOK(cfg) && cfg.choices == [] && OfTristate(cfg, TriV(i))
    ensures TriV(cfg.modules) in StaticReads(cfg, TriV(i)) && TriV(cfg.modules) in StaticReads(cfg, Vis(i))
    ensures TriV(i) in StaticReads(cfg, StrV(i))
  {
    assert SymOK(cfg, i);
    hide PartsOK, DefaultAttrs, ExprAttrs, PromptAttrs;
  }

  /** Without choices, only tristates read what is not below them. */
  lemma NoTristateLower(cfg: Config, order: map<Ref, nat>, a: Attr, b: Attr)
    requires PartsOK(cfg) && Ordered(cfg, order) && cfg.choices == []
    requires a in Universe(cfg) && b in StaticReads(cfg, a) && !OfTristate(cfg, a)
    requires a.Vis? ==> cfg.Sym(a.i).defined
    ensures HeightRank(cfg, order, b) < HeightRank(cfg, order, a)
    ensures b.Vis? ==> cfg.Sym(b.i).defined
  {
    UniverseSpec(cfg);
    hide PartsOK, StaticReads, Universe, Ordered, OwnOrMentioned;
    if cfg.Sym(a.i).defined {
      DefinedReads(cfg, a.i, a, b);
      OwnLower(cfg, order, a.i, a, b);
      OwnVis(cfg, a.i, a, b);
    } else {
      UndefinedReads(cfg, a.i, a, b);
    }
  }

  lemma OwnVis(cfg: Config, i: nat, a: Attr, b: Attr)
    requires OwnOrMentioned(cfg, i, a, b)
    ensures b.Vis? ==> b.i == i
  {
  }

  lemma ModulesNotRead(cfg: Config, order: map<Ref, nat>)
    requires PartsOK(cfg) && Ordered(cfg, order) && cfg.choices == [] && ModulesReadsNoTristate(cfg)
    ensures TriV(cfg.modules) in Universe(cfg) && TriV(cfg.modules) !in ReadBy(cfg, TriV(cfg.modules))
  {
    var m := TriV(cfg.modules);
    CutsInUniverse(cfg);
    hide StaticReads, Universe, PartsOK, Closure, Ordered, HeightRank, OfTristate;
    ReadBySpec(cfg, m);
    ReadsInUniverse(cfg, m);
    var lower := set b | b in ReadBy(cfg, m) && HeightRank(cfg, order, b) < HeightRank(cfg, order, m)
                         && (b.Vis? ==> cfg.Sym(b.i).defined);
    forall a, b | (a == m || a in lower) && b in StaticReads(cfg, a)
      ensures b in lower
    {
      assert a in ReadByModules(cfg);
      NoTristateLower(cfg, order, a, b);
    }
    ClosureLeast(cfg, StaticReads(cfg, m), lower);
  }

  lemma ModulesRead(cfg: Config, a: Attr)
    requires PartsOK(cfg) && cfg.choices == [] && a in ReadByModules(cfg) && OfTristate(cfg, a)
    ensures TriV(cfg.modules) in Universe(cfg) && TriV(cfg.modules) in ReadBy(cfg, TriV(cfg.modules))
  {
    CutsInUniverse(cfg);
    TristateReadsModules(cfg, a.i);
    hide StaticReads, Universe, PartsOK, Closure;
    ReadBySpec(cfg, TriV(cfg.modules));
  }

  /** Without choices the condition is that neither MODULES nor anything it reads is a tristate
      symbol. */
  lemma ChoiceFreeIff(cfg: Config, order: map<Ref, nat>)
    requires PartsOK(cfg) && Ordered(cfg, order) && cfg.choices == []
    ensures NoCutReadsItself(cfg) <==> ModulesReadsNoTristate(cfg)
  {
    assert Cuts(cfg) == {TriV(cfg.modules)};
    CutsInUniverse(cfg);
    hide PartsOK, Ordered, ReadBy, Universe, OfTristate, Cuts, ReadByModules;
    if ModulesReadsNoTristate(cfg) {
      ModulesNotRead(cfg, order);
    } else {
      var a :| a in ReadByModules(cfg) && OfTristate(cfg, a);
      ModulesRead(cfg, a);
      assert TriV(cfg.modules) in Cuts(cfg);
    }
  }

  /** Without choices a loop is a loop of direct dependencies, so the check raises one exactly
      if there is no order. */
  lemma OrderMeansNoLoop(cfg: Config, order: map<Ref, nat>, loop: seq<Ref>)
    requires PartsOK(cfg) && cfg.choices == [] && Ordered(cfg, order)
    ensures !Cycle(cfg, loop)
  {
    if Cycle(cfg, loop) {
      forall x, y | Edge(cfg, x, y)
        ensures Mentioned(cfg, x, y) && x.S? && y.S?
      {
        PlainEdge(cfg, x, y);
      }
      hide Edge, Mentioned, PartsOK;
      assert forall k :: 0 < k < |loop| ==> Edge(cfg, loop[k], loop[k - 1]);
      forall k | 0 <= k < |loop|
        ensures loop[k].S?
      {
        if k > 0 {
          assert Edge(cfg, loop[k], loop[k - 1]);
        }
      }
      NoSymbolCycle(cfg, order, loop);
    }
  }

  lemma PlainEdge(cfg: Config, x: Ref, y: Ref)
    requires PartsOK(cfg) && cfg.choices == [] && Edge(cfg, x, y)
    ensures Mentioned(cfg, x, y) && x.S? && y.S?
  {
    NoMembers(cfg, x, y);
    hide ItemsOf, SymOK, Membership;
    assert ItemInRange(cfg, x);
  }

  lemma NoMembers(cfg: Config, x: Ref, y: Ref)
    requires PartsOK(cfg) && cfg.choices == []
    ensures !Membership(cfg, x, y)
  {
    hide ItemsOf;
    if x.S? && x.i < |cfg.syms| {
      assert SymOK(cfg, x.i);
    }
    if y.S? && y.i < |cfg.syms| {
      assert SymOK(cfg, y.i);
    }
  }

  /** The check raises a real loop, or leaves an order. If it passes, the configuration is in
      order exactly if no cut reads itself. Without choices, a loop is raised exactly if there
      is no order. */
  method CheckLoops(c: Checker) returns (raised: Option<seq<Ref>>)
    requires c.Valid() && c.Grey() == {} && PartsOK(c.cfg)
    modifies c, c.symVisited, c.choiceVisited
    ensures raised.Some? ==> Cycle(c.cfg, raised.value)
    ensures raised.None? ==> exists order :: Ordered(c.cfg, order)
    ensures raised.None? ==> (ConfigOK(c.cfg) <==> NoCutReadsItself(c.cfg))
    ensures c.cfg.choices == [] ==> (raised.None? <==> exists order :: Ordered(c.cfg, order))
  {
    hide Ordered, Cycle, ConfigOK, NoCutReadsItself, PartsOK, c.Valid;
    raised := c.CheckAll();
    if raised.Some? {
      forall order: map<Ref, nat>
        ensures c.cfg.choices == [] ==> !Ordered(c.cfg, order)
      {
        if c.cfg.choices == [] && Ordered(c.cfg, order) {
          OrderMeansNoLoop(c.cfg, order, raised.value);
        }
      }
    } else {
      ghost var order :| Ordered(c.cfg, order);
      CheckedMeansOK(c.cfg, order);
    }
  }
}
