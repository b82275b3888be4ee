/** The menu tree as a value: dependency propagation, implicit menus, flattening and the
    removal of 'if' nodes as functions, and what they preserve. */
module MenuSpec {
  import opened Types
  import opened Semantics

  datatype Item = SymItem(s: nat) | ChoiceItem(c: nat) | MenuItem | CommentItem | IfItem

  datatype Select = Select(target: nat, cond: Expr)

  /** The conditions of a menu node. `prompt` is the condition of the prompt, if there is one. */
  datatype Props = Props(
    dep: Expr,
    visibility: Expr,
    prompt: Option<Expr>,
    defaults: seq<Default>,
    ranges: seq<RangeDef>,
    selects: seq<Select>,
    implies: seq<Select>)

  datatype Tree = Tree(id: nat, item: Item, props: Props, kids: seq<Tree>)

  /** The constant symbols. */
  datatype Consts = Consts(n: nat, m: nat, y: nat)

  // ---------- Conditions ----------

  /** Kconfig._make_and() */
  function MakeAnd(k: Consts, e1: Expr, e2: Expr): Expr {
    if e1 == SymE(k.y) then e2
    else if e2 == SymE(k.y) then e1
    else if e1 == SymE(k.n) || e2 == SymE(k.n) then SymE(k.n)
    else And(e1, e2)
  }

  /** Kconfig._make_or() */
  function MakeOr(k: Consts, e1: Expr, e2: Expr): Expr {
    if e1 == SymE(k.n) then e2
    else if e2 == SymE(k.n) then e1
    else if e1 == SymE(k.y) || e2 == SymE(k.y) then SymE(k.y)
    else Or(e1, e2)
  }

  /** n and y have their values. */
  predicate ConstsOK(k: Consts, env: Env) {
    env(TriV(k.n)).t == 0 && env(TriV(k.y)).t == 2
  }

  lemma MakeAndValue(cfg: Config, u: User, k: Consts, e1: Expr, e2: Expr, env: Env)
    requires ConstsOK(k, env)
    ensures ExprVal(cfg, u, MakeAnd(k, e1, e2), env) == Min(ExprVal(cfg, u, e1, env), ExprVal(cfg, u, e2, env))
  {
    hide ExprVal;
    ConstValues(cfg, u, k, env);
    PairValues(cfg, u, e1, e2, env);
  }

  lemma MakeOrValue(cfg: Config, u: User, k: Consts, e1: Expr, e2: Expr, env: Env)
    requires ConstsOK(k, env)
    ensures ExprVal(cfg, u, MakeOr(k, e1, e2), env) == Max(ExprVal(cfg, u, e1, env), ExprVal(cfg, u, e2, env))
  {
    hide ExprVal;
    ConstValues(cfg, u, k, env);
    PairValues(cfg, u, e1, e2, env);
  }

  lemma {:induction false} PairValues(cfg: Config, u: User, e1: Expr, e2: Expr, env: Env)
    ensures ExprVal(cfg, u, And(e1, e2), env) == Min(ExprVal(cfg, u, e1, env), ExprVal(cfg, u, e2, env))
    ensures ExprVal(cfg, u, Or(e1, e2), env) == Max(ExprVal(cfg, u, e1, env), ExprVal(cfg, u, e2, env))
  {
    hide ChoiceTri, Compare, Holds;
  }

  lemma ConstValues(cfg: Config, u: User, k: Consts, env: Env)
    requires ConstsOK(k, env)
    ensures ExprVal(cfg, u, SymE(k.n), env) == 0 && ExprVal(cfg, u, SymE(k.y), env) == 2
  {
  }

  // ---------- Propagation ----------

  function AndPrompt(k: Consts, prompt: Option<Expr>, e: Expr): Option<Expr> {
    if prompt.Some? then Some(MakeAnd(k, prompt.value, e)) else None
  }

  function AndDefaults(k: Consts, ds: seq<Default>, e: Expr): seq<Default> {
    seq(|ds|, i requires 0 <= i < |ds| => ds[i].(cond := MakeAnd(k, ds[i].cond, e)))
  }

  function AndRanges(k: Consts, rs: seq<RangeDef>, e: Expr): seq<RangeDef> {
    seq(|rs|, i requires 0 <= i < |rs| => rs[i].(cond := MakeAnd(k, rs[i].cond, e)))
  }

  function AndSelects(k: Consts, ss: seq<Select>, e: Expr): seq<Select> {
    seq(|ss|, i requires 0 <= i < |ss| => ss[i].(cond := MakeAnd(k, ss[i].cond, e)))
  }

  /** What Kconfig._propagate_deps() does to one child. */
  function Inherit(k: Consts, item: Item, p: Props, baseDep: Expr, visibleIf: Expr): Props {
    var dep := MakeAnd(k, p.dep, baseDep);
    if item.SymItem? || item.ChoiceItem? then
      Props(dep, p.visibility, AndPrompt(k, p.prompt, MakeAnd(k, visibleIf, dep)),
            AndDefaults(k, p.defaults, dep), AndRanges(k, p.ranges, dep),
            AndSelects(k, p.selects, dep), AndSelects(k, p.implies, dep))
    else
      p.(dep := dep, prompt := AndPrompt(k, p.prompt, dep))
  }

  /** The mode of a choice is the dependency of its contents. */
  function BaseDep(item: Item, p: Props): Expr {
    if item.ChoiceItem? then ChoiceE(item.c) else p.dep
  }

  function InnerVisible(k: Consts, item: Item, p: Props, visibleIf: Expr): Expr {
    if item.MenuItem? then MakeAnd(k, visibleIf, p.visibility) else visibleIf
  }

  function Propagate(k: Consts, ts: seq<Tree>, baseDep: Expr, visibleIf: Expr): (r: seq<Tree>)
    ensures |r| == |ts| && Size(r) == Size(ts)
  {
    if ts == [] then []
    else
      [ts[0].(props := Inherit(k, ts[0].item, ts[0].props, baseDep, visibleIf))]
      + Propagate(k, ts[1..], baseDep, visibleIf)
  }

  function Size(ts: seq<Tree>): nat {
    if ts == [] then 0 else 1 + Size(ts[0].kids) + Size(ts[1..])
  }

  // ---------- Implicit menus ----------

  /** _expr_depends_on() */
  predicate ExprDependsOn(k: Consts, e: Expr, s: nat) {
    match e
    case SymE(a) => a == s
    case Rel(op, a, b) =>
      if op != EQUAL && op != UNEQUAL then false
      else if a != s && b != s then false
      else
        var right := if b == s then a else b;
        || (op == EQUAL && right == k.m)
        || right == k.y
        || (op == UNEQUAL && right == k.n)
    case And(l, r) => ExprDependsOn(k, l, s) || ExprDependsOn(k, r, s)
    case _ => false
  }

  /** _auto_menu_dep() of a symbol and a following node. */
  predicate AutoMenuDep(k: Consts, s: nat, p: Props) {
    ExprDependsOn(k, if p.prompt.Some? then p.prompt.value else p.dep, s)
  }

  // ---------- One level ----------

  /** Whether the children of a node move up behind it. */
  predicate Dissolves(item: Item, p: Props) {
    p.prompt.None? && !item.ChoiceItem?
  }

  /** _flatten() */
  function Flatten(ts: seq<Tree>): (r: seq<Tree>)
    ensures Size(r) == Size(ts)
    decreases Size(ts)
  {
    if ts == [] then []
    else if ts[0].kids != [] && Dissolves(ts[0].item, ts[0].props) then
      SizeConcat(ts[0].kids, ts[1..]);
      [ts[0].(kids := [])] + Flatten(ts[0].kids + ts[1..])
    else
      [ts[0]] + Flatten(ts[1..])
  }

  lemma {:induction false} SizeConcat(a: seq<Tree>, b: seq<Tree>)
    ensures Size(a + b) == Size(a) + Size(b)
  {
    if a == [] {
      assert a + b == b;
    } else {
      assert (a + b)[1..] == a[1..] + b;
      SizeConcat(a[1..], b);
    }
  }

  /** _remove_ifs() */
  function RemoveIfs(ts: seq<Tree>): (r: seq<Tree>)
    ensures Size(r) <= Size(ts)
  {
    if ts == [] then []
    else if ts[0].item.IfItem? then RemoveIfs(ts[1..])
    else [ts[0]] + RemoveIfs(ts[1..])
  }

  function CloseLevel(ts: seq<Tree>): (r: seq<Tree>)
    ensures Size(r) <= Size(ts)
  {
    RemoveIfs(Flatten(ts))
  }

  // ---------- Finalising ----------

  /** Finalises the first node of a list of siblings, which may take in following siblings. The
      first tree of the result is finalised; the others are the remaining siblings. */
  function FinalizeFirst(k: Consts, ts: seq<Tree>, visibleIf: Expr): (r: seq<Tree>)
    requires ts != []
    ensures r != [] && Size(r) <= Size(ts) && r[0].id == ts[0].id
    decreases Size(ts), 2
  {
    var t := ts[0];
    if t.item.SymItem? then
      var (kids, rest) := TakeIn(k, t.item.s, [], ts[1..], visibleIf);
      [t.(kids := if kids == [] then CloseLevel(t.kids) else CloseLevel(kids))] + rest
    else
      var inner := InnerVisible(k, t.item, t.props, visibleIf);
      var kids := FinalizeAll(k, Propagate(k, t.kids, BaseDep(t.item, t.props), inner), inner);
      [t.(kids := CloseLevel(kids))] + ts[1..]
  }

  /** The loop that collects the siblings for the implicit menu of symbol s. */
  function TakeIn(k: Consts, s: nat, kids: seq<Tree>, rest: seq<Tree>, visibleIf: Expr): (r: (seq<Tree>, seq<Tree>))
    ensures Size(r.0) + Size(r.1) <= Size(kids) + Size(rest)
    decreases Size(rest), 3
  {
    if rest == [] || !AutoMenuDep(k, s, rest[0].props) then (kids, rest)
    else
      var rest' := FinalizeFirst(k, rest, visibleIf);
      SizeConcat(kids, [rest'[0]]);
      TakeIn(k, s, kids + [rest'[0]], rest'[1..], visibleIf)
  }

  /** The loop over the children of a menu, choice or if. */
  function FinalizeAll(k: Consts, ts: seq<Tree>, visibleIf: Expr): (r: seq<Tree>)
    ensures Size(r) <= Size(ts)
    decreases Size(ts), 3
  {
    if ts == [] then []
    else
      var ts' := FinalizeFirst(k, ts, visibleIf);
      [ts'[0]] + FinalizeAll(k, ts'[1..], visibleIf)
  }

  // ---------- What finalising keeps ----------

  datatype Entry = Entry(id: nat, item: Item, props: Props)

  /** The nodes of a tree in definition order: a node before its children, and these before
      the next node. */
  function Preorder(ts: seq<Tree>): seq<Entry> {
    if ts == [] then []
    else [Entry(ts[0].id, ts[0].item, ts[0].props)] + Preorder(ts[0].kids) + Preorder(ts[1..])
  }

  /** The nodes of the parsed tree in definition order, with the conditions they get from the
      enclosing nodes by plain recursion. The top level has its final conditions already. */
  function Listing(k: Consts, ts: seq<Tree>, visibleIf: Expr): seq<Entry>
    decreases Size(ts)
  {
    if ts == [] then []
    else
      var t := ts[0];
      var inner := InnerVisible(k, t.item, t.props, visibleIf);
      [Entry(t.id, t.item, t.props)]
      + Listing(k, Propagate(k, t.kids, BaseDep(t.item, t.props), inner), inner)
      + Listing(k, ts[1..], visibleIf)
  }

  function NoIfs(es: seq<Entry>): seq<Entry> {
    if es == [] then []
    else (if es[0].item.IfItem? then [] else [es[0]]) + NoIfs(es[1..])
  }

  /** The form the parser builds: symbols have no children yet, and 'if' nodes no prompt. */
  predicate Parsed(ts: seq<Tree>) {
    forall i :: 0 <= i < |ts| ==>
      && (ts[i].item.SymItem? ==> ts[i].kids == [])
      && (ts[i].item.IfItem? ==> ts[i].props.prompt.None?)
      && Parsed(ts[i].kids)
  }

  /** No 'if' nodes, and children only under nodes that have a prompt or are choices. */
  predicate Clean(ts: seq<Tree>) {
    forall i :: 0 <= i < |ts| ==>
      && !ts[i].item.IfItem?
      && (ts[i].kids != [] ==> !Dissolves(ts[i].item, ts[i].props))
      && Clean(ts[i].kids)
  }

  /** All levels below the top are clean, and 'if' nodes have no prompt. */
  predicate CleanBelow(ts: seq<Tree>) {
    forall i :: 0 <= i < |ts| ==>
      && (ts[i].item.IfItem? ==> ts[i].props.prompt.None?)
      && Clean(ts[i].kids)
  }

  lemma {:induction false} NoIfsConcat(a: seq<Entry>, b: seq<Entry>)
    ensures NoIfs(a + b) == NoIfs(a) + NoIfs(b)
  {
    if a == [] {
      assert a + b == b;
    } else {
      assert (a + b)[1..] == a[1..] + b;
      NoIfsConcat(a[1..], b);
    }
  }

  lemma {:induction false} PreorderConcat(a: seq<Tree>, b: seq<Tree>)
    ensures Preorder(a + b) == Preorder(a) + Preorder(b)
  {
    if a == [] {
      assert a + b == b;
    } else {
      assert (a + b)[1..] == a[1..] + b;
      PreorderConcat(a[1..], b);
    }
  }

  lemma {:induction false} PropagateParsed(k: Consts, ts: seq<Tree>, baseDep: Expr, visibleIf: Expr)
    requires Parsed(ts)
    ensures Parsed(Propagate(k, ts, baseDep, visibleIf))
  {
    if ts != [] {
      assert forall i :: 0 <= i < |ts[1..]| ==> ts[1..][i] == ts[i + 1];
      PropagateParsed(k, ts[1..], baseDep, visibleIf);
    }
  }

  lemma {:induction false} FlattenKeeps(ts: seq<Tree>)
    requires CleanBelow(ts)
    ensures CleanBelow(Flatten(ts)) && NoneDissolves(Flatten(ts))
    ensures Preorder(Flatten(ts)) == Preorder(ts)
    decreases Size(ts)
  {
    hide Clean, CleanBelow, NoneDissolves, Preorder, Dissolves;
    if ts == [] {
      assert Flatten(ts) == ts;
      NothingDissolves();
    } else {
      var t, rest := ts[0], ts[1..];
      assert [t] + rest == ts;
      FirstClean(t, rest);
      PreorderFirst(t, rest);
      if t.kids != [] && Dissolves(t.item, t.props) {
        SizeConcat(t.kids, rest);
        CleanBelowConcat(t.kids, rest);
        FlattenKeeps(t.kids + rest);
        PreorderConcat(t.kids, rest);
        FlattenedFirst(t.(kids := []), Flatten(t.kids + rest));
        PreorderFirst(t.(kids := []), Flatten(t.kids + rest));
        NoNodes();
      } else {
        FlattenKeeps(rest);
        FlattenedFirst(t, Flatten(rest));
        PreorderFirst(t, Flatten(rest));
      }
    }
  }

  predicate NoneDissolves(ts: seq<Tree>) {
    forall i :: 0 <= i < |ts| && ts[i].kids != [] ==> !Dissolves(ts[i].item, ts[i].props)
  }

  lemma NothingDissolves()
    ensures NoneDissolves([]) && Clean([])
  {
  }

  lemma NoNodes()
    ensures Preorder([]) == []
  {
  }

  lemma FirstClean(t: Tree, rest: seq<Tree>)
    requires CleanBelow([t] + rest)
    ensures CleanBelow(rest) && CleanBelow(t.kids)
    ensures t.item.IfItem? ==> t.props.prompt.None?
    ensures Clean(t.kids)
  {
    assert ([t] + rest)[0] == t;
    CleanIsCleanBelow(t.kids);
    assert forall i :: 0 <= i < |rest| ==> rest[i] == ([t] + rest)[i + 1];
    hide Clean;
  }

  lemma FlattenedFirst(t: Tree, rest: seq<Tree>)
    requires CleanBelow(rest) && NoneDissolves(rest)
    requires (t.item.IfItem? ==> t.props.prompt.None?) && (t.kids == [] || Clean(t.kids))
    requires t.kids != [] ==> !Dissolves(t.item, t.props)
    ensures CleanBelow([t] + rest) && NoneDissolves([t] + rest)
  {
    assert Clean([]);
    hide Clean, Dissolves;
  }

  lemma PreorderFirst(t: Tree, rest: seq<Tree>)
    ensures Preorder([t] + rest) == [Entry(t.id, t.item, t.props)] + Preorder(t.kids) + Preorder(rest)
  {
    assert ([t] + rest)[1..] == rest;
  }

  lemma CleanIsCleanBelow(ts: seq<Tree>)
    requires Clean(ts)
    ensures CleanBelow(ts)
  {
  }

  lemma CleanBelowConcat(a: seq<Tree>, b: seq<Tree>)
    requires CleanBelow(a) && CleanBelow(b)
    ensures CleanBelow(a + b)
  {
  }

  lemma {:induction false} RemoveIfsKeeps(ts: seq<Tree>)
    requires CleanBelow(ts) && NoneDissolves(ts)
    ensures Clean(RemoveIfs(ts))
    ensures NoIfs(Preorder(RemoveIfs(ts))) == NoIfs(Preorder(ts))
  {
    hide Clean, CleanBelow, NoneDissolves, Preorder, Dissolves, NoIfs;
    if ts == [] {
      NothingDissolves();
    } else {
      var t, rest := ts[0], ts[1..];
      assert [t] + rest == ts;
      FirstClean(t, rest);
      FirstStays(t, rest);
      RemoveIfsKeeps(rest);
      PreorderFirst(t, rest);
      var e := [Entry(t.id, t.item, t.props)];
      NoIfsConcat(e + Preorder(t.kids), Preorder(rest));
      if t.item.IfItem? {
        NoNodes();
        NoIfsOne(Entry(t.id, t.item, t.props));
      } else {
        PreorderFirst(t, RemoveIfs(rest));
        NoIfsConcat(e + Preorder(t.kids), Preorder(RemoveIfs(rest)));
        CleanCons(t, RemoveIfs(rest));
      }
    }
  }

  /** The first node keeps its children, and an 'if' node has none. */
  lemma FirstStays(t: Tree, rest: seq<Tree>)
    requires NoneDissolves([t] + rest) && (t.item.IfItem? ==> t.props.prompt.None?)
    ensures NoneDissolves(rest) && (t.kids != [] ==> !Dissolves(t.item, t.props))
    ensures t.item.IfItem? ==> t.kids == []
  {
    assert ([t] + rest)[0] == t;
    assert forall i :: 0 <= i < |rest| ==> rest[i] == ([t] + rest)[i + 1];
  }

  lemma NoIfsOne(e: Entry)
    requires e.item.IfItem?
    ensures NoIfs([e] + []) == []
  {
    assert ([e] + [])[1..] == [];
  }

  lemma CleanCons(t: Tree, rest: seq<Tree>)
    requires Clean(rest) && Clean(t.kids) && !t.item.IfItem? && (t.kids != [] ==> !Dissolves(t.item, t.props))
    ensures Clean([t] + rest)
  {
    hide Dissolves;
  }

  /** Closing a level leaves it clean and keeps the other nodes in order. */
  lemma CloseLevelKeeps(ts: seq<Tree>)
    requires CleanBelow(ts)
    ensures Clean(CloseLevel(ts)) && NoIfs(Preorder(CloseLevel(ts))) == NoIfs(Preorder(ts))
  {
    FlattenKeeps(ts);
    RemoveIfsKeeps(Flatten(ts));
  }

  /** Finalising the first of the siblings leaves everything below it clean, does not change
      the siblings that remain, and keeps the nodes other than 'if's in definition order with
      exactly the conditions that plain recursive propagation gives them. */
  lemma {:induction false} FinalizeFirstKeeps(k: Consts, ts: seq<Tree>, vis: Expr)
    requires ts != [] && Parsed(ts)
    ensures var r := FinalizeFirst(k, ts, vis);
            && Parsed(r[1..]) && CleanBelow(r[..1]) && r[0].item == ts[0].item && r[0].props == ts[0].props
            && NoIfs(Preorder(r[..1])) + NoIfs(Listing(k, r[1..], vis)) == NoIfs(Listing(k, ts, vis))
    decreases Size(ts), 2
  {
    hide Parsed, Clean, CleanBelow, NoIfs, Preorder, Listing, Propagate, FinalizeAll, TakeIn, CloseLevel, Size;
    var t, r := ts[0], FinalizeFirst(k, ts, vis);
    var inner := InnerVisible(k, t.item, t.props, vis);
    var kids0 := Propagate(k, t.kids, BaseDep(t.item, t.props), inner);
    ParsedFirst(ts);
    SizeFirst(ts);
    var kids;
    if t.item.SymItem? {
      var taken := TakeIn(k, t.item.s, [], ts[1..], vis);
      NothingTaken(k, ts[1..], vis);
      TakeInKeeps(k, t.item.s, [], ts[1..], vis);
      kids := taken.0;
      EmptyLevel(k, BaseDep(t.item, t.props), inner);
    } else {
      PropagateParsed(k, t.kids, BaseDep(t.item, t.props), inner);
      kids := FinalizeAll(k, kids0, inner);
      FinalizeAllKeeps(k, kids0, inner);
    }
    CloseLevelKeeps(kids);
    FirstListing(k, ts, vis, kids0);
    FirstPreorder(r, [Entry(t.id, t.item, t.props)], CloseLevel(kids));
    CleanFirst(r);
  }

  lemma ParsedFirst(ts: seq<Tree>)
    requires ts != [] && Parsed(ts)
    ensures Parsed(ts[1..]) && Parsed(ts[0].kids)
    ensures ts[0].item.SymItem? ==> ts[0].kids == []
    ensures ts[0].item.IfItem? ==> ts[0].props.prompt.None?
  {
    assert forall i :: 0 <= i < |ts[1..]| ==> ts[1..][i] == ts[i + 1];
  }

  lemma SizeFirst(ts: seq<Tree>)
    requires ts != []
    ensures Size(ts[0].kids) < Size(ts) && Size(ts[1..]) < Size(ts)
  {
  }

  lemma EmptyLevel(k: Consts, baseDep: Expr, vis: Expr)
    ensures Propagate(k, [], baseDep, vis) == [] && NoIfs(Listing(k, [], vis)) == [] && CloseLevel([]) == []
  {
  }

  lemma NothingTaken(k: Consts, rest: seq<Tree>, vis: Expr)
    ensures CleanBelow([]) && NoIfs(Preorder([])) + NoIfs(Listing(k, rest, vis)) == NoIfs(Listing(k, rest, vis))
  {
  }

  lemma CleanFirst(r: seq<Tree>)
    requires r != [] && Clean(r[0].kids) && (r[0].item.IfItem? ==> r[0].props.prompt.None?)
    ensures CleanBelow(r[..1])
  {
  }

  lemma FirstListing(k: Consts, ts: seq<Tree>, vis: Expr, kids0: seq<Tree>)
    requires ts != []
    requires var t := ts[0]; kids0 == Propagate(k, t.kids, BaseDep(t.item, t.props), InnerVisible(k, t.item, t.props, vis))
    ensures var t := ts[0];
            NoIfs(Listing(k, ts, vis)) ==
            NoIfs([Entry(t.id, t.item, t.props)])
            + NoIfs(Listing(k, kids0, InnerVisible(k, t.item, t.props, vis))) + NoIfs(Listing(k, ts[1..], vis))
  {
    var t := ts[0];
    var e, l := [Entry(t.id, t.item, t.props)], Listing(k, kids0, InnerVisible(k, t.item, t.props, vis));
    NoIfsConcat(e + l, Listing(k, ts[1..], vis));
    NoIfsConcat(e, l);
  }

  lemma FirstPreorder(r: seq<Tree>, e: seq<Entry>, kids: seq<Tree>)
    requires r != [] && e == [Entry(r[0].id, r[0].item, r[0].props)] && kids == r[0].kids
    ensures NoIfs(Preorder(r[..1])) == NoIfs(e) + NoIfs(Preorder(kids))
  {
    assert r[..1][0] == r[0] && r[..1][1..] == [];
    assert Preorder(r[..1]) == e + Preorder(kids);
    NoIfsConcat(e, Preorder(kids));
  }

  lemma {:induction false} TakeInKeeps(k: Consts, s: nat, kids: seq<Tree>, rest: seq<Tree>, vis: Expr)
    requires Parsed(rest) && CleanBelow(kids)
    ensures var (kids', rest') := TakeIn(k, s, kids, rest, vis);
            && Parsed(rest') && CleanBelow(kids')
            && NoIfs(Preorder(kids')) + NoIfs(Listing(k, rest', vis)) ==
               NoIfs(Preorder(kids)) + NoIfs(Listing(k, rest, vis))
    decreases Size(rest), 3
  {
    hide Parsed, Clean, CleanBelow, NoIfs, Preorder, Listing, FinalizeFirst, Size;
    if rest != [] && AutoMenuDep(k, s, rest[0].props) {
      var r := FinalizeFirst(k, rest, vis);
      FinalizeFirstKeeps(k, rest, vis);
      SizeSplit(r);
      assert r[..1] == [r[0]];
      CleanBelowConcat(kids, r[..1]);
      PreorderConcat(kids, [r[0]]);
      NoIfsConcat(Preorder(kids), Preorder([r[0]]));
      TakeInKeeps(k, s, kids + [r[0]], r[1..], vis);
    }
  }

  lemma SizeSplit(r: seq<Tree>)
    requires r != []
    ensures Size(r[1..]) < Size(r)
  {
  }

  lemma {:induction false} FinalizeAllKeeps(k: Consts, ts: seq<Tree>, vis: Expr)
    requires Parsed(ts)
    ensures CleanBelow(FinalizeAll(k, ts, vis))
    ensures NoIfs(Preorder(FinalizeAll(k, ts, vis))) == NoIfs(Listing(k, ts, vis))
    decreases Size(ts), 3
  {
    if ts != [] {
      var r := FinalizeFirst(k, ts, vis);
      FinalizeFirstKeeps(k, ts, vis);
      FinalizeAllKeeps(k, r[1..], vis);
      var all := FinalizeAll(k, r[1..], vis);
      assert r[..1] == [r[0]];
      CleanBelowConcat([r[0]], all);
      PreorderConcat([r[0]], all);
      NoIfsConcat(Preorder([r[0]]), Preorder(all));
    }
  }
}
