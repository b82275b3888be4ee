/** Implicit menus: which siblings go below a symbol, and finalisation as three passes. The program
    interleaves the propagation of conditions, the nesting of implicit menus and the clean-up of
    levels; the result is that of one pass after the other. */
module ImplicitMenus {
  import opened Types
  import opened MenuSpec
  import opened MenuDeps

  /** The condition of a node, that of its prompt if it has one, requires the symbol to be m or y
      (or not to be y, which is accepted as well). */
  predicate GoesBelow(k: Consts, s: nat, p: Props) {
    var cond := if p.prompt.Some? then p.prompt.value else p.dep;
    ListedForms(k, cond, s) || UnequalY(k, cond, s)
  }

  /** The number of leading siblings that the first one makes an implicit menu of, with itself.
      A symbol takes in the siblings behind it that go below it, each with its own menu. */
  function MenuEnd(k: Consts, ts: seq<Tree>): (n: nat)
    requires ts != []
    ensures 1 <= n <= |ts|
    decreases |ts|, |ts|
  {
    if ts[0].item.SymItem? then TakenUpTo(k, ts[0].item.s, ts, 1) else 1
  }

  function TakenUpTo(k: Consts, s: nat, ts: seq<Tree>, e: nat): (n: nat)
    requires 1 <= e <= |ts|
    ensures e <= n <= |ts|
    decreases |ts|, |ts| - e
  {
    if e < |ts| && GoesBelow(k, s, ts[e].props) then TakenUpTo(k, s, ts, e + MenuEnd(k, ts[e..])) else e
  }

  /** The trees with the conditions propagated and the implicit menus nested. */
  function Nested(k: Consts, ts: seq<Tree>, visibleIf: Expr): (r: seq<Tree>)
    ensures ts == [] <==> r == []
    ensures r != [] ==> r[0].id == ts[0].id && r[0].item == ts[0].item && r[0].props == ts[0].props
    decreases Size(ts)
  {
    if ts == [] then []
    else
      var t, n := ts[0], MenuEnd(k, ts);
      SizeSlices(ts, n);
      var inner := InnerVisible(k, t.item, t.props, visibleIf);
      var kids := if t.item.SymItem? then Nested(k, ts[1..n], visibleIf)
                  else Nested(k, Propagate(k, t.kids, BaseDep(t.item, t.props), inner), inner);
      [t.(kids := kids)] + Nested(k, ts[n..], visibleIf)
  }

  lemma SizeSlices(ts: seq<Tree>, n: nat)
    requires 1 <= n <= |ts|
    ensures Size(ts[1..n]) < Size(ts) && Size(ts[n..]) < Size(ts) && Size(ts[0].kids) < Size(ts)
  {
    assert ts[1..] == ts[1..n] + ts[n..];
    SizeConcat(ts[1..n], ts[n..]);
  }

  /** All levels below the trees are flattened and freed of 'if' nodes, from the bottom up. */
  function Closed(ts: seq<Tree>): seq<Tree> {
    if ts == [] then [] else [ts[0].(kids := CloseLevel(Closed(ts[0].kids)))] + Closed(ts[1..])
  }

  /** Symbols have no children yet, and constants no nodes. */
  predicate Fresh(k: Consts, ts: seq<Tree>) {
    forall i :: 0 <= i < |ts| ==>
      && (ts[i].item.SymItem? ==> ts[i].kids == [] && IsPlain(k, ts[i].item.s))
      && Fresh(k, ts[i].kids)
  }

  predicate IsPlain(k: Consts, s: nat) {
    s != k.n && s != k.m && s != k.y
  }

  predicate DistinctConsts(k: Consts) {
    k.n != k.m && k.m != k.y && k.n != k.y
  }

  // ---------- Which siblings go below a symbol ----------

  /** The sibling behind the menu of a symbol does not go below it, and if the menu is not empty,
      the first sibling does. */
  lemma MenuEndMeaning(k: Consts, ts: seq<Tree>)
    requires ts != [] && ts[0].item.SymItem?
    ensures var s, n := ts[0].item.s, MenuEnd(k, ts);
            && (n < |ts| ==> !GoesBelow(k, s, ts[n].props))
            && (n > 1 <==> |ts| > 1 && GoesBelow(k, s, ts[1].props))
  {
    hide GoesBelow;
    TakenEnd(k, ts[0].item.s, ts, 1);
  }

  lemma {:induction false} TakenEnd(k: Consts, s: nat, ts: seq<Tree>, e: nat)
    requires 1 <= e <= |ts|
    ensures var n := TakenUpTo(k, s, ts, e); n < |ts| ==> !GoesBelow(k, s, ts[n].props)
    decreases |ts| - e
  {
    hide GoesBelow, MenuEnd;
    if e < |ts| && GoesBelow(k, s, ts[e].props) {
      TakenEnd(k, s, ts, e + MenuEnd(k, ts[e..]));
    }
  }

  lemma {:induction false} TruncateTaken(k: Consts, s: nat, ts: seq<Tree>, e: nat, n: nat)
    requires 1 <= e <= |ts| && TakenUpTo(k, s, ts, e) <= n <= |ts|
    ensures TakenUpTo(k, s, ts[..n], e) == TakenUpTo(k, s, ts, e)
    decreases |ts|, |ts| - e
  {
    hide GoesBelow, MenuEnd;
    if e < |ts| && GoesBelow(k, s, ts[e].props) {
      var m := MenuEnd(k, ts[e..]);
      assert e + m <= n;
      Truncate(k, ts[e..], n - e);
      assert ts[..n][e..] == ts[e..][..n - e];
      TruncateTaken(k, s, ts, e + m, n);
    }
  }

  /** The siblings behind a menu do not matter for it. */
  lemma {:induction false} Truncate(k: Consts, ts: seq<Tree>, n: nat)
    requires ts != [] && MenuEnd(k, ts) <= n <= |ts|
    ensures MenuEnd(k, ts[..n]) == MenuEnd(k, ts)
    decreases |ts|, |ts|
  {
    hide GoesBelow, TakenUpTo;
    if ts[0].item.SymItem? {
      TruncateTaken(k, ts[0].item.s, ts, 1, n);
    }
  }

  lemma NestedFirst(k: Consts, ts: seq<Tree>, n: nat, visibleIf: Expr)
    requires ts != [] && MenuEnd(k, ts) <= n <= |ts|
    ensures var m := MenuEnd(k, ts);
            && |Nested(k, ts[..m], visibleIf)| == 1
            && Nested(k, ts[..n], visibleIf) == Nested(k, ts[..m], visibleIf) + Nested(k, ts[m..n], visibleIf)
  {
    hide MenuEnd, Propagate, InnerVisible;
    var m := MenuEnd(k, ts);
    Truncate(k, ts, n);
    Truncate(k, ts, m);
    assert ts[..n][1..m] == ts[1..m] == ts[..m][1..m] && ts[..n][m..] == ts[m..n] && ts[..m][m..] == [];
  }

  /** Every child of a symbol in the nested trees goes below it. */
  lemma NestedKids(k: Consts, ts: seq<Tree>, visibleIf: Expr)
    requires ts != [] && ts[0].item.SymItem?
    ensures AllGoBelow(k, ts[0].item.s, Nested(k, ts, visibleIf)[0].kids)
  {
    hide GoesBelow, Propagate, InnerVisible, TakenUpTo, AllGoBelow;
    NestedRun(k, ts[0].item.s, ts, 1, visibleIf);
  }

  predicate AllGoBelow(k: Consts, s: nat, kids: seq<Tree>) {
    forall j :: 0 <= j < |kids| ==> GoesBelow(k, s, kids[j].props)
  }

  lemma {:induction false} NestedRun(k: Consts, s: nat, ts: seq<Tree>, e: nat, visibleIf: Expr)
    requires 1 <= e <= |ts|
    ensures AllGoBelow(k, s, Nested(k, ts[e..TakenUpTo(k, s, ts, e)], visibleIf))
    decreases |ts| - e
  {
    hide GoesBelow, MenuEnd, Nested;
    if e < |ts| && GoesBelow(k, s, ts[e].props) {
      RunFirst(k, s, ts, e, visibleIf);
      NestedRun(k, s, ts, e + MenuEnd(k, ts[e..]), visibleIf);
    } else {
      assert ts[e..e] == [];
    }
  }

  lemma RunFirst(k: Consts, s: nat, ts: seq<Tree>, e: nat, visibleIf: Expr)
    requires 1 <= e < |ts| && GoesBelow(k, s, ts[e].props)
    ensures var m, n := e + MenuEnd(k, ts[e..]), TakenUpTo(k, s, ts, e);
            && m <= n && n == TakenUpTo(k, s, ts, m) && |Nested(k, ts[e..m], visibleIf)| == 1
            && Nested(k, ts[e..m], visibleIf)[0].props == ts[e].props
            && Nested(k, ts[e..n], visibleIf) == Nested(k, ts[e..m], visibleIf) + Nested(k, ts[m..n], visibleIf)
  {
    hide GoesBelow, MenuEnd, Nested;
    var m, n := e + MenuEnd(k, ts[e..]), TakenUpTo(k, s, ts, e);
    NestedFirst(k, ts[e..], n - e, visibleIf);
    assert ts[e..][..m - e] == ts[e..m] && ts[e..][..n - e] == ts[e..n] && ts[e..][m - e..n - e] == ts[m..n];
    assert ts[e..m][0] == ts[e];
  }

  // ---------- The passes ----------

  lemma {:induction false} ClosedConcat(a: seq<Tree>, b: seq<Tree>)
    ensures Closed(a + b) == Closed(a) + Closed(b)
  {
    hide CloseLevel;
    if a == [] {
      assert a + b == b;
    } else {
      assert (a + b)[1..] == a[1..] + b;
      ClosedConcat(a[1..], b);
    }
  }

  lemma GoesBelowIff(k: Consts, s: nat, p: Props)
    requires DistinctConsts(k) && IsPlain(k, s)
    ensures AutoMenuDep(k, s, p) <==> GoesBelow(k, s, p)
  {
    hide ExprDependsOn, ListedForms, UnequalY;
    AcceptedForms(k, if p.prompt.Some? then p.prompt.value else p.dep, s);
  }

  lemma FreshSlice(k: Consts, ts: seq<Tree>, i: nat, j: nat)
    requires Fresh(k, ts) && i <= j <= |ts|
    ensures Fresh(k, ts[i..j])
  {
    assert forall x :: 0 <= x < j - i ==> ts[i..j][x] == ts[i + x];
  }

  lemma {:induction false} PropagateFresh(k: Consts, ts: seq<Tree>, baseDep: Expr, visibleIf: Expr)
    requires Fresh(k, ts)
    ensures Fresh(k, Propagate(k, ts, baseDep, visibleIf))
  {
    hide Inherit;
    if ts != [] {
      FreshSlice(k, ts, 1, |ts|);
      PropagateFresh(k, ts[1..], baseDep, visibleIf);
      FreshFirst(k, ts[0].(props := Inherit(k, ts[0].item, ts[0].props, baseDep, visibleIf)),
                 Propagate(k, ts[1..], baseDep, visibleIf));
    }
  }

  lemma FreshFirst(k: Consts, t: Tree, rest: seq<Tree>)
    requires Fresh(k, rest) && Fresh(k, t.kids)
    requires t.item.SymItem? ==> t.kids == [] && IsPlain(k, t.item.s)
    ensures Fresh(k, [t] + rest)
  {
  }

  /** Finalising the first of the siblings finalises its implicit menu and leaves the siblings
      behind it as they are. */
  lemma {:induction false} FirstByPasses(k: Consts, ts: seq<Tree>, visibleIf: Expr)
    requires ts != [] && Fresh(k, ts) && DistinctConsts(k)
    ensures var n := MenuEnd(k, ts);
            FinalizeFirst(k, ts, visibleIf) == Closed(Nested(k, ts[..n], visibleIf)) + ts[n..]
    decreases Size(ts), 2
  {
    hide GoesBelow, AutoMenuDep, CloseLevel, Fresh, Propagate, InnerVisible, TakeIn, FinalizeAll, Size;
    var t, n := ts[0], MenuEnd(k, ts);
    SizeSlices(ts, n);
    FirstFresh(k, ts);
    Truncate(k, ts, n);
    assert ts[..n][0] == t && ts[..n][1..n] == ts[1..n] && ts[..n][n..] == [];
    var inner := InnerVisible(k, t.item, t.props, visibleIf);
    if t.item.SymItem? {
      SizeFirst(ts);
      TakeInByPasses(k, t.item.s, [], ts, 1, visibleIf);
      assert [] + Closed(Nested(k, ts[1..n], visibleIf)) == Closed(Nested(k, ts[1..n], visibleIf));
      SymFirst(k, ts, n, visibleIf);
    } else {
      var kids := Propagate(k, t.kids, BaseDep(t.item, t.props), inner);
      PropagateFresh(k, t.kids, BaseDep(t.item, t.props), inner);
      AllByPasses(k, kids, inner);
      OtherFirst(k, ts, kids, inner, visibleIf);
    }
  }

  lemma FirstFresh(k: Consts, ts: seq<Tree>)
    requires ts != [] && Fresh(k, ts)
    ensures ts[0].item.SymItem? ==> ts[0].kids == [] && IsPlain(k, ts[0].item.s)
    ensures Fresh(k, ts[0].kids) && Fresh(k, ts[1..])
  {
    FreshSlice(k, ts, 1, |ts|);
  }

  lemma SymFirst(k: Consts, ts: seq<Tree>, n: nat, visibleIf: Expr)
    requires ts != [] && ts[0].item.SymItem? && ts[0].kids == [] && n == MenuEnd(k, ts) == MenuEnd(k, ts[..n])
    requires TakeIn(k, ts[0].item.s, [], ts[1..], visibleIf) == (Closed(Nested(k, ts[1..n], visibleIf)), ts[n..])
    ensures FinalizeFirst(k, ts, visibleIf) == Closed(Nested(k, ts[..n], visibleIf)) + ts[n..]
  {
    hide GoesBelow, CloseLevel, InnerVisible, TakeIn, FinalizeAll, MenuEnd, Propagate;
    var t := ts[0];
    assert ts[..n][1..n] == ts[1..n] && ts[..n][n..] == [];
    var nested := t.(kids := Nested(k, ts[1..n], visibleIf));
    assert Nested(k, ts[..n], visibleIf) == [nested];
    ClosedOne(nested);
  }

  lemma OtherFirst(k: Consts, ts: seq<Tree>, kids: seq<Tree>, inner: Expr, visibleIf: Expr)
    requires ts != [] && !ts[0].item.SymItem? && inner == InnerVisible(k, ts[0].item, ts[0].props, visibleIf)
    requires kids == Propagate(k, ts[0].kids, BaseDep(ts[0].item, ts[0].props), inner)
    requires FinalizeAll(k, kids, inner) == Closed(Nested(k, kids, inner))
    ensures FinalizeFirst(k, ts, visibleIf) == Closed(Nested(k, ts[..1], visibleIf)) + ts[1..]
  {
    hide GoesBelow, CloseLevel, InnerVisible, TakeIn, FinalizeAll, Propagate;
    var t := ts[0];
    assert ts[..1][0] == t && ts[..1][1..] == [];
    var nested := t.(kids := Nested(k, kids, inner));
    assert Nested(k, ts[..1], visibleIf) == [nested];
    ClosedOne(nested);
  }

  lemma ClosedOne(t: Tree)
    ensures Closed([t]) == [t.(kids := CloseLevel(Closed(t.kids)))]
  {
    hide CloseLevel;
    assert [t][1..] == [];
  }

  lemma {:induction false} TakeInByPasses(k: Consts, s: nat, kids: seq<Tree>, ts: seq<Tree>, e: nat, visibleIf: Expr)
    requires 1 <= e <= |ts| && Fresh(k, ts) && DistinctConsts(k) && IsPlain(k, s)
    ensures var n := TakenUpTo(k, s, ts, e);
            TakeIn(k, s, kids, ts[e..], visibleIf) == (kids + Closed(Nested(k, ts[e..n], visibleIf)), ts[n..])
    decreases Size(ts[e..]), 3
  {
    hide GoesBelow, AutoMenuDep, CloseLevel, Fresh, FinalizeFirst, MenuEnd, Nested, Closed, Size, TakeIn;
    var n, rest := TakenUpTo(k, s, ts, e), ts[e..];
    if e < |ts| {
      GoesBelowIff(k, s, ts[e].props);
    }
    if e < |ts| && GoesBelow(k, s, ts[e].props) {
      var m := e + MenuEnd(k, rest);
      FreshSlice(k, ts, e, |ts|);
      Slices(ts, e, m);
      FirstByPasses(k, rest, visibleIf);
      SizeSlices(rest, m - e);
      RunFirst(k, s, ts, e, visibleIf);
      var first, more := Nested(k, ts[e..m], visibleIf), Nested(k, ts[m..n], visibleIf);
      OneClosed(first);
      TakeOne(k, s, kids, rest, Closed(first), ts[m..], visibleIf);
      TakeInByPasses(k, s, kids + Closed(first), ts, m, visibleIf);
      ClosedConcat(first, more);
      Regroup(kids, Closed(first), Closed(more));
    } else {
      NothingTaken(k, s, kids, rest, visibleIf);
      assert ts[e..n] == [];
    }
  }

  lemma Slices(ts: seq<Tree>, e: nat, m: nat)
    requires e <= m <= |ts|
    ensures ts[e..|ts|] == ts[e..] && ts[e..][..m - e] == ts[e..m] && ts[e..][m - e..] == ts[m..]
  {
  }

  lemma Regroup(a: seq<Tree>, b: seq<Tree>, c: seq<Tree>)
    ensures a + b + c == a + (b + c)
  {
  }

  lemma NothingTaken(k: Consts, s: nat, kids: seq<Tree>, rest: seq<Tree>, visibleIf: Expr)
    requires rest == [] || !AutoMenuDep(k, s, rest[0].props)
    ensures TakeIn(k, s, kids, rest, visibleIf) == (kids + Closed(Nested(k, [], visibleIf)), rest)
  {
    hide AutoMenuDep;
    assert kids + [] == kids;
  }

  lemma OneClosed(ts: seq<Tree>)
    requires |ts| == 1
    ensures |Closed(ts)| == 1
  {
  }

  lemma NothingNested(k: Consts, visibleIf: Expr)
    ensures Closed(Nested(k, [], visibleIf)) == []
  {
  }

  lemma TakeOne(k: Consts, s: nat, kids: seq<Tree>, rest: seq<Tree>, first: seq<Tree>, more: seq<Tree>, visibleIf: Expr)
    requires rest != [] && AutoMenuDep(k, s, rest[0].props) && |first| == 1
    requires FinalizeFirst(k, rest, visibleIf) == first + more
    ensures TakeIn(k, s, kids, rest, visibleIf) == TakeIn(k, s, kids + first, more, visibleIf)
  {
    hide AutoMenuDep, FinalizeFirst;
    assert (first + more)[1..] == more && [(first + more)[0]] == first;
  }

  /** The interleaved finalisation gives the same trees as propagating and nesting everything
      first, and then closing all levels. */
  lemma {:induction false} AllByPasses(k: Consts, ts: seq<Tree>, visibleIf: Expr)
    requires Fresh(k, ts) && DistinctConsts(k)
    ensures FinalizeAll(k, ts, visibleIf) == Closed(Nested(k, ts, visibleIf))
    decreases Size(ts), 3
  {
    hide GoesBelow, CloseLevel, Fresh, FinalizeFirst, MenuEnd, Nested, Closed, Size;
    if ts == [] {
      NothingNested(k, visibleIf);
    } else {
      var n := MenuEnd(k, ts);
      FirstByPasses(k, ts, visibleIf);
      NestedFirst(k, ts, |ts|, visibleIf);
      assert ts[..|ts|] == ts && ts[n..|ts|] == ts[n..];
      FreshSlice(k, ts, n, |ts|);
      SizeSlices(ts, n);
      AllByPasses(k, ts[n..], visibleIf);
      var first := Nested(k, ts[..n], visibleIf);
      ClosedConcat(first, Nested(k, ts[n..], visibleIf));
      OneClosed(first);
      AllOne(k, ts, Closed(first), ts[n..], visibleIf);
    }
  }

  lemma AllOne(k: Consts, ts: seq<Tree>, first: seq<Tree>, more: seq<Tree>, visibleIf: Expr)
    requires ts != [] && |first| == 1 && FinalizeFirst(k, ts, visibleIf) == first + more
    ensures FinalizeAll(k, ts, visibleIf) == first + FinalizeAll(k, more, visibleIf)
  {
    hide FinalizeFirst;
    assert (first + more)[1..] == more && [(first + more)[0]] == first;
  }

  /** The whole tree. */
  lemma TreeByPasses(k: Consts, root: Tree, visibleIf: Expr)
    requires Fresh(k, [root]) && DistinctConsts(k)
    ensures FinalizeFirst(k, [root], visibleIf) == Closed(Nested(k, [root], visibleIf))
  {
    hide GoesBelow, CloseLevel, Fresh, FinalizeFirst, Nested, Closed;
    var n := MenuEnd(k, [root]);
    FirstByPasses(k, [root], visibleIf);
    assert n == 1 && [root][..1] == [root] && [root][1..] == [];
  }

  lemma OneClosedTree(k: Consts, root: Tree, visibleIf: Expr)
    ensures |Closed(Nested(k, [root], visibleIf))| == 1
  {
    hide MenuEnd, CloseLevel;
    assert [root][1..] == [];
  }

  // ---------- Closing a level ----------

  /** The level without its 'if' nodes. The children of an 'if', and those of another node that
      has no prompt and is not a choice, follow in place of it or behind it. */
  function Lifted(ts: seq<Tree>): seq<Tree> {
    if ts == [] then []
    else
      var t := ts[0];
      (if t.item.IfItem? then Lifted(t.kids)
       else if t.props.prompt.None? && !t.item.ChoiceItem? then [t.(kids := [])] + Lifted(t.kids)
       else [t])
      + Lifted(ts[1..])
  }

  /** 'if' nodes have no prompt. */
  predicate PromptlessIfs(ts: seq<Tree>) {
    forall i :: 0 <= i < |ts| ==> (ts[i].item.IfItem? ==> ts[i].props.prompt.None?) && PromptlessIfs(ts[i].kids)
  }

  lemma {:induction false} LiftedConcat(a: seq<Tree>, b: seq<Tree>)
    ensures Lifted(a + b) == Lifted(a) + Lifted(b)
  {
    if a == [] {
      assert a + b == b;
    } else {
      assert (a + b)[1..] == a[1..] + b;
      LiftedConcat(a[1..], b);
    }
  }

  /** Flattening and removing 'if' nodes, which work along the level, lift the children of nodes at
      every depth. */
  lemma {:induction false} CloseLevelLifts(ts: seq<Tree>)
    requires PromptlessIfs(ts)
    ensures CloseLevel(ts) == Lifted(ts)
    decreases Size(ts)
  {
    if ts != [] {
      var t, rest := ts[0], ts[1..];
      SizeFirst(ts);
      assert forall i :: 0 <= i < |rest| ==> rest[i] == ts[i + 1];
      if t.kids != [] && t.props.prompt.None? && !t.item.ChoiceItem? {
        SizeConcat(t.kids, rest);
        CloseLevelLifts(t.kids + rest);
        LiftedConcat(t.kids, rest);
        CloseDissolved(ts);
      } else {
        CloseLevelLifts(rest);
        CloseKept(ts);
      }
    }
  }

  lemma CloseDissolved(ts: seq<Tree>)
    requires ts != [] && ts[0].kids != [] && ts[0].props.prompt.None? && !ts[0].item.ChoiceItem?
    ensures CloseLevel(ts) == (if ts[0].item.IfItem? then [] else [ts[0].(kids := [])]) + CloseLevel(ts[0].kids + ts[1..])
  {
    var t, more := ts[0], Flatten(ts[0].kids + ts[1..]);
    assert ([t.(kids := [])] + more)[1..] == more;
    hide Size;
  }

  lemma CloseKept(ts: seq<Tree>)
    requires ts != [] && (ts[0].kids == [] || ts[0].props.prompt.Some? || ts[0].item.ChoiceItem?)
    ensures CloseLevel(ts) == (if ts[0].item.IfItem? then [] else [ts[0]]) + CloseLevel(ts[1..])
  {
    var t, more := ts[0], Flatten(ts[1..]);
    assert ([t] + more)[1..] == more;
    hide Size;
  }
}
