/** The menu tree as the program holds it: nodes linked by `next`, `list` and `parent`. The
    pointer surgery of finalisation gives exactly the trees of MenuSpec. */
module MenuTree {
  import opened Types
  import opened MenuSpec
  import opened ImplicitMenus

  /** A menu node. Nodes are referred to by their index in the arena. */
  datatype MenuNode = MenuNode(
    item: Item,
    props: Props,
    next: Option<nat>,
    list: Option<nat>,
    parent: Option<nat>)

  // ---------- Representation ----------

  function Ids(ts: seq<Tree>): multiset<nat> {
    if ts == [] then multiset{}
    else multiset{ts[0].id} + Ids(ts[0].kids) + Ids(ts[1..])
  }

  predicate Unique(ids: multiset<nat>) {
    forall x :: x in ids ==> ids[x] == 1
  }

  /** The chain of siblings from `first` up to, but without, `end` represents the trees. All of
      them have the given parent, and the children of each are linked to it. */
  ghost predicate Seg(ns: seq<MenuNode>, first: Option<nat>, ts: seq<Tree>, par: Option<nat>, end: Option<nat>)
    decreases Size(ts)
  {
    if ts == [] then first == end
    else
      var t := ts[0];
      && first == Some(t.id) && t.id < |ns|
      && ns[t.id].item == t.item && ns[t.id].props == t.props && ns[t.id].parent == par
      && Seg(ns, ns[t.id].list, t.kids, Some(t.id), None)
      && Seg(ns, ns[t.id].next, ts[1..], par, end)
  }

  ghost predicate Linked(ns: seq<MenuNode>, first: Option<nat>, ts: seq<Tree>, par: Option<nat>) {
    Seg(ns, first, ts, par, None)
  }

  /** Nodes that are not among `ids` are as before. */
  ghost predicate Outside(ns: seq<MenuNode>, ns': seq<MenuNode>, ids: multiset<nat>) {
    |ns'| == |ns| && forall x :: 0 <= x < |ns| && x !in ids ==> ns'[x] == ns[x]
  }

  function Head(ts: seq<Tree>, end: Option<nat>): Option<nat> {
    if ts == [] then end else Some(ts[0].id)
  }

  lemma {:induction false} SegFrame(ns: seq<MenuNode>, ns': seq<MenuNode>, first: Option<nat>, ts: seq<Tree>,
                                    par: Option<nat>, end: Option<nat>)
    requires Seg(ns, first, ts, par, end) && |ns'| == |ns|
    requires forall x :: x in Ids(ts) && x < |ns| ==> ns'[x] == ns[x]
    ensures Seg(ns', first, ts, par, end)
    decreases Size(ts)
  {
    if ts != [] {
      var t := ts[0];
      assert t.id in Ids(ts);
      SegFrame(ns, ns', ns[t.id].list, t.kids, Some(t.id), None);
      SegFrame(ns, ns', ns[t.id].next, ts[1..], par, end);
    }
  }

  lemma {:induction false} IdsConcat(a: seq<Tree>, b: seq<Tree>)
    ensures Ids(a + b) == Ids(a) + Ids(b)
  {
    if a == [] {
      assert a + b == b;
    } else {
      assert (a + b)[1..] == a[1..] + b;
      IdsConcat(a[1..], b);
    }
  }

  lemma {:induction false} SegJoin(ns: seq<MenuNode>, first: Option<nat>, a: seq<Tree>, b: seq<Tree>,
                                   par: Option<nat>, mid: Option<nat>, end: Option<nat>)
    requires Seg(ns, first, a, par, mid) && Seg(ns, mid, b, par, end)
    ensures Seg(ns, first, a + b, par, end)
    decreases a
  {
    if a == [] {
      assert a + b == b;
    } else {
      assert (a + b)[1..] == a[1..] + b;
      SegJoin(ns, ns[a[0].id].next, a[1..], b, par, mid, end);
    }
  }

  lemma {:induction false} SegSplit(ns: seq<MenuNode>, first: Option<nat>, a: seq<Tree>, b: seq<Tree>,
                                    par: Option<nat>, end: Option<nat>)
    requires Seg(ns, first, a + b, par, end)
    ensures Seg(ns, first, a, par, Head(b, end)) && Seg(ns, Head(b, end), b, par, end)
    decreases a
  {
    if a == [] {
      assert a + b == b;
    } else {
      assert (a + b)[1..] == a[1..] + b;
      SegSplit(ns, ns[a[0].id].next, a[1..], b, par, end);
    }
  }

  lemma {:induction false} SegIds(ns: seq<MenuNode>, first: Option<nat>, ts: seq<Tree>, par: Option<nat>, end: Option<nat>)
    requires Seg(ns, first, ts, par, end)
    ensures forall x :: x in Ids(ts) ==> x < |ns|
    decreases Size(ts)
  {
    if ts != [] {
      var t := ts[0];
      SegIds(ns, ns[t.id].list, t.kids, Some(t.id), None);
      SegIds(ns, ns[t.id].next, ts[1..], par, end);
    }
  }

  lemma UniqueSum(a: multiset<nat>, b: multiset<nat>)
    ensures Unique(a + b) <==> Unique(a) && Unique(b) && forall x :: x in a ==> x !in b
  {
    assert forall x :: (a + b)[x] == a[x] + b[x];
    if Unique(a + b) {
      forall x
        ensures x in a ==> a[x] == 1 && x !in b
        ensures x in b ==> b[x] == 1
      {
        assert x in a + b <==> x in a || x in b;
      }
    }
  }

  /** The first tree's node, its children and the other siblings have different nodes. */
  lemma UniqueParts(ts: seq<Tree>)
    requires ts != [] && Unique(Ids(ts))
    ensures ts[0].id !in Ids(ts[0].kids) && ts[0].id !in Ids(ts[1..])
    ensures forall x :: x in Ids(ts[0].kids) ==> x !in Ids(ts[1..])
    ensures Unique(Ids(ts[0].kids)) && Unique(Ids(ts[1..]))
  {
    hide Unique;
    var a, b, c := multiset{ts[0].id}, Ids(ts[0].kids), Ids(ts[1..]);
    assert Ids(ts) == a + b + c;
    UniqueSum(a + b, c);
    UniqueSum(a, b);
    hide Ids;
    assert ts[0].id in a;
  }

  /** The same for two lists of siblings. */
  lemma UniqueLists(a: seq<Tree>, b: seq<Tree>)
    ensures Unique(Ids(a + b)) <==>
            Unique(Ids(a)) && Unique(Ids(b)) && forall x :: x in Ids(a) ==> x !in Ids(b)
  {
    hide Unique, Ids;
    IdsConcat(a, b);
    UniqueSum(Ids(a), Ids(b));
  }

  lemma SegOne(ns: seq<MenuNode>, first: Option<nat>, t: Tree, par: Option<nat>, end: Option<nat>)
    ensures Seg(ns, first, [t], par, end) <==>
            && first == Some(t.id) && t.id < |ns|
            && ns[t.id].item == t.item && ns[t.id].props == t.props && ns[t.id].parent == par
            && Seg(ns, ns[t.id].list, t.kids, Some(t.id), None)
            && ns[t.id].next == end
    ensures Ids([t]) == multiset{t.id} + Ids(t.kids)
  {
    assert [t][1..] == [];
  }

  /** Linking the last sibling to something else. */
  lemma SegNewEnd(ns: seq<MenuNode>, first: Option<nat>, init: seq<Tree>, t: Tree, par: Option<nat>,
                  end: Option<nat>, end': Option<nat>)
    requires Seg(ns, first, init + [t], par, end) && Unique(Ids(init + [t]))
    ensures t.id < |ns| && Seg(ns[t.id := ns[t.id].(next := end')], first, init + [t], par, end')
  {
    hide Unique, Ids, Seg, Head;
    LastSibling(ns, first, init, t, par, end);
    var ns' := ns[t.id := ns[t.id].(next := end')];
    SegFrame(ns, ns', first, init, par, Some(t.id));
    SegFrame(ns, ns', ns[t.id].list, t.kids, Some(t.id), None);
    SegOne(ns', Some(t.id), t, par, end');
    SegJoin(ns', first, init, [t], par, Some(t.id), end');
  }

  lemma LastSibling(ns: seq<MenuNode>, first: Option<nat>, init: seq<Tree>, t: Tree, par: Option<nat>, end: Option<nat>)
    requires Seg(ns, first, init + [t], par, end) && Unique(Ids(init + [t]))
    ensures Seg(ns, first, init, par, Some(t.id)) && Seg(ns, Some(t.id), [t], par, end)
    ensures t.id < |ns| && Seg(ns, ns[t.id].list, t.kids, Some(t.id), None)
    ensures t.id !in Ids(init) && t.id !in Ids(t.kids)
    ensures ns[t.id].item == t.item && ns[t.id].props == t.props && ns[t.id].parent == par
  {
    hide Seg, Unique;
    SegSplit(ns, first, init, [t], par, end);
    UniqueLists(init, [t]);
    UniqueParts([t]);
    SegOne(ns, Some(t.id), t, par, end);
    assert t.id in Ids([t]);
  }

  /** The siblings before, at and after a node. */
  lemma SegFirst(ns: seq<MenuNode>, first: Option<nat>, t: Tree, rest: seq<Tree>, par: Option<nat>, end: Option<nat>)
    ensures Seg(ns, first, [t] + rest, par, end) <==>
            && first == Some(t.id) && t.id < |ns|
            && ns[t.id].item == t.item && ns[t.id].props == t.props && ns[t.id].parent == par
            && Seg(ns, ns[t.id].list, t.kids, Some(t.id), None)
            && Seg(ns, ns[t.id].next, rest, par, end)
    ensures Ids([t] + rest) == multiset{t.id} + Ids(t.kids) + Ids(rest)
  {
    assert ([t] + rest)[1..] == rest;
  }

  lemma UniqueFirst(t: Tree, rest: seq<Tree>)
    requires Unique(Ids([t] + rest))
    ensures t.id !in Ids(t.kids) && t.id !in Ids(rest)
    ensures forall x :: x in Ids(t.kids) ==> x !in Ids(rest)
    ensures Unique(Ids(t.kids)) && Unique(Ids(rest))
    ensures Ids([t] + rest) == multiset{t.id} + Ids(t.kids) + Ids(rest)
  {
    hide Unique;
    assert ([t] + rest)[1..] == rest;
    UniqueParts([t] + rest);
  }

  /** The relinking at the end of a step of _flatten(): the children, which have got a new
      parent already, move behind the node. */
  lemma Dissolved(ns0: seq<MenuNode>, ns1: seq<MenuNode>, t: Tree, rest: seq<Tree>, par: Option<nat>)
    requires Linked(ns0, Some(t.id), [t] + rest, par) && Unique(Ids([t] + rest)) && t.kids != []
    requires t.id < |ns0| && Linked(ns1, ns0[t.id].list, t.kids, par) && Outside(ns0, ns1, Ids(t.kids))
    ensures var n, last := t.id, t.kids[|t.kids| - 1].id;
            && last < |ns1| && last != n && n < |ns1|
            && var ns2 := ns1[last := ns1[last].(next := ns1[n].next)];
            && var ns3 := ns2[n := ns2[n].(next := ns2[n].list, list := None)];
            && Seg(ns3, Some(n), [t.(kids := [])], par, ns0[n].list)
            && Linked(ns3, ns0[n].list, t.kids + rest, par)
            && Outside(ns0, ns3, Ids([t] + rest))
  {
    hide Seg, Ids, Unique;
    var n, first, next := t.id, ns0[t.id].list, ns0[t.id].next;
    SegFirst(ns0, Some(n), t, rest, par, None);
    UniqueFirst(t, rest);
    var init, lastKid := t.kids[..|t.kids| - 1], t.kids[|t.kids| - 1];
    assert t.kids == init + [lastKid];
    LastSibling(ns1, first, init, lastKid, par, None);
    LastId(init, lastKid);
    var last := lastKid.id;
    SegNewEnd(ns1, first, init, lastKid, par, None, next);
    var ns2 := ns1[last := ns1[last].(next := ns1[n].next)];
    var ns3 := ns2[n := ns2[n].(next := ns2[n].list, list := None)];
    SegFrame(ns2, ns3, first, t.kids, par, next);
    SegFrame(ns0, ns3, next, rest, par, None);
    SegJoin(ns3, first, t.kids, rest, par, next, None);
    SegOne(ns3, Some(n), t.(kids := []), par, first);
    SegEmpty(ns3, None, Some(n));
    OutsideDissolved(ns0, ns1, ns3, t, rest, last);
  }

  lemma OutsideDissolved(ns0: seq<MenuNode>, ns1: seq<MenuNode>, ns3: seq<MenuNode>, t: Tree, rest: seq<Tree>, last: nat)
    requires Outside(ns0, ns1, Ids(t.kids)) && |ns3| == |ns1|
    requires forall x :: 0 <= x < |ns1| && x != last && x != t.id ==> ns3[x] == ns1[x]
    requires last in Ids(t.kids) && Ids([t] + rest) == multiset{t.id} + Ids(t.kids) + Ids(rest)
    ensures Outside(ns0, ns3, Ids([t] + rest))
  {
    hide Ids;
  }

  lemma LastId(init: seq<Tree>, t: Tree)
    ensures t.id in Ids(init + [t])
  {
    IdsConcat(init, [t]);
    assert Ids([t]) == multiset{t.id} + Ids(t.kids) + Ids([t][1..]);
  }

  lemma SegEmpty(ns: seq<MenuNode>, end: Option<nat>, par: Option<nat>)
    ensures Seg(ns, end, [], par, end)
  {
  }

  lemma LinkedFirst(ns: seq<MenuNode>, first: Option<nat>, ts: seq<Tree>, par: Option<nat>)
    requires Linked(ns, first, ts, par)
    ensures first == None <==> ts == []
    ensures ts != [] ==> first == Some(ts[0].id) && ts[0].id < |ns| && ts[0].id in Ids(ts)
  {
  }

  /** Another of the siblings has got its new parent. */
  lemma Adopted(ns: seq<MenuNode>, first: nat, d: seq<Tree>, t: Tree, rest: seq<Tree>,
                par: Option<nat>, parent: Option<nat>)
    requires Seg(ns, Some(first), d, parent, Some(t.id)) && Linked(ns, Some(t.id), [t] + rest, par)
    requires Unique(Ids(d + ([t] + rest)))
    ensures t.id < |ns| && t.id in Ids(d + ([t] + rest))
    ensures var ns' := ns[t.id := ns[t.id].(parent := parent)];
            Seg(ns', Some(first), d + [t], parent, ns[t.id].next) && Linked(ns', ns[t.id].next, rest, par)
  {
    hide Seg, Ids, Unique;
    UniqueLists(d, [t] + rest);
    UniqueFirst(t, rest);
    IdsConcat(d, [t] + rest);
    SegFirst(ns, Some(t.id), t, rest, par, None);
    var ns' := ns[t.id := ns[t.id].(parent := parent)];
    assert t.id in Ids([t] + rest);
    SegFrame(ns, ns', Some(first), d, parent, Some(t.id));
    SegFrame(ns, ns', ns[t.id].list, t.kids, Some(t.id), None);
    SegFrame(ns, ns', ns[t.id].next, rest, par, None);
    SegOne(ns', Some(t.id), t, parent, ns[t.id].next);
    SegJoin(ns', Some(first), d, [t], parent, Some(t.id), ns[t.id].next);
  }

  lemma OutsideTwice(ns0: seq<MenuNode>, ns1: seq<MenuNode>, ns2: seq<MenuNode>, ids: multiset<nat>, more: multiset<nat>)
    requires Outside(ns0, ns1, more) && Outside(ns1, ns2, ids) && ids <= more
    ensures Outside(ns0, ns2, more)
  {
  }

  /** Siblings before the changed part stay as they are. */
  lemma SegBefore(ns: seq<MenuNode>, ns': seq<MenuNode>, first: Option<nat>, d: seq<Tree>, par: Option<nat>,
                  end: Option<nat>, ids: multiset<nat>)
    requires Seg(ns, first, d, par, end) && Outside(ns, ns', ids) && Unique(Ids(d) + ids)
    ensures Seg(ns', first, d, par, end)
  {
    hide Unique, Seg, Ids;
    UniqueSum(Ids(d), ids);
    SegFrame(ns, ns', first, d, par, end);
  }

  lemma {:induction false} FlattenIds(ts: seq<Tree>)
    ensures Ids(Flatten(ts)) == Ids(ts)
    decreases Size(ts)
  {
    if ts != [] {
      var t := ts[0];
      if t.kids != [] && Dissolves(t.item, t.props) {
        SizeConcat(t.kids, ts[1..]);
        FlattenIds(t.kids + ts[1..]);
        IdsConcat(t.kids, ts[1..]);
        var t' := t.(kids := []);
        assert Ids(t'.kids) == multiset{};
        assert ([t'] + Flatten(t.kids + ts[1..]))[1..] == Flatten(t.kids + ts[1..]);
      } else {
        FlattenIds(ts[1..]);
        assert ([t] + Flatten(ts[1..]))[1..] == Flatten(ts[1..]);
      }
    }
  }

  lemma {:induction false} RemoveIfsIds(ts: seq<Tree>)
    ensures Ids(RemoveIfs(ts)) <= Ids(ts)
  {
    if ts != [] {
      RemoveIfsIds(ts[1..]);
      if !ts[0].item.IfItem? {
        assert ([ts[0]] + RemoveIfs(ts[1..]))[1..] == RemoveIfs(ts[1..]);
      }
    }
  }

  lemma FlattenStep(t: Tree, rest: seq<Tree>)
    ensures Flatten([t] + rest) ==
            if t.kids != [] && Dissolves(t.item, t.props) then [t.(kids := [])] + Flatten(t.kids + rest)
            else [t] + Flatten(rest)
    ensures Size(t.kids + rest) < Size([t] + rest) && Size(rest) < Size([t] + rest)
  {
    assert ([t] + rest)[1..] == rest;
    SizeConcat(t.kids, rest);
  }

  // ---------- The tree ----------

  class Menu {
    const k: Consts
    var nodes: seq<MenuNode>

    /** The nodes in the order in which their finalisation began. */
    ghost var log: seq<nat>

    /** The inner loop of _flatten(): the siblings get a new parent. */
    method Adopt(first: nat, parent: Option<nat>, ghost ts: seq<Tree>, ghost par: Option<nat>) returns (last: nat)
      requires Linked(nodes, Some(first), ts, par) && Unique(Ids(ts)) && ts != []
      modifies this`nodes
      ensures Linked(nodes, Some(first), ts, parent) && last == ts[|ts| - 1].id
      ensures Outside(old(nodes), nodes, Ids(ts))
    {
      hide Seg, Ids, Unique;
      ghost var d, r := [], ts;
      last := first;
      LinkedFirst(nodes, Some(first), ts, par);
      SegEmpty(nodes, Some(first), parent);
      while true
        invariant ts == d + r && r != [] && last == r[0].id
        invariant Seg(nodes, Some(first), d, parent, Some(last)) && Linked(nodes, Some(last), r, par)
        invariant Outside(old(nodes), nodes, Ids(ts))
        decreases |r|
      {
        ghost var t, rest := r[0], r[1..];
        assert r == [t] + rest && d + [t] + rest == ts;
        Adopted(nodes, first, d, t, rest, par, parent);
        nodes := nodes[last := nodes[last].(parent := parent)];
        d, r := d + [t], rest;
        LinkedFirst(nodes, nodes[last].next, r, par);
        if nodes[last].next == None {
          SegEmpty(nodes, None, parent);
          assert d == ts;
          break;
        }
        last := nodes[last].next.value;
      }
    }

    /** _flatten() */
    method FlattenLevel(first: Option<nat>, ghost ts: seq<Tree>, ghost par: Option<nat>)
      requires Linked(nodes, first, ts, par) && Unique(Ids(ts))
      modifies this`nodes
      ensures Linked(nodes, first, Flatten(ts), par)
      ensures Outside(old(nodes), nodes, Ids(ts))
    {
      hide Seg, Ids, Unique, Flatten, Size, Flattening, Linked;
      ghost var d, r, ns := [], ts, nodes;
      var cur := first;
      FlatteningStart(nodes, first, ts, par);
      while cur.Some?
        invariant Flattening(ns, nodes, first, ts, par, cur, d, r)
        decreases Size(r)
      {
        var n := cur.value;
        ghost var before := nodes;
        FlatteningNode(ns, nodes, first, ts, par, n, d, r);
        if nodes[n].list.Some? && nodes[n].props.prompt.None? && !nodes[n].item.ChoiceItem? {
          var last := Adopt(nodes[n].list.value, nodes[n].parent, r[0].kids, Some(n));
          FlatteningDissolved(ns, before, nodes, first, ts, par, n, d, r);
          nodes := nodes[last := nodes[last].(next := nodes[n].next)];
          nodes := nodes[n := nodes[n].(next := nodes[n].list, list := None)];
          d, r := d + [r[0].(kids := [])], r[0].kids + r[1..];
        } else {
          FlatteningKept(ns, nodes, first, ts, par, n, d, r);
          d, r := d + [r[0]], r[1..];
        }
        cur := nodes[n].next;
      }
      FlatteningDone(ns, nodes, first, ts, par, d, r);
    }

    /** Steps over 'if' nodes. */
    method SkipIfs(first: Option<nat>, ghost ts: seq<Tree>, ghost par: Option<nat>) returns (cur: Option<nat>, ghost r: seq<Tree>)
      requires Linked(nodes, first, ts, par)
      ensures Linked(nodes, cur, r, par) && RemoveIfs(r) == RemoveIfs(ts) && Ids(r) <= Ids(ts)
      ensures r != [] ==> !r[0].item.IfItem?
    {
      hide Seg, Ids, RemoveIfs, Linked, Size;
      cur, r := first, ts;
      while cur.Some?
        invariant Linked(nodes, cur, r, par) && RemoveIfs(r) == RemoveIfs(ts) && Ids(r) <= Ids(ts)
        decreases Size(r)
      {
        SkipIf(nodes, cur.value, r, par);
        if !nodes[cur.value].item.IfItem? {
          return;
        }
        cur, r := nodes[cur.value].next, r[1..];
      }
      LinkedFirst(nodes, cur, r, par);
    }

    /** _remove_ifs() */
    method RemoveIfNodes(node: nat, ghost ts: seq<Tree>)
      requires node < |nodes| && Linked(nodes, nodes[node].list, ts, Some(node))
      requires node !in Ids(ts) && Unique(Ids(ts))
      modifies this`nodes
      ensures Outside(old(nodes), nodes, Ids(ts) + multiset{node})
      ensures nodes[node] == old(nodes)[node].(list := nodes[node].list)
      ensures Linked(nodes, nodes[node].list, RemoveIfs(ts), Some(node))
    {
      hide Seg, Ids, Unique, RemoveIfs, Linked, Size, Removing;
      ghost var ns := nodes;
      var cur;
      ghost var d, r := [], ts;
      cur, r := SkipIfs(nodes[node].list, ts, Some(node));
      RemovingStart(nodes, node, ts, cur, r);
      nodes := nodes[node := nodes[node].(list := cur)];
      while cur.Some?
        invariant Removing(ns, nodes, node, ts, cur, d, r)
        decreases Size(r)
      {
        RemovingNode(ns, nodes, node, ts, cur.value, d, r);
        var next;
        ghost var r';
        next, r' := SkipIfs(nodes[cur.value].next, r[1..], Some(node));
        RemovingNext(ns, nodes, node, ts, cur.value, d, r, next, r');
        SmallerRest(r', r[1..]);
        nodes := nodes[cur.value := nodes[cur.value].(next := next)];
        cur, d, r := next, d + [r[0]], r';
      }
      RemovingDone(ns, nodes, node, ts, d, r);
    }

    /** Kconfig._propagate_deps() */
    method PropagateDeps(node: nat, visibleIf: Expr, ghost ts: seq<Tree>)
      requires node < |nodes| && Linked(nodes, nodes[node].list, ts, Some(node))
      requires node !in Ids(ts) && Unique(Ids(ts))
      modifies this`nodes
      ensures Outside(old(nodes), nodes, Ids(ts))
      ensures Linked(nodes, nodes[node].list,
                     Propagate(k, ts, BaseDep(nodes[node].item, nodes[node].props), visibleIf), Some(node))
    {
      hide Seg, Ids, Unique, Linked, Size, Propagating, Propagate;
      ghost var ns, d, r := nodes, [], ts;
      var baseDep := BaseDep(nodes[node].item, nodes[node].props);
      var cur := nodes[node].list;
      PropagatingStart(k, nodes, node, ts, baseDep, visibleIf);
      while cur.Some?
        invariant Propagating(k, ns, nodes, node, ts, baseDep, visibleIf, cur, d, r)
        decreases |r|
      {
        var n := cur.value;
        PropagatingNext(k, ns, nodes, node, ts, baseDep, visibleIf, n, d, r);
        nodes := nodes[n := nodes[n].(props := Inherit(k, nodes[n].item, nodes[n].props, baseDep, visibleIf))];
        d, r := d + [r[0]], r[1..];
        cur := nodes[n].next;
      }
      PropagatingDone(k, ns, nodes, node, ts, baseDep, visibleIf, d, r);
    }

    /** The final steps on the level below a node. */
    method CloseLevelOf(node: nat, ghost kids: seq<Tree>)
      requires node < |nodes| && Linked(nodes, nodes[node].list, kids, Some(node))
      requires node !in Ids(kids) && Unique(Ids(kids))
      modifies this`nodes
      ensures Outside(old(nodes), nodes, Ids(kids) + multiset{node})
      ensures nodes[node] == old(nodes)[node].(list := nodes[node].list)
      ensures Linked(nodes, nodes[node].list, CloseLevel(kids), Some(node))
    {
      hide Seg, Ids, Unique, Linked, Flatten, RemoveIfs;
      LinkedFirst(nodes, nodes[node].list, kids, Some(node));
      if nodes[node].list.Some? {
        ghost var ns := nodes;
        FlattenLevel(nodes[node].list, kids, Some(node));
        ghost var ns' := nodes;
        FlattenIds(kids);
        RemoveIfNodes(node, Flatten(kids));
        WiderOutside(ns, ns', Ids(kids), multiset{node});
        OutsideTwice(ns, ns', nodes, Ids(kids) + multiset{node}, Ids(kids) + multiset{node});
      } else {
        FlattenNothing();
      }
    }

    /** The loop over the children of a menu, choice or 'if'. */
    method FinalizeChildren(node: nat, visibleIf: Expr, ghost ts: seq<Tree>)
      requires node < |nodes| && Linked(nodes, nodes[node].list, ts, Some(node))
      requires node !in Ids(ts) && Unique(Ids(ts)) && Parsed(ts)
      modifies this`nodes, this`log
      ensures Outside(old(nodes), nodes, Ids(ts))
      ensures Linked(nodes, nodes[node].list, FinalizeAll(k, ts, visibleIf), Some(node))
      ensures log == old(log) + IdSeq(ts)
      decreases Size(ts), 3
    {
      hide Seg, Ids, Unique, Linked, Size, Finalizing, FinalizeAll, FinalizeFirst, Parsed, IdSeq;
      ghost var ns, d, r := nodes, [], ts;
      var cur := nodes[node].list;
      FinalizingStart(k, nodes, node, ts, visibleIf);
      while cur.Some?
        invariant Finalizing(k, ns, nodes, node, ts, visibleIf, cur, d, r)
        invariant log + IdSeq(r) == old(log) + IdSeq(ts) && Size(r) <= Size(ts)
        decreases Size(r)
      {
        var n := cur.value;
        ghost var before := nodes;
        FinalizingNode(k, ns, nodes, node, ts, visibleIf, n, d, r);
        FinalizeNode(n, visibleIf, r, Some(node));
        FinalizingNext(k, ns, before, nodes, node, ts, visibleIf, n, d, r);
        ghost var r' := FinalizeFirst(k, r, visibleIf);
        d, r := d + [r'[0]], r'[1..];
        cur := nodes[n].next;
      }
      FinalizingDone(k, ns, nodes, node, ts, visibleIf, d, r);
    }

    /** Kconfig._finalize_node(). The tree below the node becomes what MenuSpec says, and the
        following siblings that were not taken into an implicit menu stay as they are. */
    method FinalizeNode(node: nat, visibleIf: Expr, ghost ts: seq<Tree>, ghost par: Option<nat>)
      requires ts != [] && Linked(nodes, Some(node), ts, par) && Unique(Ids(ts)) && Parsed(ts)
      modifies this`nodes, this`log
      ensures Outside(old(nodes), nodes, Ids(ts))
      ensures Linked(nodes, Some(node), FinalizeFirst(k, ts, visibleIf), par)
      ensures log + IdSeq(FinalizeFirst(k, ts, visibleIf)[1..]) == old(log) + IdSeq(ts)
      decreases Size(ts), 2
    {
      hide Seg, Ids, Unique, Linked, Size, Parsed, Propagate, FinalizeAll, TakeIn, IdSeq, CloseLevel, FinalizeFirst;
      ghost var ns, t, rest, kids := nodes, ts[0], ts[1..], ts[0].kids;
      NodeStart(nodes, node, ts, par);
      log := log + [node];
      if nodes[node].item.SymItem? {
        kids, rest := ImplicitMenu(node, visibleIf, ts, par);
      } else {
        var inner := InnerVisible(k, nodes[node].item, nodes[node].props, visibleIf);
        ghost var kids0 := Propagate(k, t.kids, BaseDep(t.item, t.props), inner);
        PropagatedKids(k, t.kids, BaseDep(t.item, t.props), inner);
        if nodes[node].list.Some? {
          PropagateDeps(node, inner, t.kids);
          ghost var mid := nodes;
          FinalizeChildren(node, inner, kids0);
          kids := FinalizeAll(k, kids0, inner);
          OutsideTwice(ns, mid, nodes, Ids(kids0), Ids(t.kids));
        }
        ChildrenDone(ns, nodes, node, ts, par, kids);
      }
      ghost var mid := nodes;
      NodeOpenFacts(ns, nodes, node, ts, par, kids, rest);
      CloseLevelOf(node, kids);
      NodeDone(ns, mid, nodes, node, ts, par, kids, rest);
      FinalizeFirstIs(k, ts, visibleIf, kids, rest);
    }

    /** The part of _finalize_node() that collects the implicit menu of a symbol. */
    method ImplicitMenu(node: nat, visibleIf: Expr, ghost ts: seq<Tree>, ghost par: Option<nat>)
      returns (ghost kids: seq<Tree>, ghost rest: seq<Tree>)
      requires ts != [] && Linked(nodes, Some(node), ts, par) && Unique(Ids(ts)) && Parsed(ts)
      requires ts[0].item.SymItem?
      modifies this`nodes, this`log
      ensures (kids, rest) == TakeIn(k, ts[0].item.s, [], ts[1..], visibleIf)
      ensures NodeOpen(old(nodes), nodes, node, ts, par, kids, rest)
      ensures log + IdSeq(rest) == old(log) + IdSeq(ts[1..])
      decreases Size(ts), 1
    {
      hide Seg, Ids, Unique, Linked, Size, Parsed, TakeIn, IdSeq, FinalizeFirst, Taking, AutoMenuDep, NodeOpen;
      ghost var ns := nodes;
      NodeStart(nodes, node, ts, par);
      var s := nodes[node].item.s;
      var cur := node;
      kids, rest := [], ts[1..];
      TakingStart(nodes, node, ts, par);
      TakingNode(nodes, nodes, node, ts, par, cur, kids, rest);
      while nodes[cur].next.Some? && AutoMenuDep(k, s, nodes[nodes[cur].next.value].props)
        invariant Taking(ns, nodes, node, ts, par, cur, kids, rest) && cur < |nodes|
        invariant nodes[cur].next.Some? ==> nodes[cur].next.value < |nodes|
        invariant TakeIn(k, s, kids, rest, visibleIf) == TakeIn(k, s, [], ts[1..], visibleIf)
        invariant log + IdSeq(rest) == old(log) + IdSeq(ts[1..])
        invariant Parsed(rest) && Size(rest) < Size(ts)
        decreases Size(rest)
      {
        var next := nodes[cur].next.value;
        ghost var before := nodes;
        TakingNode(ns, nodes, node, ts, par, cur, kids, rest);
        TakeInNext(k, s, kids, rest, visibleIf);
        FinalizeNode(next, visibleIf, rest, par);
        TakingNext(k, ns, before, nodes, node, ts, par, cur, kids, rest, visibleIf);
        ghost var r := FinalizeFirst(k, rest, visibleIf);
        cur := next;
        nodes := nodes[cur := nodes[cur].(parent := Some(node))];
        kids, rest := kids + [r[0]], r[1..];
      }
      TakingNode(ns, nodes, node, ts, par, cur, kids, rest);
      TakeInDone(k, s, kids, rest, visibleIf);
      TakingDone(ns, nodes, node, ts, par, cur, kids, rest);
      if cur != node {
        nodes := nodes[node := nodes[node].(list := nodes[node].next)];
        nodes := nodes[node := nodes[node].(next := nodes[cur].next)];
        nodes := nodes[cur := nodes[cur].(next := None)];
      }
    }

    /** The finalisation of the whole tree, which starts at the node of the main menu. Each node
        is finalised exactly once, in definition order. The final tree is clean: it has no 'if'
        nodes, and children only under nodes that have a prompt or are choices. Its nodes are
        those of the parsed tree in the same order, with the conditions that plain recursive
        propagation gives them, and all links and parents are right. It is the tree that nesting
        implicit menus and closing the levels, one after the other, gives. */
    method FinalizeTree(top: nat, ghost root: Tree) returns (ghost final: Tree)
      requires Linked(nodes, Some(top), [root], None) && Unique(Ids([root])) && Parsed([root])
      requires root.item.MenuItem? && root.props.prompt.Some?
      modifies this`nodes, this`log
      ensures Linked(nodes, Some(top), [final], None) && Clean([final])
      ensures Preorder([final]) == NoIfs(Listing(k, [root], SymE(k.y)))
      ensures Fresh(k, [root]) && DistinctConsts(k) ==> [final] == Closed(Nested(k, [root], SymE(k.y)))
      ensures log == old(log) + IdSeq([root]) && multiset(IdSeq([root])) == Ids([root])
    {
      hide Seg, Ids, Unique, Linked, Parsed, FinalizeFirst, IdSeq, Preorder, Listing, Clean, NoIfs, Fresh, Closed, Nested;
      FinalizeNode(top, SymE(k.y), [root], None);
      final := FinalizeFirst(k, [root], SymE(k.y))[0];
      if Fresh(k, [root]) && DistinctConsts(k) {
        TreeByPasses(k, root, SymE(k.y));
        OneClosedTree(k, root, SymE(k.y));
      }
      WholeTree(k, root, final);
      IdSeqIds([root]);
      assert [final][1..] == [];
      assert log + [] == log;
    }

    /** Kconfig.node_iter(): the walk uses only the links, and visits the nodes below the top in
        definition order. */
    method NodeIter(top: nat, ghost tree: Tree) returns (order: seq<nat>)
      requires Linked(nodes, Some(top), [tree], None)
      ensures order == IdSeq(tree.kids)
    {
      hide Seg, Linked, IdSeq, At, Pending;
      var node: nat := top;
      order := [];
      ghost var kids, rest := tree.kids, [];
      ghost var up: seq<(nat, seq<Tree>)> := [];
      WalkStart(nodes, top, tree);
      while true
        invariant At(nodes, node, kids, rest, up) && node < |nodes|
        invariant order + (IdSeq(kids) + Pending(rest, up)) == IdSeq(tree.kids)
        decreases |IdSeq(kids) + Pending(rest, up)|
      {
        WalkNode(nodes, node, kids, rest, up);
        if nodes[node].list.Some? {
          EnterChild(nodes, node, kids, rest, up);
          kids, rest, up := kids[0].kids, kids[1..], [(node, rest)] + up;
          node := nodes[node].list.value;
        } else {
          if nodes[node].next == None {
            while nodes[node].parent.Some?
              invariant Ctx(nodes, node, rest, up) && node < |nodes| && rest == []
              invariant order + Pending(rest, up) == IdSeq(tree.kids)
              decreases |up|
            {
              Climb(nodes, node, up);
              node := nodes[node].parent.value;
              rest, up := up[0].1, up[1..];
              if nodes[node].next.Some? {
                break;
              }
            }
            if nodes[node].next == None {
              WalkEnd(nodes, node, rest, up);
              return;
            }
          }
          HasNext(nodes, node, rest, up);
          EnterNext(nodes, node, rest, up);
          kids, rest := rest[0].kids, rest[1..];
          node := nodes[node].next.value;
        }
        order := order + [node];
      }
    }
  }

  /** The state of _flatten() between two nodes: `d` is done and `r` remains, from `cur` on. */
  ghost predicate Flattening(ns0: seq<MenuNode>, ns: seq<MenuNode>, first: Option<nat>, ts: seq<Tree>, par: Option<nat>,
                             cur: Option<nat>, d: seq<Tree>, r: seq<Tree>) {
    && Seg(ns, first, d, par, cur) && Linked(ns, cur, r, par)
    && d + Flatten(r) == Flatten(ts) && Ids(d) + Ids(r) == Ids(ts) && Unique(Ids(ts))
    && Outside(ns0, ns, Ids(ts))
  }

  lemma FlatteningStart(ns: seq<MenuNode>, first: Option<nat>, ts: seq<Tree>, par: Option<nat>)
    requires Linked(ns, first, ts, par) && Unique(Ids(ts))
    ensures Flattening(ns, ns, first, ts, par, first, [], ts)
  {
    hide Seg, Ids, Unique, Flatten;
    SegEmpty(ns, first, par);
    NoIds();
    assert [] + Flatten(ts) == Flatten(ts);
  }

  lemma FlatteningDone(ns0: seq<MenuNode>, ns: seq<MenuNode>, first: Option<nat>, ts: seq<Tree>, par: Option<nat>,
                       d: seq<Tree>, r: seq<Tree>)
    requires Flattening(ns0, ns, first, ts, par, None, d, r)
    ensures Linked(ns, first, Flatten(ts), par) && Outside(ns0, ns, Ids(ts))
  {
    LinkedFirst(ns, None, r, par);
    hide Seg, Ids, Unique;
    assert d + Flatten([]) == d;
  }

  lemma FlatteningNode(ns0: seq<MenuNode>, ns: seq<MenuNode>, first: Option<nat>, ts: seq<Tree>, par: Option<nat>,
                       n: nat, d: seq<Tree>, r: seq<Tree>)
    requires Flattening(ns0, ns, first, ts, par, Some(n), d, r)
    ensures r != [] && n < |ns| && r == [r[0]] + r[1..] && n == r[0].id
    ensures ns[n].item == r[0].item && ns[n].props == r[0].props && ns[n].parent == par
    ensures Linked(ns, ns[n].list, r[0].kids, Some(n)) && Unique(Ids(r[0].kids))
    ensures ns[n].list.Some? <==> r[0].kids != []
    ensures Size(r[0].kids + r[1..]) < Size(r) && Size(r[1..]) < Size(r)
  {
    hide Seg, Ids, Unique, Size, Flatten;
    LinkedFirst(ns, Some(n), r, par);
    assert r == [r[0]] + r[1..];
    SegFirst(ns, Some(n), r[0], r[1..], par, None);
    LinkedFirst(ns, ns[n].list, r[0].kids, Some(n));
    UniqueSum(Ids(d), Ids(r));
    UniqueFirst(r[0], r[1..]);
    FlattenStep(r[0], r[1..]);
  }

  lemma FlatteningDissolved(ns0: seq<MenuNode>, ns: seq<MenuNode>, ns1: seq<MenuNode>, first: Option<nat>,
                            ts: seq<Tree>, par: Option<nat>, n: nat, d: seq<Tree>, r: seq<Tree>)
    requires Flattening(ns0, ns, first, ts, par, Some(n), d, r) && r != [] && n < |ns|
    requires r[0].kids != [] && Dissolves(r[0].item, r[0].props)
    requires Linked(ns1, ns[n].list, r[0].kids, par) && Outside(ns, ns1, Ids(r[0].kids))
    ensures var last := r[0].kids[|r[0].kids| - 1].id;
            && last < |ns1| && n < |ns1|
            && var ns2 := ns1[last := ns1[last].(next := ns1[n].next)];
            && var ns3 := ns2[n := ns2[n].(next := ns2[n].list, list := None)];
            && Flattening(ns0, ns3, first, ts, par, ns3[n].next, d + [r[0].(kids := [])], r[0].kids + r[1..])
  {
    hide Seg, Ids, Unique, Size, Flatten;
    var t, rest := r[0], r[1..];
    FlatteningNode(ns0, ns, first, ts, par, n, d, r);
    Dissolved(ns, ns1, t, rest, par) by {
      UniqueSum(Ids(d), Ids(r));
    }
    var last := t.kids[|t.kids| - 1].id;
    var ns2 := ns1[last := ns1[last].(next := ns1[n].next)];
    var ns3 := ns2[n := ns2[n].(next := ns2[n].list, list := None)];
    SegBefore(ns, ns3, first, d, par, Some(n), Ids(r));
    OutsideTwice(ns0, ns, ns3, Ids(r), Ids(ts));
    SegOne(ns3, Some(n), t.(kids := []), par, ns[n].list);
    AppendSeg(ns3, first, d, t.(kids := []), par, ns3[n].next);
    IdsConcat(t.kids, rest);
    UniqueFirstIds(t, rest);
    NoIds();
    FlattenStep(t, rest);
    assert d + ([t.(kids := [])] + Flatten(t.kids + rest)) == d + [t.(kids := [])] + Flatten(t.kids + rest);
  }

  lemma UniqueFirstIds(t: Tree, rest: seq<Tree>)
    ensures Ids([t] + rest) == multiset{t.id} + Ids(t.kids) + Ids(rest)
  {
    assert ([t] + rest)[1..] == rest;
  }

  lemma FlatteningKept(ns0: seq<MenuNode>, ns: seq<MenuNode>, first: Option<nat>, ts: seq<Tree>, par: Option<nat>,
                       n: nat, d: seq<Tree>, r: seq<Tree>)
    requires Flattening(ns0, ns, first, ts, par, Some(n), d, r) && r != [] && n < |ns|
    requires r[0].kids == [] || !Dissolves(r[0].item, r[0].props)
    ensures Flattening(ns0, ns, first, ts, par, ns[n].next, d + [r[0]], r[1..])
  {
    hide Seg, Ids, Unique, Size, Flatten;
    var t, rest := r[0], r[1..];
    FlatteningNode(ns0, ns, first, ts, par, n, d, r);
    SegFirst(ns, Some(n), t, rest, par, None);
    SegOne(ns, Some(n), t, par, ns[n].next);
    AppendSeg(ns, first, d, t, par, ns[n].next);
    UniqueFirstIds(t, rest);
    FlattenStep(t, rest);
    assert d + ([t] + Flatten(rest)) == d + [t] + Flatten(rest);
  }

  lemma NoIds()
    ensures Ids([]) == multiset{}
  {
  }

  lemma FlattenNothing()
    ensures Flatten([]) == [] && RemoveIfs([]) == []
  {
  }

  lemma AppendSeg(ns: seq<MenuNode>, first: Option<nat>, d: seq<Tree>, t: Tree, par: Option<nat>, end: Option<nat>)
    requires Seg(ns, first, d, par, Some(t.id)) && Seg(ns, Some(t.id), [t], par, end)
    ensures Seg(ns, first, d + [t], par, end)
    ensures Ids(d + [t]) == Ids(d) + multiset{t.id} + Ids(t.kids)
  {
    SegJoin(ns, first, d, [t], par, Some(t.id), end);
    IdsConcat(d, [t]);
    SegOne(ns, Some(t.id), t, par, end);
  }

  // ---------- Removing 'if' nodes ----------

  lemma {:induction false} RemoveIfsConcat(a: seq<Tree>, b: seq<Tree>)
    ensures RemoveIfs(a + b) == RemoveIfs(a) + RemoveIfs(b)
  {
    if a == [] {
      assert a + b == b;
    } else {
      assert (a + b)[1..] == a[1..] + b;
      RemoveIfsConcat(a[1..], b);
    }
  }

  lemma RemoveIfsOne(t: Tree)
    ensures RemoveIfs([t]) == if t.item.IfItem? then [] else [t]
  {
    assert [t][1..] == [];
  }

  lemma IdsTail(ts: seq<Tree>)
    requires ts != []
    ensures Ids(ts[1..]) <= Ids(ts) && Ids([ts[0]]) + Ids(ts[1..]) == Ids(ts) && [ts[0]] + ts[1..] == ts
  {
    hide Ids;
    assert [ts[0]] + ts[1..] == ts;
    IdsConcat([ts[0]], ts[1..]);
  }

  /** The state of _remove_ifs() between two nodes: the list of `node` consists of `d` and,
      from `cur` on, of `r`, which does not begin with an 'if' node. */
  ghost predicate Removing(ns0: seq<MenuNode>, ns: seq<MenuNode>, node: nat, ts: seq<Tree>,
                           cur: Option<nat>, d: seq<Tree>, r: seq<Tree>) {
    && node < |ns0| && |ns| == |ns0| && node !in Ids(ts) && Unique(Ids(ts))
    && Seg(ns, ns[node].list, d, Some(node), cur) && Linked(ns, cur, r, Some(node))
    && d + RemoveIfs(r) == RemoveIfs(ts) && Ids(d) + Ids(r) <= Ids(ts)
    && (r != [] ==> !r[0].item.IfItem?)
    && Outside(ns0, ns, Ids(ts) + multiset{node}) && ns[node] == ns0[node].(list := ns[node].list)
  }

  lemma RemovingStart(ns: seq<MenuNode>, node: nat, ts: seq<Tree>, cur: Option<nat>, r: seq<Tree>)
    requires node < |ns| && node !in Ids(ts) && Unique(Ids(ts))
    requires Linked(ns, cur, r, Some(node)) && RemoveIfs(r) == RemoveIfs(ts) && Ids(r) <= Ids(ts)
    requires r != [] ==> !r[0].item.IfItem?
    ensures Removing(ns, ns[node := ns[node].(list := cur)], node, ts, cur, [], r)
  {
    hide Seg, Ids, Unique, RemoveIfs;
    var ns' := ns[node := ns[node].(list := cur)];
    SegEmpty(ns', cur, Some(node));
    NoIds();
    SegFrame(ns, ns', cur, r, Some(node), None);
    assert [] + RemoveIfs(r) == RemoveIfs(r);
  }

  lemma RemovingNode(ns0: seq<MenuNode>, ns: seq<MenuNode>, node: nat, ts: seq<Tree>, n: nat, d: seq<Tree>, r: seq<Tree>)
    requires Removing(ns0, ns, node, ts, Some(n), d, r)
    ensures r != [] && n < |ns| && n == r[0].id && Linked(ns, ns[n].next, r[1..], Some(node))
    ensures Unique(Ids(d) + Ids(r)) && n !in Ids(r[1..]) && n !in Ids(d) && n != node
    ensures Seg(ns, Some(n), [r[0]], Some(node), ns[n].next)
    ensures ns[n].item == r[0].item && Size(r[1..]) < Size(r)
  {
    LinkedFirst(ns, Some(n), r, Some(node));
    hide Seg, Unique, Ids, RemoveIfs;
    IdsTail(r);
    SegFirst(ns, Some(n), r[0], r[1..], Some(node), None);
    SegOne(ns, Some(n), r[0], Some(node), ns[n].next);
    SubUnique(Ids(d) + Ids(r), Ids(ts));
    UniqueSum(Ids(d), Ids(r));
    UniqueFirst(r[0], r[1..]);
    assert n in Ids(r);
  }

  lemma SubUnique(a: multiset<nat>, b: multiset<nat>)
    requires a <= b && Unique(b)
    ensures Unique(a)
  {
  }

  /** The current node is linked past following 'if' nodes. */
  lemma RemovingNext(ns0: seq<MenuNode>, ns: seq<MenuNode>, node: nat, ts: seq<Tree>, n: nat, d: seq<Tree>, r: seq<Tree>,
                     next: Option<nat>, r': seq<Tree>)
    requires Removing(ns0, ns, node, ts, Some(n), d, r) && r != [] && n < |ns|
    requires Linked(ns, next, r', Some(node)) && RemoveIfs(r') == RemoveIfs(r[1..]) && Ids(r') <= Ids(r[1..])
    requires r' != [] ==> !r'[0].item.IfItem?
    ensures Removing(ns0, ns[n := ns[n].(next := next)], node, ts, next, d + [r[0]], r')
  {
    hide Seg, Ids, Unique, RemoveIfs, Outside;
    RemovingNode(ns0, ns, node, ts, n, d, r);
    RemovingNextLinks(ns, node, n, d, r, next, r');
    RemovingNextIds(d, r, r', ts);
    IdsTail(r);
    RemovedSpec(d, r[0], r[1..], r', ts);
    OutsideOne(ns0, ns, n, next, Ids(ts) + multiset{node});
  }

  lemma OutsideOne(ns0: seq<MenuNode>, ns: seq<MenuNode>, n: nat, next: Option<nat>, ids: multiset<nat>)
    requires Outside(ns0, ns, ids) && n < |ns| && n in ids
    ensures Outside(ns0, ns[n := ns[n].(next := next)], ids)
  {
  }

  lemma RemovingNextIds(d: seq<Tree>, r: seq<Tree>, r': seq<Tree>, ts: seq<Tree>)
    requires r != [] && Ids(r') <= Ids(r[1..]) && Ids(d) + Ids(r) <= Ids(ts)
    ensures Ids(d + [r[0]]) + Ids(r') <= Ids(ts)
    ensures r[0].id in Ids(ts)
  {
    hide Ids;
    IdsTail(r);
    IdsConcat(d, [r[0]]);
    UniqueFirstIds(r[0], r[1..]);
    FewerIds(Ids(d), Ids([r[0]]), Ids(r[1..]), Ids(r'), Ids(ts));
    assert r[0].id in Ids(r);
  }

  lemma RemovingNextLinks(ns: seq<MenuNode>, node: nat, n: nat, d: seq<Tree>, r: seq<Tree>,
                          next: Option<nat>, r': seq<Tree>)
    requires r != [] && n < |ns| && n == r[0].id && node < |ns| && n != node
    requires Seg(ns, ns[node].list, d, Some(node), Some(n)) && Seg(ns, Some(n), [r[0]], Some(node), ns[n].next)
    requires Linked(ns, next, r', Some(node)) && Ids(r') <= Ids(r[1..])
    requires n !in Ids(r[1..]) && n !in Ids(d) && Unique(Ids(d) + Ids(r))
    ensures var ns' := ns[n := ns[n].(next := next)];
            && Seg(ns', ns'[node].list, d + [r[0]], Some(node), next) && Linked(ns', next, r', Some(node))
  {
    hide Seg, Ids, Unique;
    var ns' := ns[n := ns[n].(next := next)];
    var t, rest := r[0], r[1..];
    IdsTail(r);
    SegFrame(ns, ns', next, r', Some(node), None);
    SegFrame(ns, ns', ns[node].list, d, Some(node), Some(n));
    RelinkOne(ns, t, Some(node), ns[n].next, next, Ids(d), Ids(rest), Ids(d) + Ids(r));
    AppendSeg(ns', ns[node].list, d, t, Some(node), next);
  }

  lemma RemovedSpec(d: seq<Tree>, t: Tree, rest: seq<Tree>, r': seq<Tree>, ts: seq<Tree>)
    requires d + RemoveIfs([t] + rest) == RemoveIfs(ts) && !t.item.IfItem? && RemoveIfs(r') == RemoveIfs(rest)
    ensures d + [t] + RemoveIfs(r') == RemoveIfs(ts)
  {
    hide RemoveIfs;
    RemoveIfsConcat([t], rest);
    RemoveIfsOne(t);
  }

  lemma FewerIds(d: multiset<nat>, t: multiset<nat>, rest: multiset<nat>, rest': multiset<nat>, all: multiset<nat>)
    requires d + (t + rest) <= all && rest' <= rest
    ensures (d + t) + rest' <= all
  {
  }

  lemma RelinkOne(ns: seq<MenuNode>, t: Tree, par: Option<nat>, end: Option<nat>, end': Option<nat>,
                  d: multiset<nat>, rest: multiset<nat>, all: multiset<nat>)
    requires Seg(ns, Some(t.id), [t], par, end) && t.id < |ns|
    requires d + (Ids([t]) + rest) <= all && Unique(all)
    ensures Seg(ns[t.id := ns[t.id].(next := end')], Some(t.id), [t], par, end')
  {
    hide Seg, Unique, Ids;
    SubUnique(Ids([t]), all);
    assert [] + [t] == [t];
    SegNewEnd(ns, Some(t.id), [], t, par, end, end');
  }

  lemma RemovingDone(ns0: seq<MenuNode>, ns: seq<MenuNode>, node: nat, ts: seq<Tree>, d: seq<Tree>, r: seq<Tree>)
    requires Removing(ns0, ns, node, ts, None, d, r)
    ensures node < |ns| && Linked(ns, ns[node].list, RemoveIfs(ts), Some(node))
    ensures Outside(ns0, ns, Ids(ts) + multiset{node}) && ns[node] == ns0[node].(list := ns[node].list)
  {
    LinkedFirst(ns, None, r, Some(node));
    hide Seg, Ids, Unique;
    assert d + RemoveIfs([]) == d;
  }

  /** One step over an 'if' node. */
  lemma SkipIf(ns: seq<MenuNode>, cur: nat, r: seq<Tree>, par: Option<nat>)
    requires Linked(ns, Some(cur), r, par)
    ensures r != [] && cur < |ns| && ns[cur].item == r[0].item && Linked(ns, ns[cur].next, r[1..], par)
    ensures r[0].item.IfItem? ==> RemoveIfs(r) == RemoveIfs(r[1..])
    ensures Ids(r[1..]) <= Ids(r) && Size(r[1..]) < Size(r)
  {
    IdsTail(r);
  }

  /** The number of nodes bounds the size. */
  lemma {:induction false} SizeIsIds(ts: seq<Tree>)
    ensures Size(ts) == |Ids(ts)|
    decreases Size(ts)
  {
    if ts != [] {
      SizeIsIds(ts[0].kids);
      SizeIsIds(ts[1..]);
    }
  }

  lemma SmallerRest(r: seq<Tree>, ts: seq<Tree>)
    requires Ids(r) <= Ids(ts)
    ensures Size(r) <= Size(ts)
  {
    SizeIsIds(r);
    SizeIsIds(ts);
    assert Ids(ts) == Ids(r) + (Ids(ts) - Ids(r));
    hide Ids, Size;
  }

  // ---------- Propagation ----------

  lemma {:induction false} PropagateConcat(k: Consts, a: seq<Tree>, b: seq<Tree>, baseDep: Expr, vis: Expr)
    ensures Propagate(k, a + b, baseDep, vis) == Propagate(k, a, baseDep, vis) + Propagate(k, b, baseDep, vis)
  {
    hide Inherit, Size;
    if a == [] {
      assert a + b == b;
    } else {
      assert (a + b)[1..] == a[1..] + b;
      PropagateConcat(k, a[1..], b, baseDep, vis);
    }
  }

  function Inherited(k: Consts, t: Tree, baseDep: Expr, vis: Expr): Tree {
    t.(props := Inherit(k, t.item, t.props, baseDep, vis))
  }

  lemma PropagateOne(k: Consts, t: Tree, baseDep: Expr, vis: Expr)
    ensures Propagate(k, [t], baseDep, vis) == [Inherited(k, t, baseDep, vis)]
  {
    hide Inherit;
    assert [t][1..] == [];
  }

  lemma {:induction false} PropagateIds(k: Consts, ts: seq<Tree>, baseDep: Expr, vis: Expr)
    ensures Ids(Propagate(k, ts, baseDep, vis)) == Ids(ts)
    ensures IdSeq(Propagate(k, ts, baseDep, vis)) == IdSeq(ts)
  {
    hide Inherit;
    if ts != [] {
      PropagateIds(k, ts[1..], baseDep, vis);
      var r := Propagate(k, ts, baseDep, vis);
      assert r[1..] == Propagate(k, ts[1..], baseDep, vis);
    }
  }

  /** The nodes in definition order. */
  function IdSeq(ts: seq<Tree>): seq<nat> {
    if ts == [] then [] else [ts[0].id] + IdSeq(ts[0].kids) + IdSeq(ts[1..])
  }

  ghost predicate Propagating(k: Consts, ns0: seq<MenuNode>, ns: seq<MenuNode>, node: nat, ts: seq<Tree>,
                              baseDep: Expr, vis: Expr, cur: Option<nat>, d: seq<Tree>, r: seq<Tree>) {
    && node < |ns| && node !in Ids(ts) && Unique(Ids(ts)) && ts == d + r
    && Seg(ns, ns[node].list, Propagate(k, d, baseDep, vis), Some(node), cur) && Linked(ns, cur, r, Some(node))
    && Outside(ns0, ns, Ids(ts))
  }

  lemma PropagatingStart(k: Consts, ns: seq<MenuNode>, node: nat, ts: seq<Tree>, baseDep: Expr, vis: Expr)
    requires node < |ns| && node !in Ids(ts) && Unique(Ids(ts)) && Linked(ns, ns[node].list, ts, Some(node))
    ensures Propagating(k, ns, ns, node, ts, baseDep, vis, ns[node].list, [], ts)
  {
    hide Seg, Ids, Unique;
    SegEmpty(ns, ns[node].list, Some(node));
  }

  lemma PropagatingNext(k: Consts, ns0: seq<MenuNode>, ns: seq<MenuNode>, node: nat, ts: seq<Tree>,
                        baseDep: Expr, vis: Expr, n: nat, d: seq<Tree>, r: seq<Tree>)
    requires Propagating(k, ns0, ns, node, ts, baseDep, vis, Some(n), d, r)
    ensures r != [] && n < |ns| && n != node
    ensures var ns' := ns[n := ns[n].(props := Inherit(k, ns[n].item, ns[n].props, baseDep, vis))];
            Propagating(k, ns0, ns', node, ts, baseDep, vis, ns'[n].next, d + [r[0]], r[1..])
  {
    hide Seg, Ids, Unique, Propagate, Inherit, Outside;
    LinkedFirst(ns, Some(n), r, Some(node));
    var t, rest := r[0], r[1..];
    assert r == [t] + rest && d + [t] + rest == ts;
    SegFirst(ns, Some(n), t, rest, Some(node), None);
    UniqueLists(d, r);
    IdsConcat(d, r);
    PropagateIds(k, d, baseDep, vis);
    PropagateConcat(k, d, [t], baseDep, vis);
    PropagateOne(k, t, baseDep, vis);
    assert n in Ids(r);
    var props := Inherit(k, ns[n].item, ns[n].props, baseDep, vis);
    NewProps(ns, node, n, Propagate(k, d, baseDep, vis), t, rest, props);
    OutsideProps(ns0, ns, n, props, Ids(ts));
  }

  lemma OutsideProps(ns0: seq<MenuNode>, ns: seq<MenuNode>, n: nat, props: Props, ids: multiset<nat>)
    requires Outside(ns0, ns, ids) && n < |ns| && n in ids
    ensures Outside(ns0, ns[n := ns[n].(props := props)], ids)
  {
  }

  /** One of the children gets new conditions. */
  lemma NewProps(ns: seq<MenuNode>, node: nat, n: nat, d: seq<Tree>, t: Tree, rest: seq<Tree>, props: Props)
    requires n < |ns| && node < |ns| && n == t.id && n != node
    requires Seg(ns, ns[node].list, d, Some(node), Some(n)) && Linked(ns, Some(n), [t] + rest, Some(node))
    requires Unique(Ids([t] + rest)) && n !in Ids(d)
    ensures var ns' := ns[n := ns[n].(props := props)];
            && Seg(ns', ns'[node].list, d + [t.(props := props)], Some(node), ns'[n].next)
            && Linked(ns', ns'[n].next, rest, Some(node))
  {
    hide Seg, Ids, Unique;
    var ns' := ns[n := ns[n].(props := props)];
    SegFirst(ns, Some(n), t, rest, Some(node), None);
    UniqueFirst(t, rest);
    SegFrame(ns, ns', ns[node].list, d, Some(node), Some(n));
    SegFrame(ns, ns', ns[n].list, t.kids, Some(n), None);
    SegFrame(ns, ns', ns[n].next, rest, Some(node), None);
    SegOne(ns', Some(n), t.(props := props), Some(node), ns[n].next);
    AppendSeg(ns', ns[node].list, d, t.(props := props), Some(node), ns[n].next);
  }

  lemma PropagatingDone(k: Consts, ns0: seq<MenuNode>, ns: seq<MenuNode>, node: nat, ts: seq<Tree>,
                        baseDep: Expr, vis: Expr, d: seq<Tree>, r: seq<Tree>)
    requires Propagating(k, ns0, ns, node, ts, baseDep, vis, None, d, r) && node < |ns0|
    ensures node < |ns| && Linked(ns, ns[node].list, Propagate(k, ts, baseDep, vis), Some(node))
    ensures Outside(ns0, ns, Ids(ts)) && ns[node] == ns0[node]
  {
    LinkedFirst(ns, None, r, Some(node));
    hide Seg, Ids, Unique;
    assert d == ts;
  }

  lemma WiderOutside(ns: seq<MenuNode>, ns': seq<MenuNode>, ids: multiset<nat>, more: multiset<nat>)
    requires Outside(ns, ns', ids)
    ensures Outside(ns, ns', ids + more)
  {
  }

  // ---------- Finalisation ----------

  lemma {:induction false} FinalizeFirstIds(k: Consts, ts: seq<Tree>, vis: Expr)
    requires ts != []
    ensures Ids(FinalizeFirst(k, ts, vis)) <= Ids(ts)
    decreases Size(ts), 2
  {
    hide Ids, Propagate, CloseLevel, FinalizeAll, TakeIn, Inherit;
    var t := ts[0];
    IdsTail(ts);
    UniqueFirstIds(t, ts[1..]);
    var kids, rest;
    if t.item.SymItem? {
      var taken := TakeIn(k, t.item.s, [], ts[1..], vis);
      TakeInIds(k, t.item.s, [], ts[1..], vis);
      NoIds();
      CloseLevelIds(taken.0);
      CloseLevelIds(t.kids);
      kids, rest := if taken.0 == [] then CloseLevel(t.kids) else CloseLevel(taken.0), taken.1;
      assert Ids([]) + Ids(ts[1..]) == Ids(ts[1..]);
      if taken.0 != [] {
        TakenIds(Ids(kids), Ids(taken.0), Ids(rest), Ids(ts[1..]), Ids(t.kids));
      }
    } else {
      var inner := InnerVisible(k, t.item, t.props, vis);
      var kids0 := Propagate(k, t.kids, BaseDep(t.item, t.props), inner);
      PropagateIds(k, t.kids, BaseDep(t.item, t.props), inner);
      FinalizeAllIds(k, kids0, inner);
      CloseLevelIds(FinalizeAll(k, kids0, inner));
      kids, rest := CloseLevel(FinalizeAll(k, kids0, inner)), ts[1..];
    }
    UniqueFirstIds(t.(kids := kids), rest);
    assert Ids(kids) + Ids(rest) <= Ids(t.kids) + Ids(ts[1..]);
    AddId(t.id, Ids(kids), Ids(rest), Ids(t.kids), Ids(ts[1..]));
  }

  lemma AddId(x: nat, a: multiset<nat>, b: multiset<nat>, c: multiset<nat>, d: multiset<nat>)
    requires a + b <= c + d
    ensures multiset{x} + a + b <= multiset{x} + c + d
  {
    forall y
      ensures (multiset{x} + a + b)[y] <= (multiset{x} + c + d)[y]
    {
      assert (a + b)[y] <= (c + d)[y];
    }
  }

  /** The taken siblings, some of which closing may drop, and the remaining ones. */
  lemma TakenIds(kids: multiset<nat>, taken: multiset<nat>, rest: multiset<nat>, siblings: multiset<nat>, before: multiset<nat>)
    requires taken + rest <= siblings && kids <= taken
    ensures kids + rest <= before + siblings
  {
    forall y
      ensures (kids + rest)[y] <= (before + siblings)[y]
    {
      assert (taken + rest)[y] <= siblings[y];
    }
  }

  lemma CloseLevelIds(ts: seq<Tree>)
    ensures Ids(CloseLevel(ts)) <= Ids(ts)
  {
    FlattenIds(ts);
    RemoveIfsIds(Flatten(ts));
  }

  lemma {:induction false} TakeInIds(k: Consts, s: nat, kids: seq<Tree>, rest: seq<Tree>, vis: Expr)
    ensures Ids(TakeIn(k, s, kids, rest, vis).0) + Ids(TakeIn(k, s, kids, rest, vis).1) <= Ids(kids) + Ids(rest)
    decreases Size(rest), 3
  {
    hide Ids, FinalizeFirst, AutoMenuDep;
    if rest != [] && AutoMenuDep(k, s, rest[0].props) {
      var r := FinalizeFirst(k, rest, vis);
      FinalizeFirstIds(k, rest, vis);
      IdsTail(r);
      IdsConcat(kids, [r[0]]);
      SizeSplit(r);
      TakeInIds(k, s, kids + [r[0]], r[1..], vis);
    }
  }

  lemma {:induction false} FinalizeAllIds(k: Consts, ts: seq<Tree>, vis: Expr)
    ensures Ids(FinalizeAll(k, ts, vis)) <= Ids(ts)
    decreases Size(ts), 3
  {
    hide Ids, FinalizeFirst;
    if ts == [] {
      NoIds();
    } else {
      var r := FinalizeFirst(k, ts, vis);
      FinalizeFirstIds(k, ts, vis);
      IdsTail(r);
      SizeSplit(r);
      FinalizeAllIds(k, r[1..], vis);
      IdsConcat([r[0]], FinalizeAll(k, r[1..], vis));
    }
  }

  /** The node and what the parsed form says about it. */
  lemma NodeStart(ns: seq<MenuNode>, node: nat, ts: seq<Tree>, par: Option<nat>)
    requires ts != [] && Linked(ns, Some(node), ts, par) && Unique(Ids(ts)) && Parsed(ts)
    ensures node < |ns| && node == ts[0].id && ns[node].item == ts[0].item && ns[node].props == ts[0].props
    ensures Linked(ns, ns[node].list, ts[0].kids, Some(node)) && Unique(Ids(ts[0].kids)) && node !in Ids(ts[0].kids)
    ensures ns[node].list.Some? <==> ts[0].kids != []
    ensures Parsed(ts[0].kids) && Parsed(ts[1..]) && (ts[0].item.SymItem? ==> ts[0].kids == [])
    ensures Size(ts[0].kids) < Size(ts) && Size(ts[1..]) < Size(ts)
    ensures IdSeq(ts) == [node] + IdSeq(ts[0].kids) + IdSeq(ts[1..])
    ensures ts[0].kids == [] ==> IdSeq(ts[0].kids) == []
  {
    ParsedFirst(ts);
    hide Seg, Ids, Unique, Parsed;
    IdsTail(ts);
    SegFirst(ns, Some(node), ts[0], ts[1..], par, None);
    UniqueFirst(ts[0], ts[1..]);
    LinkedFirst(ns, ns[node].list, ts[0].kids, Some(node));
  }

  /** A node whose children and following siblings are known. */
  ghost predicate NodeOpen(ns0: seq<MenuNode>, ns: seq<MenuNode>, node: nat, ts: seq<Tree>, par: Option<nat>,
                           kids: seq<Tree>, rest: seq<Tree>) {
    && ts != [] && node == ts[0].id && node < |ns|
    && ns[node].item == ts[0].item && ns[node].props == ts[0].props && ns[node].parent == par
    && Linked(ns, ns[node].list, kids, Some(node)) && Linked(ns, ns[node].next, rest, par)
    && multiset{node} + Ids(kids) + Ids(rest) <= Ids(ts) && Unique(Ids(ts))
    && Outside(ns0, ns, Ids(ts))
  }

  lemma OpenParts(x: nat, a: multiset<nat>, b: multiset<nat>, all: multiset<nat>)
    requires multiset{x} + a + b <= all && Unique(all)
    ensures Unique(a) && Unique(b) && x !in a && x !in b && x in all
    ensures forall y :: y in a ==> y !in b && y in all
    ensures forall y :: y in b ==> y in all
    ensures a + b <= all && a + multiset{x} <= all
  {
    forall y
      ensures multiset{x}[y] + a[y] + b[y] <= all[y] && (all[y] == 0 || all[y] == 1)
    {
      assert (multiset{x} + a + b)[y] <= all[y];
    }
  }

  lemma NodeOpenFacts(ns0: seq<MenuNode>, ns: seq<MenuNode>, node: nat, ts: seq<Tree>, par: Option<nat>,
                      kids: seq<Tree>, rest: seq<Tree>)
    requires NodeOpen(ns0, ns, node, ts, par, kids, rest)
    ensures node < |ns| && Linked(ns, ns[node].list, kids, Some(node))
    ensures node !in Ids(kids) && Unique(Ids(kids))
  {
    hide Seg, Ids, Unique;
    OpenParts(node, Ids(kids), Ids(rest), Ids(ts));
  }

  lemma ChildrenDone(ns0: seq<MenuNode>, ns: seq<MenuNode>, node: nat, ts: seq<Tree>, par: Option<nat>, kids: seq<Tree>)
    requires ts != [] && Linked(ns0, Some(node), ts, par) && Unique(Ids(ts))
    requires node < |ns| && Outside(ns0, ns, Ids(ts[0].kids)) && Ids(kids) <= Ids(ts[0].kids)
    requires Linked(ns, ns[node].list, kids, Some(node))
    ensures NodeOpen(ns0, ns, node, ts, par, kids, ts[1..])
  {
    hide Seg, Ids, Unique;
    var t, rest := ts[0], ts[1..];
    IdsTail(ts);
    SegFirst(ns0, Some(node), t, rest, par, None);
    UniqueFirst(t, rest);
    SegFrame(ns0, ns, ns0[node].next, rest, par, None);
    assert multiset{node} + Ids(kids) + Ids(rest) <= Ids(ts) by {
      AddId(node, Ids(kids), Ids(rest), Ids(t.kids), Ids(rest));
    }
    OpenParts(node, Ids(t.kids), Ids(rest), Ids(ts));
  }

  /** The closed level is the final tree below the node. */
  lemma NodeDone(ns0: seq<MenuNode>, mid: seq<MenuNode>, ns: seq<MenuNode>, node: nat, ts: seq<Tree>, par: Option<nat>,
                 kids: seq<Tree>, rest: seq<Tree>)
    requires NodeOpen(ns0, mid, node, ts, par, kids, rest) && |ns| == |mid|
    requires Outside(mid, ns, Ids(kids) + multiset{node}) && ns[node] == mid[node].(list := ns[node].list)
    requires Linked(ns, ns[node].list, CloseLevel(kids), Some(node))
    ensures Linked(ns, Some(node), [ts[0].(kids := CloseLevel(kids))] + rest, par)
    ensures Outside(ns0, ns, Ids(ts))
  {
    hide Seg, Ids, Unique, CloseLevel;
    OpenParts(node, Ids(kids), Ids(rest), Ids(ts));
    SegFrame(mid, ns, mid[node].next, rest, par, None);
    SegFirst(ns, Some(node), ts[0].(kids := CloseLevel(kids)), rest, par, None);
    OutsideTwice(ns0, mid, ns, Ids(kids) + multiset{node}, Ids(ts));
  }

  lemma PropagatedKids(k: Consts, kids: seq<Tree>, baseDep: Expr, vis: Expr)
    requires Parsed(kids)
    ensures var r := Propagate(k, kids, baseDep, vis);
            && Ids(r) == Ids(kids) && IdSeq(r) == IdSeq(kids) && Size(r) == Size(kids) && Parsed(r)
            && Ids(FinalizeAll(k, r, vis)) <= Ids(kids)
            && (kids == [] ==> FinalizeAll(k, r, vis) == [])
  {
    hide Ids, IdSeq, Parsed, FinalizeFirst;
    PropagateIds(k, kids, baseDep, vis);
    PropagateParsed(k, kids, baseDep, vis);
    FinalizeAllIds(k, Propagate(k, kids, baseDep, vis), vis);
  }

  lemma FinalizeFirstIs(k: Consts, ts: seq<Tree>, vis: Expr, kids: seq<Tree>, rest: seq<Tree>)
    requires ts != [] && (ts[0].item.SymItem? ==> ts[0].kids == [])
    requires var t := ts[0];
             if t.item.SymItem? then (kids, rest) == TakeIn(k, t.item.s, [], ts[1..], vis)
             else
               var inner := InnerVisible(k, t.item, t.props, vis);
               kids == FinalizeAll(k, Propagate(k, t.kids, BaseDep(t.item, t.props), inner), inner) && rest == ts[1..]
    ensures FinalizeFirst(k, ts, vis) == [ts[0].(kids := CloseLevel(kids))] + rest
    ensures FinalizeFirst(k, ts, vis)[1..] == rest
  {
    hide Propagate, FinalizeAll, TakeIn, CloseLevel, Size;
  }

  // ---------- The loop over children ----------

  ghost predicate Finalizing(k: Consts, ns0: seq<MenuNode>, ns: seq<MenuNode>, node: nat, ts: seq<Tree>, vis: Expr,
                             cur: Option<nat>, d: seq<Tree>, r: seq<Tree>) {
    && node < |ns| && node !in Ids(ts) && Unique(Ids(ts)) && Parsed(r)
    && Seg(ns, ns[node].list, d, Some(node), cur) && Linked(ns, cur, r, Some(node))
    && d + FinalizeAll(k, r, vis) == FinalizeAll(k, ts, vis) && Ids(d) + Ids(r) <= Ids(ts)
    && Outside(ns0, ns, Ids(ts))
  }

  lemma FinalizingStart(k: Consts, ns: seq<MenuNode>, node: nat, ts: seq<Tree>, vis: Expr)
    requires node < |ns| && node !in Ids(ts) && Unique(Ids(ts)) && Parsed(ts)
    requires Linked(ns, ns[node].list, ts, Some(node))
    ensures Finalizing(k, ns, ns, node, ts, vis, ns[node].list, [], ts)
  {
    hide Seg, Ids, Unique, Parsed, FinalizeAll;
    SegEmpty(ns, ns[node].list, Some(node));
    NoIds();
    assert [] + FinalizeAll(k, ts, vis) == FinalizeAll(k, ts, vis);
  }

  lemma FinalizingNode(k: Consts, ns0: seq<MenuNode>, ns: seq<MenuNode>, node: nat, ts: seq<Tree>, vis: Expr,
                       n: nat, d: seq<Tree>, r: seq<Tree>)
    requires Finalizing(k, ns0, ns, node, ts, vis, Some(n), d, r)
    ensures r != [] && Linked(ns, Some(n), r, Some(node)) && Unique(Ids(r)) && Parsed(r)
  {
    LinkedFirst(ns, Some(n), r, Some(node));
    hide Seg, Ids, Unique;
    SubUnique(Ids(d) + Ids(r), Ids(ts));
    UniqueSum(Ids(d), Ids(r));
  }

  /** The siblings up to the finalised one, and those that remain behind it. */
  lemma FinalizedLinks(ns: seq<MenuNode>, ns': seq<MenuNode>, node: nat, n: nat, d: seq<Tree>, r: seq<Tree>, r': seq<Tree>)
    requires node < |ns| && |ns'| == |ns| && ns'[node] == ns[node] && r' != []
    requires Seg(ns, ns[node].list, d, Some(node), Some(n)) && Linked(ns', Some(n), r', Some(node))
    requires Outside(ns, ns', Ids(r)) && Unique(Ids(d) + Ids(r))
    ensures n < |ns'| && Seg(ns', ns'[node].list, d + [r'[0]], Some(node), ns'[n].next)
    ensures Linked(ns', ns'[n].next, r'[1..], Some(node))
  {
    hide Seg, Ids, Unique, Outside;
    SegBefore(ns, ns', ns[node].list, d, Some(node), Some(n), Ids(r));
    assert r' == [r'[0]] + r'[1..];
    SegFirst(ns', Some(n), r'[0], r'[1..], Some(node), None);
    SegOne(ns', Some(n), r'[0], Some(node), ns'[n].next);
    AppendSeg(ns', ns[node].list, d, r'[0], Some(node), ns'[n].next);
  }

  lemma FinalizeAllNext(k: Consts, vis: Expr, d: seq<Tree>, r: seq<Tree>, r': seq<Tree>)
    requires r != [] && r' == FinalizeFirst(k, r, vis)
    ensures d + FinalizeAll(k, r, vis) == d + [r'[0]] + FinalizeAll(k, r'[1..], vis)
  {
    hide FinalizeFirst;
  }

  lemma FinalizingNext(k: Consts, ns0: seq<MenuNode>, ns: seq<MenuNode>, ns': seq<MenuNode>, node: nat, ts: seq<Tree>,
                       vis: Expr, n: nat, d: seq<Tree>, r: seq<Tree>)
    requires Finalizing(k, ns0, ns, node, ts, vis, Some(n), d, r) && r != []
    requires Linked(ns', Some(n), FinalizeFirst(k, r, vis), Some(node)) && Outside(ns, ns', Ids(r))
    ensures var r' := FinalizeFirst(k, r, vis);
            && n < |ns'| && Size(r'[1..]) < Size(r)
            && Finalizing(k, ns0, ns', node, ts, vis, ns'[n].next, d + [r'[0]], r'[1..])
  {
    hide Seg, Linked, Ids, Unique, Parsed, FinalizeFirst, FinalizeAll, Size, Outside;
    var r' := FinalizeFirst(k, r, vis);
    FinalizeFirstIds(k, r, vis);
    FinalizeFirstKeeps(k, r, vis);
    SizeSplit(r');
    SubUnique(Ids(d) + Ids(r), Ids(ts));
    NodeUntouched(ns, ns', node, Ids(d), Ids(r), Ids(ts));
    FinalizedLinks(ns, ns', node, n, d, r, r');
    FinalizingIds(d, r, r', ts);
    OutsideTwice(ns0, ns, ns', Ids(r), Ids(ts));
    FinalizeAllNext(k, vis, d, r, r');
  }

  lemma FinalizingIds(d: seq<Tree>, r: seq<Tree>, r': seq<Tree>, ts: seq<Tree>)
    requires r' != [] && Ids(r') <= Ids(r) && Ids(d) + Ids(r) <= Ids(ts)
    ensures Ids(d + [r'[0]]) + Ids(r'[1..]) <= Ids(ts) && Ids(r) <= Ids(ts)
  {
    hide Ids;
    IdsTail(r');
    IdsConcat(d, [r'[0]]);
    LessIds(Ids(d), Ids([r'[0]]), Ids(r'[1..]), Ids(r), Ids(ts));
    LessRest(Ids(d), Ids(r), Ids(ts));
  }

  lemma NodeUntouched(ns: seq<MenuNode>, ns': seq<MenuNode>, node: nat, d: multiset<nat>, r: multiset<nat>, all: multiset<nat>)
    requires Outside(ns, ns', r) && d + r <= all && node !in all && node < |ns|
    ensures |ns'| == |ns| && ns'[node] == ns[node]
  {
    LessRest(d, r, all);
  }

  lemma LessRest(d: multiset<nat>, r: multiset<nat>, all: multiset<nat>)
    requires d + r <= all
    ensures r <= all
  {
  }

  lemma LessIds(d: multiset<nat>, a: multiset<nat>, b: multiset<nat>, r: multiset<nat>, all: multiset<nat>)
    requires d + r <= all && a + b <= r
    ensures (d + a) + b <= all
  {
    forall y
      ensures ((d + a) + b)[y] <= all[y]
    {
      assert (d + r)[y] <= all[y] && (a + b)[y] <= r[y];
    }
  }

  lemma FinalizingDone(k: Consts, ns0: seq<MenuNode>, ns: seq<MenuNode>, node: nat, ts: seq<Tree>, vis: Expr,
                       d: seq<Tree>, r: seq<Tree>)
    requires Finalizing(k, ns0, ns, node, ts, vis, None, d, r)
    ensures r == [] && IdSeq(r) == []
    ensures node < |ns| && Linked(ns, ns[node].list, FinalizeAll(k, ts, vis), Some(node)) && Outside(ns0, ns, Ids(ts))
  {
    LinkedFirst(ns, None, r, Some(node));
    hide Seg, Ids, Unique, Parsed;
    assert d + FinalizeAll(k, [], vis) == d;
  }

  // ---------- The loop that collects an implicit menu ----------

  ghost predicate Taking(ns0: seq<MenuNode>, ns: seq<MenuNode>, node: nat, ts: seq<Tree>, par: Option<nat>,
                         cur: nat, kids: seq<Tree>, rest: seq<Tree>) {
    && ts != [] && node == ts[0].id && node < |ns| && cur < |ns|
    && ns[node].item == ts[0].item && ns[node].props == ts[0].props && ns[node].parent == par && ns[node].list == None
    && cur == (if kids == [] then node else kids[|kids| - 1].id)
    && Seg(ns, ns[node].next, kids, Some(node), ns[cur].next) && Linked(ns, ns[cur].next, rest, par)
    && multiset{node} + Ids(kids) + Ids(rest) <= Ids(ts) && Unique(Ids(ts))
    && Outside(ns0, ns, Ids(ts))
  }

  lemma TakingStart(ns: seq<MenuNode>, node: nat, ts: seq<Tree>, par: Option<nat>)
    requires ts != [] && Linked(ns, Some(node), ts, par) && Unique(Ids(ts)) && ts[0].kids == []
    ensures Taking(ns, ns, node, ts, par, node, [], ts[1..])
  {
    hide Seg, Ids, Unique;
    IdsTail(ts);
    SegFirst(ns, Some(node), ts[0], ts[1..], par, None);
    LinkedFirst(ns, ns[node].list, [], Some(node));
    SegEmpty(ns, ns[node].next, Some(node));
    NoIds();
  }

  lemma TakingNode(ns0: seq<MenuNode>, ns: seq<MenuNode>, node: nat, ts: seq<Tree>, par: Option<nat>,
                   cur: nat, kids: seq<Tree>, rest: seq<Tree>)
    requires Taking(ns0, ns, node, ts, par, cur, kids, rest)
    ensures cur < |ns| && (ns[cur].next.Some? <==> rest != []) && Linked(ns, ns[cur].next, rest, par)
    ensures rest != [] ==>
              && ns[cur].next == Some(rest[0].id) && rest[0].id < |ns|
              && ns[rest[0].id].props == rest[0].props
    ensures Unique(Ids(rest))
  {
    LinkedFirst(ns, ns[cur].next, rest, par);
    hide Ids, Unique;
    OpenParts(node, Ids(kids), Ids(rest), Ids(ts));
  }

  lemma TakeInNext(k: Consts, s: nat, kids: seq<Tree>, rest: seq<Tree>, vis: Expr)
    requires rest != [] && AutoMenuDep(k, s, rest[0].props)
    ensures var r := FinalizeFirst(k, rest, vis);
            TakeIn(k, s, kids, rest, vis) == TakeIn(k, s, kids + [r[0]], r[1..], vis)
  {
    hide FinalizeFirst, AutoMenuDep;
  }

  lemma TakeInDone(k: Consts, s: nat, kids: seq<Tree>, rest: seq<Tree>, vis: Expr)
    ensures rest == [] || !AutoMenuDep(k, s, rest[0].props) ==> TakeIn(k, s, kids, rest, vis) == (kids, rest)
  {
    hide FinalizeFirst, AutoMenuDep;
  }

  /** The finalised sibling becomes the next child. */
  lemma TakingNext(k: Consts, ns0: seq<MenuNode>, ns: seq<MenuNode>, ns1: seq<MenuNode>, node: nat, ts: seq<Tree>,
                   par: Option<nat>, cur: nat, kids: seq<Tree>, rest: seq<Tree>, vis: Expr)
    requires Taking(ns0, ns, node, ts, par, cur, kids, rest) && rest != [] && Parsed(rest)
    requires Linked(ns1, Some(rest[0].id), FinalizeFirst(k, rest, vis), par) && Outside(ns, ns1, Ids(rest))
    ensures var r, next := FinalizeFirst(k, rest, vis), rest[0].id;
            && next < |ns1| && Parsed(r[1..]) && Size(r[1..]) < Size(rest)
            && Taking(ns0, ns1[next := ns1[next].(parent := Some(node))], node, ts, par, next, kids + [r[0]], r[1..])
            && (ns1[next].next.Some? ==> ns1[next].next.value < |ns1|)
  {
    hide Seg, Ids, Unique, Parsed, FinalizeFirst, Size;
    var r, next := FinalizeFirst(k, rest, vis), rest[0].id;
    FinalizeFirstIds(k, rest, vis);
    FinalizeFirstKeeps(k, rest, vis);
    SizeSplit(r);
    IdsTail(r);
    OpenParts(node, Ids(kids), Ids(rest), Ids(ts));
    LinkedFirst(ns, ns[cur].next, rest, par);
    SegFirst(ns1, Some(next), r[0], r[1..], par, None);
    LinkedFirst(ns1, ns1[next].next, r[1..], par);
    TakingLinks(ns, ns1, node, par, cur, kids, rest, r);
    TakingIds(node, kids, rest, r, ts);
    OutsideTwice(ns0, ns, ns1, Ids(rest), Ids(ts));
  }

  lemma TakingIds(node: nat, kids: seq<Tree>, rest: seq<Tree>, r: seq<Tree>, ts: seq<Tree>)
    requires multiset{node} + Ids(kids) + Ids(rest) <= Ids(ts) && r != [] && Ids(r) <= Ids(rest)
    ensures multiset{node} + Ids(kids + [r[0]]) + Ids(r[1..]) <= Ids(ts)
  {
    hide Ids;
    IdsTail(r);
    IdsConcat(kids, [r[0]]);
    LessIds(multiset{node} + Ids(kids), Ids([r[0]]), Ids(r[1..]), Ids(rest), Ids(ts));
    assert multiset{node} + (Ids(kids) + Ids([r[0]])) + Ids(r[1..])
        == (multiset{node} + Ids(kids) + Ids([r[0]])) + Ids(r[1..]);
  }

  lemma TakingLinks(ns: seq<MenuNode>, ns1: seq<MenuNode>, node: nat, par: Option<nat>,
                    cur: nat, kids: seq<Tree>, rest: seq<Tree>, r: seq<Tree>)
    requires rest != [] && r != [] && r[0].id == rest[0].id && rest[0].id < |ns1| && node < |ns| && cur < |ns|
    requires Linked(ns1, Some(rest[0].id), r, par) && Outside(ns, ns1, Ids(rest)) && Ids(r) <= Ids(rest)
    requires Seg(ns, ns[node].next, kids, Some(node), Some(rest[0].id)) && node !in Ids(rest)
    requires Unique(Ids(rest)) && forall x :: x in Ids(kids) ==> x !in Ids(rest)
    requires rest[0].id in Ids(rest)
    ensures var next := rest[0].id;
            var ns2 := ns1[next := ns1[next].(parent := Some(node))];
            && Seg(ns2, ns2[node].next, kids + [r[0]], Some(node), ns2[next].next)
            && Linked(ns2, ns2[next].next, r[1..], par)
            && ns2[node] == ns[node]
  {
    hide Seg, Ids, Unique;
    var next := rest[0].id;
    var ns2 := ns1[next := ns1[next].(parent := Some(node))];
    IdsTail(r);
    SubUnique(Ids(r), Ids(rest));
    UniqueFirst(r[0], r[1..]);
    SegFirst(ns1, Some(next), r[0], r[1..], par, None);
    SegFrame(ns, ns2, ns[node].next, kids, Some(node), Some(next));
    SegFrame(ns1, ns2, ns1[next].list, r[0].kids, Some(next), None);
    SegFrame(ns1, ns2, ns1[next].next, r[1..], par, None);
    SegOne(ns2, Some(next), r[0], Some(node), ns1[next].next);
    AppendSeg(ns2, ns[node].next, kids, r[0], Some(node), ns1[next].next);
  }

  /** The collected siblings are tilted up below the node. */
  lemma TakingDone(ns0: seq<MenuNode>, ns: seq<MenuNode>, node: nat, ts: seq<Tree>, par: Option<nat>,
                   cur: nat, kids: seq<Tree>, rest: seq<Tree>)
    requires Taking(ns0, ns, node, ts, par, cur, kids, rest)
    ensures node < |ns| && cur < |ns|
    ensures var ns1 := ns[node := ns[node].(list := ns[node].next)];
            var ns2 := ns1[node := ns1[node].(next := ns1[cur].next)];
            var ns3 := ns2[cur := ns2[cur].(next := None)];
            NodeOpen(ns0, if cur == node then ns else ns3, node, ts, par, kids, rest)
  {
    hide Seg, Ids, Unique;
    OpenParts(node, Ids(kids), Ids(rest), Ids(ts));
    if kids == [] {
      SegEmpty(ns, None, Some(node));
    } else {
      var init, last := kids[..|kids| - 1], kids[|kids| - 1];
      assert kids == init + [last];
      LastId(init, last);
      SegNewEnd(ns, ns[node].next, init, last, Some(node), ns[cur].next, None);
      var ns' := ns[cur := ns[cur].(next := None)];
      var ns1 := ns[node := ns[node].(list := ns[node].next)];
      var ns2 := ns1[node := ns1[node].(next := ns1[cur].next)];
      var ns3 := ns2[cur := ns2[cur].(next := None)];
      SegFrame(ns', ns3, ns[node].next, kids, Some(node), None);
      SegFrame(ns, ns3, ns[cur].next, rest, par, None);
    }
  }

  // ---------- The whole tree ----------

  lemma {:induction false} CleanNoIfs(ts: seq<Tree>)
    requires Clean(ts)
    ensures NoIfs(Preorder(ts)) == Preorder(ts)
    decreases Size(ts)
  {
    if ts != [] {
      var t, rest := ts[0], ts[1..];
      assert forall i :: 0 <= i < |rest| ==> rest[i] == ts[i + 1];
      CleanNoIfs(t.kids);
      CleanNoIfs(rest);
      var e := [Entry(t.id, t.item, t.props)];
      NoIfsConcat(e + Preorder(t.kids), Preorder(rest));
      NoIfsConcat(e, Preorder(t.kids));
      assert NoIfs(e) == e by { assert e[1..] == []; }
    }
  }

  lemma WholeTree(k: Consts, root: Tree, final: Tree)
    requires Parsed([root]) && root.item.MenuItem? && root.props.prompt.Some?
    requires final == FinalizeFirst(k, [root], SymE(k.y))[0]
    ensures FinalizeFirst(k, [root], SymE(k.y)) == [final] && IdSeq([]) == []
    ensures Clean([final]) && Preorder([final]) == NoIfs(Listing(k, [root], SymE(k.y)))
  {
    var r := FinalizeFirst(k, [root], SymE(k.y));
    FinalizeFirstKeeps(k, [root], SymE(k.y));
    hide FinalizeAll, Propagate, NoIfs, Preorder;
    assert [root][1..] == [];
    assert r == [final] && r[..1] == [final] && r[1..] == [];
    assert NoIfs(Listing(k, [], SymE(k.y))) == [] by { NoEntries(k, SymE(k.y)); }
    hide FinalizeFirst, Listing;
    CleanNoIfs([final]);
  }

  lemma NoEntries(k: Consts, vis: Expr)
    ensures NoIfs(Listing(k, [], vis)) == []
  {
  }

  /** The definition order lists every node as often as it occurs. */
  lemma {:induction false} IdSeqIds(ts: seq<Tree>)
    ensures multiset(IdSeq(ts)) == Ids(ts)
    decreases Size(ts)
  {
    if ts != [] {
      IdSeqIds(ts[0].kids);
      IdSeqIds(ts[1..]);
    }
  }

  // ---------- The walk ----------

  /** The following siblings of a node, and those of its ancestors, which are given with their
      nodes. The topmost node has neither parent nor siblings. */
  ghost predicate Ctx(ns: seq<MenuNode>, node: nat, rest: seq<Tree>, up: seq<(nat, seq<Tree>)>)
    decreases |up|
  {
    && node < |ns| && Linked(ns, ns[node].next, rest, ns[node].parent)
    && if up == [] then ns[node].parent == None && rest == []
       else ns[node].parent == Some(up[0].0) && Ctx(ns, up[0].0, up[0].1, up[1..])
  }

  ghost predicate At(ns: seq<MenuNode>, node: nat, kids: seq<Tree>, rest: seq<Tree>, up: seq<(nat, seq<Tree>)>) {
    Ctx(ns, node, rest, up) && Linked(ns, ns[node].list, kids, Some(node))
  }

  /** The nodes after the subtree of the current one. */
  function Pending(rest: seq<Tree>, up: seq<(nat, seq<Tree>)>): seq<nat>
    decreases |up|
  {
    IdSeq(rest) + if up == [] then [] else Pending(up[0].1, up[1..])
  }

  lemma WalkStart(ns: seq<MenuNode>, top: nat, tree: Tree)
    requires Linked(ns, Some(top), [tree], None)
    ensures At(ns, top, tree.kids, [], []) && top < |ns|
    ensures [] + (IdSeq(tree.kids) + Pending([], [])) == IdSeq(tree.kids)
  {
    SegOne(ns, Some(top), tree, None, None);
    SegEmpty(ns, None, None);
  }

  lemma WalkNode(ns: seq<MenuNode>, node: nat, kids: seq<Tree>, rest: seq<Tree>, up: seq<(nat, seq<Tree>)>)
    requires At(ns, node, kids, rest, up) && node < |ns|
    ensures Ctx(ns, node, rest, up)
    ensures (ns[node].list.Some? <==> kids != []) && (ns[node].next.Some? <==> rest != [])
    ensures kids == [] ==> IdSeq(kids) + Pending(rest, up) == Pending(rest, up)
  {
    LinkedFirst(ns, ns[node].list, kids, Some(node));
    LinkedFirst(ns, ns[node].next, rest, ns[node].parent);
  }

  lemma EnterChild(ns: seq<MenuNode>, node: nat, kids: seq<Tree>, rest: seq<Tree>, up: seq<(nat, seq<Tree>)>)
    requires At(ns, node, kids, rest, up) && node < |ns| && kids != []
    ensures var c := kids[0];
            ns[node].list == Some(c.id) && c.id < |ns| && At(ns, c.id, c.kids, kids[1..], [(node, rest)] + up)
    ensures var c := kids[0];
            IdSeq(kids) + Pending(rest, up) == [c.id] + (IdSeq(c.kids) + Pending(kids[1..], [(node, rest)] + up))
  {
    ChildPending(node, kids, rest, up);
    hide Seg, IdSeq, Pending;
    var c, more := kids[0], [(node, rest)] + up;
    LinkedFirst(ns, ns[node].list, kids, Some(node));
    assert more[1..] == up && [c] + kids[1..] == kids;
    SegFirst(ns, Some(c.id), c, kids[1..], Some(node), None);
  }

  lemma ChildPending(node: nat, kids: seq<Tree>, rest: seq<Tree>, up: seq<(nat, seq<Tree>)>)
    requires kids != []
    ensures var c := kids[0];
            IdSeq(kids) + Pending(rest, up) == [c.id] + (IdSeq(c.kids) + Pending(kids[1..], [(node, rest)] + up))
  {
    hide IdSeq;
    var c, more := kids[0], [(node, rest)] + up;
    assert more[1..] == up && [c] + kids[1..] == kids;
    IdSeqFirst(c, kids[1..]);
    assert Pending(kids[1..], more) == IdSeq(kids[1..]) + Pending(rest, up);
    hide Pending;
  }

  lemma IdSeqFirst(t: Tree, rest: seq<Tree>)
    ensures IdSeq([t] + rest) == [t.id] + IdSeq(t.kids) + IdSeq(rest)
  {
    assert ([t] + rest)[1..] == rest;
  }

  lemma HasNext(ns: seq<MenuNode>, node: nat, rest: seq<Tree>, up: seq<(nat, seq<Tree>)>)
    requires Ctx(ns, node, rest, up)
    ensures ns[node].next.Some? <==> rest != []
  {
    LinkedFirst(ns, ns[node].next, rest, ns[node].parent);
  }

  lemma EnterNext(ns: seq<MenuNode>, node: nat, rest: seq<Tree>, up: seq<(nat, seq<Tree>)>)
    requires Ctx(ns, node, rest, up) && node < |ns| && rest != []
    ensures ns[node].next == Some(rest[0].id) && rest[0].id < |ns|
    ensures At(ns, rest[0].id, rest[0].kids, rest[1..], up)
    ensures Pending(rest, up) == [rest[0].id] + (IdSeq(rest[0].kids) + Pending(rest[1..], up))
  {
    NextPending(rest, up);
    hide Seg, IdSeq, Pending;
    LinkedFirst(ns, ns[node].next, rest, ns[node].parent);
    assert [rest[0]] + rest[1..] == rest;
    SegFirst(ns, ns[node].next, rest[0], rest[1..], ns[node].parent, None);
  }

  lemma NextPending(rest: seq<Tree>, up: seq<(nat, seq<Tree>)>)
    requires rest != []
    ensures Pending(rest, up) == [rest[0].id] + (IdSeq(rest[0].kids) + Pending(rest[1..], up))
  {
    hide IdSeq;
    assert [rest[0]] + rest[1..] == rest;
    IdSeqFirst(rest[0], rest[1..]);
  }

  lemma Climb(ns: seq<MenuNode>, node: nat, up: seq<(nat, seq<Tree>)>)
    requires Ctx(ns, node, [], up) && node < |ns| && ns[node].parent.Some?
    ensures up != [] && ns[node].parent == Some(up[0].0) && up[0].0 < |ns| && Ctx(ns, up[0].0, up[0].1, up[1..])
    ensures Pending([], up) == Pending(up[0].1, up[1..])
    ensures ns[up[0].0].next.Some? <==> up[0].1 != []
  {
    LinkedFirst(ns, ns[up[0].0].next, up[0].1, ns[up[0].0].parent);
  }

  lemma WalkEnd(ns: seq<MenuNode>, node: nat, rest: seq<Tree>, up: seq<(nat, seq<Tree>)>)
    requires Ctx(ns, node, rest, up) && node < |ns| && rest == [] && ns[node].parent == None
    ensures Pending(rest, up) == []
  {
  }
}
