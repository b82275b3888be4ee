/** The order of lines in a .config file: menu headings, '# end of' comments and symbols, as
    the stackless walk over the menu tree puts them out. */
module MenuOutput {
  import opened Types
  import opened MenuSpec
  import opened MenuTree
  import opened Semantics
  import opened Evaluation
  import opened Caching
  import opened Engine
  import opened ReadBack
  import opened FullConfig
  import opened ConfigIO

  /** A heading of a visible menu or comment (which tells whether the menu has children), the
      '# end of' comment of a visible menu, or the assignment of a symbol. */
  datatype Line = Heading(id: nat, opens: bool) | EndOf(id: nat) | Assignment(s: nat)

  /** What decides about lines: the top node, the items, whether menus and comments are visible,
      whether symbols have a value to write, the prompt texts, and the assignments. */
  datatype Page = Page(top: nat, items: nat -> Item, shown: nat -> bool, written: nat -> bool,
                       heading: nat -> string, assignment: nat -> string)

  /** Visiting a node, with or without children, and leaving a node that has children. */
  datatype Event = Visit(id: nat, hasKids: bool) | Leave(id: nat)

  /** The lines so far and the symbols that were visited. */
  datatype Output = Output(lines: seq<Line>, seen: set<nat>)

  function Emit(p: Page, o: Output, e: Event): Output {
    match e
    case Visit(id, hasKids) =>
      (match p.items(id)
       case SymItem(s) =>
         if s in o.seen then o
         else Output(o.lines + if p.written(s) then [Assignment(s)] else [], o.seen + {s})
       case MenuItem => if p.shown(id) then o.(lines := o.lines + [Heading(id, hasKids)]) else o
       case CommentItem => if p.shown(id) then o.(lines := o.lines + [Heading(id, false)]) else o
       case _ => o)
    case Leave(id) =>
      if p.items(id).MenuItem? && p.shown(id) && id != p.top then o.(lines := o.lines + [EndOf(id)]) else o
  }

  function EmitAll(p: Page, o: Output, es: seq<Event>): Output
    decreases |es|
  {
    if es == [] then o else EmitAll(p, Emit(p, o, es[0]), es[1..])
  }

  /** The events of a list of trees by plain recursion. */
  function Events(ts: seq<Tree>): seq<Event> {
    if ts == [] then []
    else
      [Visit(ts[0].id, ts[0].kids != [])]
      + (if ts[0].kids != [] then Events(ts[0].kids) + [Leave(ts[0].id)] else [])
      + Events(ts[1..])
  }

  lemma {:induction false} EmitConcat(p: Page, o: Output, a: seq<Event>, b: seq<Event>)
    ensures EmitAll(p, o, a + b) == EmitAll(p, EmitAll(p, o, a), b)
    decreases a
  {
    hide Emit;
    if a == [] {
      assert a + b == b;
    } else {
      assert (a + b)[1..] == a[1..] + b;
      EmitConcat(p, Emit(p, o, a[0]), a[1..], b);
    }
  }

  // ---------- The walk ----------

  /** The events after the subtree of the current node: those of its following siblings, then
      leaving the parent, and so on upwards. */
  function Pending(rest: seq<Tree>, up: seq<(nat, seq<Tree>)>): seq<Event>
    decreases |up|
  {
    Events(rest) + if up == [] then [] else [Leave(up[0].0)] + Pending(up[0].1, up[1..])
  }

  lemma EventsFirst(t: Tree, rest: seq<Tree>)
    ensures Events([t] + rest) ==
            [Visit(t.id, t.kids != [])] + (if t.kids != [] then Events(t.kids) + [Leave(t.id)] else []) + Events(rest)
  {
    assert ([t] + rest)[1..] == rest;
  }

  /** The events from inside a node with children on. */
  function Inside(node: nat, kids: seq<Tree>, rest: seq<Tree>, up: seq<(nat, seq<Tree>)>): seq<Event> {
    (if kids != [] then Events(kids) + [Leave(node)] else []) + Pending(rest, up)
  }

  lemma IntoChild(node: nat, kids: seq<Tree>, rest: seq<Tree>, up: seq<(nat, seq<Tree>)>)
    requires kids != []
    ensures var c := kids[0];
            Inside(node, kids, rest, up) ==
            [Visit(c.id, c.kids != [])] + Inside(c.id, c.kids, kids[1..], [(node, rest)] + up)
  {
    hide Events;
    var c, more := kids[0], [(node, rest)] + up;
    assert more[1..] == up && [c] + kids[1..] == kids;
    EventsFirst(c, kids[1..]);
    assert Pending(kids[1..], more) == Events(kids[1..]) + ([Leave(node)] + Pending(rest, up));
  }

  lemma IntoNext(rest: seq<Tree>, up: seq<(nat, seq<Tree>)>)
    requires rest != []
    ensures var c := rest[0];
            Pending(rest, up) == [Visit(c.id, c.kids != [])] + Inside(c.id, c.kids, rest[1..], up)
  {
    hide Events;
    assert [rest[0]] + rest[1..] == rest;
    EventsFirst(rest[0], rest[1..]);
  }

  lemma Upwards(up: seq<(nat, seq<Tree>)>)
    requires up != []
    ensures Pending([], up) == [Leave(up[0].0)] + Pending(up[0].1, up[1..])
  {
  }

  lemma EmitNext(p: Page, o: Output, e: Event, es: seq<Event>)
    ensures EmitAll(p, o, [e] + es) == EmitAll(p, Emit(p, o, e), es)
  {
    hide Emit;
    assert ([e] + es)[1..] == es;
  }

  /** The whole tree below the top, with leaving the top at the end. */
  function TreeEvents(tree: Tree): seq<Event> {
    if tree.kids != [] then Events(tree.kids) + [Leave(tree.id)] else []
  }

  lemma TopEvents(top: nat, tree: Tree, nodes: seq<MenuNode>)
    requires Linked(nodes, Some(top), [tree], None)
    ensures Inside(top, tree.kids, [], []) == TreeEvents(tree)
  {
  }

  lemma NoKids(node: nat, rest: seq<Tree>, up: seq<(nat, seq<Tree>)>)
    ensures Inside(node, [], rest, up) == Pending(rest, up)
  {
  }

  /** Nothing is left when the topmost node is reached. */
  lemma WalkOver(ns: seq<MenuNode>, p: Page, o: Output, node: nat, rest: seq<Tree>, up: seq<(nat, seq<Tree>)>)
    requires Ctx(ns, node, rest, up) && node < |ns| && rest == [] && ns[node].parent == None
    ensures EmitAll(p, o, Pending(rest, up)) == o
  {
  }

  // ---------- The walk on the objects ----------

  /** A menu is visible if its dependencies and its 'visible if' conditions are met, a comment if
      its dependencies are. */
  ghost predicate Shown(cfg: Config, u: User, node: MenuNode)
    requires Acyclic(cfg)
  {
    && ExprVal(cfg, u, node.props.dep, EnvOf(cfg, u)) != 0
    && (node.item.MenuItem? ==> ExprVal(cfg, u, node.props.visibility, EnvOf(cfg, u)) != 0)
  }

  /** The page of a menu tree in a user state. The prompt texts are given by node. */
  ghost function PageOf(cfg: Config, u: User, ns: seq<MenuNode>, prompts: seq<string>, top: nat): Page
    requires Acyclic(cfg)
  {
    Page(top,
         (id: nat) => if id < |ns| then ns[id].item else IfItem,
         (id: nat) => id < |ns| && Shown(cfg, u, ns[id]),
         s => s in Written(cfg, u),
         (id: nat) => if id < |prompts| then prompts[id] else "",
         (s: nat) => ConfigString(cfg.Sym(s), Eval(cfg, u, StrV(s)).s))
  }

  // ---------- The text of the lines ----------

  function LineText(p: Page, l: Line): seq<string> {
    match l
    case Heading(id, _) => ["", "#", HeadingText(p.heading(id)), "#"]
    case EndOf(id) => ["# end of " + p.heading(id)]
    case Assignment(s) => [p.assignment(s)]
  }

  function HeadingText(prompt: string): string {
    "# " + prompt
  }

  predicate AfterEnd(lines: seq<Line>) {
    lines != [] && lines[|lines| - 1].EndOf?
  }

  /** The text of the lines in order, with a blank line between an '# end of' comment and a
      symbol. */
  function Text(p: Page, lines: seq<Line>): seq<string> {
    if lines == [] then []
    else
      var before, l := lines[..|lines| - 1], lines[|lines| - 1];
      Text(p, before) + (if AfterEnd(before) && l.Assignment? then [""] else []) + LineText(p, l)
  }

  lemma TextNext(p: Page, lines: seq<Line>, l: Line)
    ensures Text(p, lines + [l]) ==
            Text(p, lines) + (if AfterEnd(lines) && l.Assignment? then [""] else []) + LineText(p, l)
    ensures AfterEnd(lines + [l]) == l.EndOf?
  {
    assert (lines + [l])[..|lines|] == lines;
  }

  /** What the walk has produced: the text, the symbols that were visited, and whether the text
      ends in an '# end of' comment. */
  datatype Writer = Writer(chunks: seq<string>, seen: set<nat>, afterEnd: bool)

  ghost predicate Writes(p: Page, w: Writer, o: Output) {
    w == Writer(Text(p, o.lines), o.seen, AfterEnd(o.lines))
  }

  /** The nodes belong to the configuration. */
  ghost predicate NodesOK(cfg: Config, ns: seq<MenuNode>) {
    forall id :: 0 <= id < |ns| ==> NodeOK(cfg, ns[id])
  }

  ghost predicate NodeOK(cfg: Config, node: MenuNode) {
    && (node.item.SymItem? ==> node.item.s < |cfg.syms| && cfg.syms[node.item.s].defined)
    && (forall x :: x in ExprItems(node.props.dep) ==> ItemInRange(cfg, x))
    && (forall x :: x in ExprItems(node.props.visibility) ==> ItemInRange(cfg, x))
  }

  lemma NodeAt(cfg: Config, ns: seq<MenuNode>, id: nat)
    requires NodesOK(cfg, ns) && id < |ns|
    ensures NodeOK(cfg, ns[id])
  {
  }

  method IsShown(k: Kconfig, node: MenuNode) returns (shown: bool)
    requires k.Valid() && NodeOK(k.cfg, node)
    modifies k`cache, k.syms, k.choices
    ensures k.Valid() && Acyclic(k.cfg) && shown == Shown(k.cfg, k.user, node)
  {
    hide k.Valid, k.Below, ExprVal, Eval;
    k.Basics();
    BoundedExpr(k, node.props.dep);
    var v := k.ExprValue(node.props.dep, RankBound(k.cfg, node.props.dep));
    if v == 0 {
      return false;
    }
    if node.item.MenuItem? {
      BoundedExpr(k, node.props.visibility);
      v := k.ExprValue(node.props.visibility, RankBound(k.cfg, node.props.visibility));
    }
    shown := v != 0;
  }

  /** The output for a node that is visited. */
  method VisitNode(k: Kconfig, ns: seq<MenuNode>, prompts: seq<string>, ghost top: nat, w: Writer, id: nat,
                   hasKids: bool, ghost o: Output)
    returns (w': Writer, ghost o': Output)
    requires k.Valid() && id < |ns| == |prompts| && NodeOK(k.cfg, ns[id])
    requires Acyclic(k.cfg) && Writes(PageOf(k.cfg, k.user, ns, prompts, top), w, o)
    modifies k`cache, k.syms, k.choices
    ensures k.Valid() && Acyclic(k.cfg) && Writes(PageOf(k.cfg, k.user, ns, prompts, top), w', o')
    ensures o' == Emit(PageOf(k.cfg, k.user, ns, prompts, top), o, Visit(id, hasKids))
  {
    hide k.Valid, Shown, Eval, ConfigString, Text, AfterEnd;
    ghost var p := PageOf(k.cfg, k.user, ns, prompts, top);
    w', o' := w, Emit(p, o, Visit(id, hasKids));
    match ns[id].item {
      case SymItem(s) =>
        if s !in w.seen {
          w' := AddSymbol(k, ns, prompts, top, w, s, o);
        }
      case MenuItem =>
        w' := AddHeading(k, ns, prompts, top, w, id, hasKids, o);
      case CommentItem =>
        w' := AddHeading(k, ns, prompts, top, w, id, false, o);
      case _ =>
    }
  }

  method AddSymbol(k: Kconfig, ns: seq<MenuNode>, prompts: seq<string>, ghost top: nat, w: Writer, s: nat, ghost o: Output)
    returns (w': Writer)
    requires k.Valid() && s < |k.cfg.syms| && k.cfg.syms[s].defined
    requires Acyclic(k.cfg) && Writes(PageOf(k.cfg, k.user, ns, prompts, top), w, o)
    modifies k`cache, k.syms, k.choices
    ensures k.Valid() && Acyclic(k.cfg)
    ensures var p := PageOf(k.cfg, k.user, ns, prompts, top);
            Writes(p, w', Output(o.lines + if p.written(s) then [Assignment(s)] else [], o.seen + {s}))
  {
    hide k.Valid, Shown, Eval, ConfigString, Text, AfterEnd;
    ghost var p := PageOf(k.cfg, k.user, ns, prompts, top);
    var val, write := k.WrittenValue(s);
    assert write == p.written(s) && ConfigString(k.cfg.syms[s], val) == p.assignment(s);
    w' := w.(seen := w.seen + {s});
    if write {
      TextNext(p, o.lines, Assignment(s));
      w' := Writer(w.chunks + (if w.afterEnd then [""] else []) + [ConfigString(k.cfg.syms[s], val)], w'.seen, false);
    } else {
      assert o.lines + [] == o.lines;
    }
  }

  method AddHeading(k: Kconfig, ns: seq<MenuNode>, prompts: seq<string>, ghost top: nat, w: Writer, id: nat,
                    ghost opens: bool, ghost o: Output)
    returns (w': Writer)
    requires k.Valid() && id < |ns| == |prompts| && NodeOK(k.cfg, ns[id])
    requires Acyclic(k.cfg) && Writes(PageOf(k.cfg, k.user, ns, prompts, top), w, o)
    modifies k`cache, k.syms, k.choices
    ensures k.Valid() && Acyclic(k.cfg)
    ensures Writes(PageOf(k.cfg, k.user, ns, prompts, top), w',
                   if Shown(k.cfg, k.user, ns[id]) then o.(lines := o.lines + [Heading(id, opens)]) else o)
  {
    hide k.Valid, Shown, Eval, ConfigString, Text, AfterEnd;
    var shown := IsShown(k, ns[id]);
    w' := w;
    if shown {
      TextNext(PageOf(k.cfg, k.user, ns, prompts, top), o.lines, Heading(id, opens));
      w' := Writer(w.chunks + ["", "#", HeadingText(prompts[id]), "#"], w.seen, false);
    }
  }

  /** The output for a node that is left. */
  method LeaveNode(k: Kconfig, ns: seq<MenuNode>, prompts: seq<string>, top: nat, w: Writer, id: nat, ghost o: Output)
    returns (w': Writer, ghost o': Output)
    requires k.Valid() && id < |ns| == |prompts| && NodeOK(k.cfg, ns[id])
    requires Acyclic(k.cfg) && Writes(PageOf(k.cfg, k.user, ns, prompts, top), w, o)
    modifies k`cache, k.syms, k.choices
    ensures k.Valid() && Acyclic(k.cfg) && Writes(PageOf(k.cfg, k.user, ns, prompts, top), w', o')
    ensures o' == Emit(PageOf(k.cfg, k.user, ns, prompts, top), o, Leave(id))
  {
    hide k.Valid, Shown, Eval, ConfigString, Text, AfterEnd;
    ghost var p := PageOf(k.cfg, k.user, ns, prompts, top);
    w', o' := w, Emit(p, o, Leave(id));
    if ns[id].item.MenuItem? {
      var shown := IsShown(k, ns[id]);
      if shown && id != top {
        TextNext(p, o.lines, EndOf(id));
        w' := Writer(w.chunks + ["# end of " + prompts[id]], w.seen, true);
      }
    }
  }

  /** The way up from a node without following siblings, to the next ancestor that has one or to
      the topmost node. */
  method ClimbOut(k: Kconfig, nodes: seq<MenuNode>, prompts: seq<string>, top: nat, w0: Writer, start: nat,
                  ghost o0: Output, ghost up0: seq<(nat, seq<Tree>)>)
    returns (node: nat, w: Writer, ghost o: Output, ghost rest: seq<Tree>, ghost up: seq<(nat, seq<Tree>)>)
    requires k.Valid() && NodesOK(k.cfg, nodes) && start < |nodes| == |prompts| && Ctx(nodes, start, [], up0)
    requires Acyclic(k.cfg) && Writes(PageOf(k.cfg, k.user, nodes, prompts, top), w0, o0)
    modifies k`cache, k.syms, k.choices
    ensures k.Valid() && Acyclic(k.cfg) && node < |nodes| && Ctx(nodes, node, rest, up)
    ensures Writes(PageOf(k.cfg, k.user, nodes, prompts, top), w, o)
    ensures rest == [] ==> nodes[node].parent == None
    ensures var p := PageOf(k.cfg, k.user, nodes, prompts, top);
            EmitAll(p, o, Pending(rest, up)) == EmitAll(p, o0, Pending([], up0))
    ensures |Pending(rest, up)| <= |Pending([], up0)|
  {
    hide k.Valid, Seg, Linked, Ctx, Events, Pending, Emit, EmitAll, PageOf, NodesOK, Acyclic, Writes;
    node, w, o, rest, up := start, w0, o0, [], up0;
    ghost var p := PageOf(k.cfg, k.user, nodes, prompts, top);
    while nodes[node].parent.Some?
      invariant k.Valid() && Ctx(nodes, node, rest, up) && node < |nodes| && rest == [] && Writes(p, w, o)
      invariant EmitAll(p, o, Pending(rest, up)) == EmitAll(p, o0, Pending([], up0))
      invariant |Pending(rest, up)| <= |Pending([], up0)|
      decreases |up|
    {
      Climb(nodes, node, up);
      Upwards(up);
      EmitNext(p, o, Leave(up[0].0), Pending(up[0].1, up[1..]));
      node := nodes[node].parent.value;
      NodeAt(k.cfg, nodes, node);
      w, o := LeaveNode(k, nodes, prompts, top, w, node, o);
      rest, up := up[0].1, up[1..];
      if nodes[node].next.Some? {
        break;
      }
    }
  }

  /** The jump to the next node, if there is one. */
  method Advance(k: Kconfig, nodes: seq<MenuNode>, prompts: seq<string>, top: nat, w0: Writer, start: nat,
                 ghost o0: Output, ghost kids0: seq<Tree>, ghost rest0: seq<Tree>, ghost up0: seq<(nat, seq<Tree>)>)
    returns (found: bool, node: nat, w: Writer, ghost o: Output,
             ghost kids: seq<Tree>, ghost rest: seq<Tree>, ghost up: seq<(nat, seq<Tree>)>)
    requires k.Valid() && NodesOK(k.cfg, nodes) && start < |nodes| == |prompts| && At(nodes, start, kids0, rest0, up0)
    requires Acyclic(k.cfg) && Writes(PageOf(k.cfg, k.user, nodes, prompts, top), w0, o0)
    modifies k`cache, k.syms, k.choices
    ensures k.Valid() && Acyclic(k.cfg) && Writes(PageOf(k.cfg, k.user, nodes, prompts, top), w, o)
    ensures var p := PageOf(k.cfg, k.user, nodes, prompts, top);
            var es := Inside(start, kids0, rest0, up0);
            if found then
              && node < |nodes| && At(nodes, node, kids, rest, up) && |Inside(node, kids, rest, up)| < |es|
              && EmitAll(p, o, [Visit(node, kids != [])] + Inside(node, kids, rest, up)) == EmitAll(p, o0, es)
            else EmitAll(p, o0, es) == o
  {
    hide k.Valid, Seg, Linked, At, Ctx, Events, Pending, Emit, EmitAll, Inside, PageOf, NodesOK, Acyclic, Writes;
    found, node, w, o, kids, rest, up := true, start, w0, o0, kids0, rest0, up0;
    ghost var p := PageOf(k.cfg, k.user, nodes, prompts, top);
    WalkNode(nodes, node, kids, rest, up);
    if nodes[node].list.Some? {
      EnterChild(nodes, node, kids, rest, up);
      IntoChild(node, kids, rest, up);
      kids, rest, up := kids[0].kids, kids[1..], [(node, rest)] + up;
      node := nodes[node].list.value;
      return;
    }
    NoKids(node, rest, up);
    if nodes[node].next == None {
      node, w, o, rest, up := ClimbOut(k, nodes, prompts, top, w, node, o, up);
      HasNext(nodes, node, rest, up);
      if nodes[node].next == None {
        WalkOver(nodes, p, o, node, rest, up);
        found := false;
        return;
      }
    }
    EnterNext(nodes, node, rest, up);
    IntoNext(rest, up);
    kids, rest := rest[0].kids, rest[1..];
    node := nodes[node].next.value;
  }

  /** What the walk of Kconfig._config_contents() puts out after the header, on the objects and
      whatever was cached before: exactly the lines of the recursive description. */
  method ConfigContents(k: Kconfig, m: Menu, prompts: seq<string>, top: nat, ghost tree: Tree) returns (text: seq<string>)
    requires k.Valid() && Linked(m.nodes, Some(top), [tree], None) && NodesOK(k.cfg, m.nodes)
    requires |prompts| == |m.nodes|
    modifies k`cache, k.syms, k.choices
    ensures k.Valid() && Acyclic(k.cfg)
    ensures var p := PageOf(k.cfg, k.user, m.nodes, prompts, top);
            text == Text(p, EmitAll(p, Output([], {}), TreeEvents(tree)).lines)
  {
    hide k.Valid, Seg, Linked, At, Ctx, Events, Pending, Emit, EmitAll, Inside, PageOf, NodesOK, Acyclic, TreeEvents, Text;
    k.Basics();
    var nodes := m.nodes;
    ghost var p := PageOf(k.cfg, k.user, nodes, prompts, top);
    var node: nat, w := top, Writer([], {}, false);
    ghost var o := Output([], {});
    NothingWritten(p);
    ghost var all := EmitAll(p, o, TreeEvents(tree));
    ghost var kids, rest := tree.kids, [];
    ghost var up: seq<(nat, seq<Tree>)> := [];
    WalkStart(nodes, top, tree);
    TopEvents(top, tree, nodes);
    hide Writes;
    while true
      invariant k.Valid() && At(nodes, node, kids, rest, up) && node < |nodes| && Writes(p, w, o)
      invariant EmitAll(p, o, Inside(node, kids, rest, up)) == all
      decreases |Inside(node, kids, rest, up)|
    {
      var found;
      found, node, w, o, kids, rest, up := Advance(k, nodes, prompts, top, w, node, o, kids, rest, up);
      if !found {
        WrittenText(p, w, o);
        return w.chunks;
      }
      EmitNext(p, o, Visit(node, kids != []), Inside(node, kids, rest, up));
      WalkNode(nodes, node, kids, rest, up);
      NodeAt(k.cfg, nodes, node);
      w, o := VisitNode(k, nodes, prompts, top, w, node, nodes[node].list.Some?, o);
    }
  }

  lemma NothingWritten(p: Page)
    ensures Writes(p, Writer([], {}, false), Output([], {}))
  {
  }

  lemma WrittenText(p: Page, w: Writer, o: Output)
    requires Writes(p, w, o)
    ensures w.chunks == Text(p, o.lines)
  {
  }

  // ---------- What the lines look like ----------

  /** The menus that are open after the lines, None if an '# end of' does not match the
      innermost open menu. */
  function Open(lines: seq<Line>, stack: seq<nat>): Option<seq<nat>>
    decreases |lines|
  {
    if lines == [] then Some(stack)
    else
      match lines[0]
      case Heading(id, opens) => Open(lines[1..], if opens then [id] + stack else stack)
      case EndOf(id) => if stack != [] && stack[0] == id then Open(lines[1..], stack[1..]) else None
      case Assignment(_) => Open(lines[1..], stack)
  }

  lemma {:induction false} OpenConcat(a: seq<Line>, b: seq<Line>, stack: seq<nat>)
    ensures Open(a + b, stack) ==
            match Open(a, stack)
            case None => None
            case Some(stack') => Open(b, stack')
    decreases |a|
  {
    if a == [] {
      assert a + b == b;
    } else {
      assert (a + b)[1..] == a[1..] + b;
      match a[0]
      case Heading(id, opens) => OpenConcat(a[1..], b, if opens then [id] + stack else stack);
      case EndOf(id) =>
        if stack != [] && stack[0] == id {
          OpenConcat(a[1..], b, stack[1..]);
        }
      case Assignment(_) => OpenConcat(a[1..], b, stack);
    }
  }

  /** The lines that are added for the events leave the open menus as they were. */
  ghost predicate Balanced(p: Page, o: Output, es: seq<Event>) {
    var o' := EmitAll(p, o, es);
    && |o.lines| <= |o'.lines| && o'.lines[..|o.lines|] == o.lines
    && forall stack :: Open(o'.lines[|o.lines|..], stack) == Some(stack)
  }

  /** No symbol line occurs twice, and those that occur were seen. */
  ghost predicate Once(o: Output) {
    && (forall i :: 0 <= i < |o.lines| && o.lines[i].Assignment? ==> o.lines[i].s in o.seen)
    && (forall i, j :: 0 <= i < j < |o.lines| && o.lines[i].Assignment? ==> o.lines[i] != o.lines[j])
  }

  lemma {:induction false} EmitOnce(p: Page, o: Output, es: seq<Event>)
    requires Once(o)
    ensures Once(EmitAll(p, o, es))
    decreases |es|
  {
    if es != [] {
      EmitOnceStep(p, o, es[0]);
      EmitOnce(p, Emit(p, o, es[0]), es[1..]);
    }
  }

  lemma EmitOnceStep(p: Page, o: Output, e: Event)
    requires Once(o)
    ensures Once(Emit(p, o, e))
  {
  }

  lemma BalancedJoin(p: Page, o: Output, a: seq<Event>, b: seq<Event>)
    requires Balanced(p, o, a) && Balanced(p, EmitAll(p, o, a), b)
    ensures Balanced(p, o, a + b)
  {
    hide EmitAll, Open;
    EmitConcat(p, o, a, b);
    var o1, o2 := EmitAll(p, o, a), EmitAll(p, o, a + b);
    assert o2.lines[|o.lines|..] == o1.lines[|o.lines|..] + o2.lines[|o1.lines|..];
    forall stack
      ensures Open(o2.lines[|o.lines|..], stack) == Some(stack)
    {
      OpenConcat(o1.lines[|o.lines|..], o2.lines[|o1.lines|..], stack);
    }
  }

  /** A node that opens no menu adds lines that leave the open menus alone. */
  lemma BalancedOne(p: Page, o: Output, e: Event)
    requires e.Visit? ==> !e.hasKids || !p.items(e.id).MenuItem? || !p.shown(e.id)
    requires e.Leave? ==> !p.items(e.id).MenuItem? || !p.shown(e.id) || e.id == p.top
    ensures Balanced(p, o, [e])
  {
    var o' := EmitAll(p, o, [e]);
    EmitLast(p, o, e);
    var added := o'.lines[|o.lines|..];
    assert |added| <= 1;
    forall stack
      ensures Open(added, stack) == Some(stack)
    {
      if |added| == 1 {
        assert added[1..] == [];
        assert Open([], stack) == Some(stack);
      }
    }
  }

  /** The heading, the contents and the end of a visible menu. */
  lemma BalancedMenu(p: Page, o: Output, id: nat, es: seq<Event>)
    requires p.items(id).MenuItem? && p.shown(id) && id != p.top
    requires Balanced(p, Emit(p, o, Visit(id, true)), es)
    ensures Balanced(p, o, [Visit(id, true)] + es + [Leave(id)])
  {
    hide EmitAll, Open;
    var all := [Visit(id, true)] + es + [Leave(id)];
    var o1 := Emit(p, o, Visit(id, true));
    var o2 := EmitAll(p, o1, es);
    EmitNext(p, o, Visit(id, true), es + [Leave(id)]);
    assert all == [Visit(id, true)] + (es + [Leave(id)]);
    EmitConcat(p, o1, es, [Leave(id)]);
    EmitLast(p, o2, Leave(id));
    var o3 := EmitAll(p, o, all);
    var inner := o2.lines[|o1.lines|..];
    assert o3.lines[|o.lines|..] == [Heading(id, true)] + inner + [EndOf(id)];
    forall stack
      ensures Open(o3.lines[|o.lines|..], stack) == Some(stack)
    {
      OpenConcat([Heading(id, true)] + inner, [EndOf(id)], stack);
      OpenConcat([Heading(id, true)], inner, stack);
      OpenPair(id, stack);
    }
  }

  lemma EmitLast(p: Page, o: Output, e: Event)
    ensures EmitAll(p, o, [e]) == Emit(p, o, e)
  {
    assert [e][1..] == [];
    assert EmitAll(p, Emit(p, o, e), []) == Emit(p, o, e);
  }

  lemma OpenPair(id: nat, stack: seq<nat>)
    ensures Open([Heading(id, true)], stack) == Some([id] + stack)
    ensures Open([EndOf(id)], [id] + stack) == Some(stack)
  {
    assert [Heading(id, true)][1..] == [] && [EndOf(id)][1..] == [] && ([id] + stack)[1..] == stack;
    assert Open([], [id] + stack) == Some([id] + stack) && Open([], stack) == Some(stack);
  }

  /** All nodes of the trees are different from the top. */
  predicate Below(top: nat, ts: seq<Tree>) {
    forall i :: 0 <= i < |ts| ==> ts[i].id != top && Below(top, ts[i].kids)
  }

  lemma {:induction false} EventsBalanced(p: Page, o: Output, ts: seq<Tree>)
    requires Below(p.top, ts)
    ensures Balanced(p, o, Events(ts))
    decreases Size(ts), 0
  {
    hide Emit, EmitAll, Balanced;
    if ts == [] {
      NoEvents(p, o);
    } else {
      var t, rest := ts[0], ts[1..];
      assert forall i :: 0 <= i < |rest| ==> rest[i] == ts[i + 1];
      NodeBalanced(p, o, t);
      var first := [Visit(t.id, t.kids != [])] + if t.kids != [] then Events(t.kids) + [Leave(t.id)] else [];
      EventsBalanced(p, EmitAll(p, o, first), rest);
      BalancedJoin(p, o, first, Events(rest));
    }
  }

  lemma NoEvents(p: Page, o: Output)
    ensures Balanced(p, o, [])
  {
    assert o.lines[|o.lines|..] == [];
  }

  lemma {:induction false} NodeBalanced(p: Page, o: Output, t: Tree)
    requires t.id != p.top && Below(p.top, t.kids)
    ensures Balanced(p, o, [Visit(t.id, t.kids != [])] + if t.kids != [] then Events(t.kids) + [Leave(t.id)] else [])
    decreases Size(t.kids), 1
  {
    hide Emit, EmitAll, Balanced, Events;
    var v, l := Visit(t.id, t.kids != []), Leave(t.id);
    if t.kids == [] {
      BalancedOne(p, o, v);
      assert [v] + [] == [v];
    } else if p.items(t.id).MenuItem? && p.shown(t.id) {
      EventsBalanced(p, Emit(p, o, v), t.kids);
      BalancedMenu(p, o, t.id, Events(t.kids));
      assert [v] + (Events(t.kids) + [l]) == [v] + Events(t.kids) + [l];
    } else {
      BalancedOne(p, o, v);
      EventsBalanced(p, EmitAll(p, o, [v]), t.kids);
      BalancedJoin(p, o, [v], Events(t.kids));
      BalancedOne(p, EmitAll(p, o, [v] + Events(t.kids)), l);
      BalancedJoin(p, o, [v] + Events(t.kids), [l]);
      assert [v] + (Events(t.kids) + [l]) == [v] + Events(t.kids) + [l];
    }
  }

  /** In the output for a whole tree, the headings and the '# end of' comments of visible menus
      with children are properly nested, and each symbol is put out at most once. */
  lemma ContentsNested(p: Page, tree: Tree)
    requires tree.id == p.top && Below(p.top, tree.kids)
    ensures var o := EmitAll(p, Output([], {}), TreeEvents(tree));
            && Open(o.lines, []) == Some([])
            && forall i, j :: 0 <= i < j < |o.lines| && o.lines[i].Assignment? ==> o.lines[i] != o.lines[j]
  {
    hide Emit, EmitAll, Events, Open;
    var o0 := Output([], {});
    var o := EmitAll(p, o0, TreeEvents(tree));
    EmitOnce(p, o0, TreeEvents(tree));
    if tree.kids != [] {
      EventsBalanced(p, o0, tree.kids);
      BalancedOne(p, EmitAll(p, o0, Events(tree.kids)), Leave(tree.id));
      BalancedJoin(p, o0, Events(tree.kids), [Leave(tree.id)]);
    } else {
      NoEvents(p, o0);
    }
    assert o.lines[0..] == o.lines;
  }

  // ---------- Which symbols are put out ----------

  /** The symbols of the visited nodes, one for each node. */
  function SymsOf(p: Page, es: seq<Event>): seq<nat> {
    if es == [] then []
    else
      (if es[0].Visit? && p.items(es[0].id).SymItem? then [p.items(es[0].id).s] else []) + SymsOf(p, es[1..])
  }

  /** The first occurrences, in order, of what was not seen before. */
  function FirstSyms(ss: seq<nat>, seen: set<nat>): seq<nat> {
    if ss == [] then []
    else if ss[0] in seen then FirstSyms(ss[1..], seen)
    else [ss[0]] + FirstSyms(ss[1..], seen + {ss[0]})
  }

  function Keep(written: nat -> bool, ss: seq<nat>): seq<nat> {
    if ss == [] then [] else (if written(ss[0]) then [ss[0]] else []) + Keep(written, ss[1..])
  }

  /** The symbols of the assignment lines. */
  function Assigned(lines: seq<Line>): seq<nat> {
    if lines == [] then []
    else (if lines[0].Assignment? then [lines[0].s] else []) + Assigned(lines[1..])
  }

  lemma {:induction false} AssignedConcat(a: seq<Line>, b: seq<Line>)
    ensures Assigned(a + b) == Assigned(a) + Assigned(b)
    decreases |a|
  {
    if a == [] {
      assert a + b == b;
    } else {
      var all := a + b;
      assert all[1..] == a[1..] + b && all[0] == a[0];
      AssignedConcat(a[1..], b);
      AssignedFirst(a);
      AssignedFirst(all);
      hide Assigned;
    }
  }

  lemma AssignedFirst(lines: seq<Line>)
    requires lines != []
    ensures Assigned(lines) == (if lines[0].Assignment? then [lines[0].s] else []) + Assigned(lines[1..])
  {
  }

  lemma AssignedOne(p: Page, o: Output, e: Event)
    ensures Assigned(Emit(p, o, e).lines) ==
            Assigned(o.lines) + Keep(p.written, FirstSyms(SymsOf(p, [e]), o.seen))
    ensures Emit(p, o, e).seen == o.seen + set s | s in SymsOf(p, [e])
  {
    assert [e][1..] == [];
    var o' := Emit(p, o, e);
    if o'.lines != o.lines {
      var l := o'.lines[|o.lines|];
      assert o'.lines == o.lines + [l] && [l][1..] == [];
      AssignedConcat(o.lines, [l]);
    }
    var ss := SymsOf(p, [e]);
    if ss != [] {
      assert ss[1..] == [];
    }
  }

  lemma {:induction false} FirstSymsConcat(a: seq<nat>, b: seq<nat>, seen: set<nat>)
    ensures FirstSyms(a + b, seen) == FirstSyms(a, seen) + FirstSyms(b, seen + set s | s in a)
    decreases |a|
  {
    if a == [] {
      assert a + b == b && seen + (set s | s in a) == seen;
    } else {
      var more := if a[0] in seen then seen else seen + {a[0]};
      assert (a + b)[1..] == a[1..] + b;
      FirstSymsConcat(a[1..], b, more);
      assert more + (set s | s in a[1..]) == seen + set s | s in a;
    }
  }

  lemma {:induction false} KeepConcat(written: nat -> bool, a: seq<nat>, b: seq<nat>)
    ensures Keep(written, a + b) == Keep(written, a) + Keep(written, b)
  {
    if a == [] {
      assert a + b == b;
    } else {
      assert (a + b)[1..] == a[1..] + b;
      KeepConcat(written, a[1..], b);
    }
  }

  /** The assignment lines are those of the visited symbols that are written, each at its first
      node, in definition order. */
  lemma {:induction false} AssignedSyms(p: Page, o: Output, es: seq<Event>)
    ensures Assigned(EmitAll(p, o, es).lines) ==
            Assigned(o.lines) + Keep(p.written, FirstSyms(SymsOf(p, es), o.seen))
    decreases |es|
  {
    hide Emit, Assigned, Keep;
    if es == [] {
      KeepNothing(p.written);
    } else {
      var e, rest, o1 := es[0], es[1..], Emit(p, o, es[0]);
      AssignedSyms(p, o1, rest);
      AssignedOne(p, o, e);
      SymsFirst(p, es);
      var now, later := SymsOf(p, [e]), SymsOf(p, rest);
      FirstSymsConcat(now, later, o.seen);
      KeepConcat(p.written, FirstSyms(now, o.seen), FirstSyms(later, o1.seen));
      hide SymsOf, FirstSyms;
    }
  }

  lemma KeepNothing(written: nat -> bool)
    ensures Keep(written, []) == []
  {
  }

  lemma SymsFirst(p: Page, es: seq<Event>)
    requires es != []
    ensures SymsOf(p, es) == SymsOf(p, [es[0]]) + SymsOf(p, es[1..])
  {
    assert [es[0]][1..] == [];
  }

  lemma {:induction false} FirstSymsOnce(ss: seq<nat>, seen: set<nat>)
    ensures forall s :: s in FirstSyms(ss, seen) <==> s in ss && s !in seen
    ensures forall i, j :: 0 <= i < j < |FirstSyms(ss, seen)| ==> FirstSyms(ss, seen)[i] != FirstSyms(ss, seen)[j]
    decreases |ss|
  {
    if ss != [] {
      FirstSymsOnce(ss[1..], if ss[0] in seen then seen else seen + {ss[0]});
      assert forall s :: s in ss <==> s == ss[0] || s in ss[1..];
    }
  }

  lemma {:induction false} KeepOnce(written: nat -> bool, ss: seq<nat>)
    requires forall i, j :: 0 <= i < j < |ss| ==> ss[i] != ss[j]
    ensures forall s :: multiset(Keep(written, ss))[s] == if s in ss && written(s) then 1 else 0
  {
    if ss == [] {
    } else {
      KeepOnce(written, ss[1..]);
      assert ss == [ss[0]] + ss[1..];
      assert ss[0] !in ss[1..];
      var rest := Keep(written, ss[1..]);
      forall s
        ensures multiset(Keep(written, ss))[s] == if s in ss && written(s) then 1 else 0
      {
        assert multiset([ss[0]] + rest) == multiset{ss[0]} + multiset(rest);
      }
    }
  }

  /** Every symbol of the tree that is to be written is put out exactly once, and no other. */
  lemma EachWrittenOnce(p: Page, tree: Tree)
    ensures var o, ss := EmitAll(p, Output([], {}), TreeEvents(tree)), SymsOf(p, TreeEvents(tree));
            forall s :: multiset(Assigned(o.lines))[s] == if s in ss && p.written(s) then 1 else 0
  {
    hide EmitAll, TreeEvents;
    var o0, es := Output([], {}), TreeEvents(tree);
    AssignedSyms(p, o0, es);
    FirstSymsOnce(SymsOf(p, es), {});
    KeepOnce(p.written, FirstSyms(SymsOf(p, es), {}));
    assert Assigned(EmitAll(p, o0, es).lines) == Keep(p.written, FirstSyms(SymsOf(p, es), {}));
  }

  // ---------- The same lines as by symbol ----------

  /** The defined symbols before the n-th, in the order of unique_defined_syms. */
  function DefinedSyms(cfg: Config, n: nat): seq<nat>
    requires n <= |cfg.syms|
  {
    if n == 0 then [] else DefinedSyms(cfg, n - 1) + if cfg.syms[n - 1].defined then [n - 1] else []
  }

  ghost function StringsOf(cfg: Config, u: User, ss: seq<nat>): seq<string>
    requires Acyclic(cfg)
  {
    seq(|ss|, i requires 0 <= i < |ss| => ConfigString(cfg.Sym(ss[i]), Eval(cfg, u, StrV(ss[i])).s))
  }

  lemma {:induction false} LinesBySymbol(cfg: Config, u: User, n: nat)
    requires Acyclic(cfg) && n <= |cfg.syms|
    ensures LinesFor(cfg, EnvOf(cfg, u), Written(cfg, u), n) ==
            StringsOf(cfg, u, Keep(s => s in Written(cfg, u), DefinedSyms(cfg, n)))
  {
    hide Eval, ConfigString, Acyclic;
    if n > 0 {
      var w, before, i := s => s in Written(cfg, u), DefinedSyms(cfg, n - 1), n - 1;
      LinesBySymbol(cfg, u, i);
      KeepConcat(w, before, if cfg.syms[i].defined then [i] else []);
      assert [i][1..] == [];
      StringsConcat(cfg, u, Keep(w, before), if i in Written(cfg, u) then [i] else []);
    }
  }

  lemma StringsConcat(cfg: Config, u: User, a: seq<nat>, b: seq<nat>)
    requires Acyclic(cfg)
    ensures StringsOf(cfg, u, a + b) == StringsOf(cfg, u, a) + StringsOf(cfg, u, b)
  {
  }

  /** If the symbols are numbered in definition order, the assignment lines of the walk are the
      lines that the round trips are about. */
  lemma WalkIsConfigLines(cfg: Config, u: User, ns: seq<MenuNode>, prompts: seq<string>, top: nat, tree: Tree)
    requires Acyclic(cfg) && InDefinitionOrder(cfg, PageOf(cfg, u, ns, prompts, top), tree)
    ensures var p := PageOf(cfg, u, ns, prompts, top);
            Assignments(p, EmitAll(p, Output([], {}), TreeEvents(tree)).lines) == ConfigLines(cfg, u)
  {
    hide EmitAll, TreeEvents, Eval, Acyclic, LinesFor, Written;
    var p, o0, es := PageOf(cfg, u, ns, prompts, top), Output([], {}), TreeEvents(tree);
    AssignedSyms(p, o0, es);
    LinesBySymbol(cfg, u, |cfg.syms|);
    SameKeep(p.written, s => s in Written(cfg, u), DefinedSyms(cfg, |cfg.syms|));
    assert Assigned(EmitAll(p, o0, es).lines) == Keep(p.written, DefinedSyms(cfg, |cfg.syms|));
    AssignedStrings(cfg, u, p, EmitAll(p, o0, es).lines);
  }

  /** The first nodes of the symbols come in the order of the symbols. */
  predicate InDefinitionOrder(cfg: Config, p: Page, tree: Tree) {
    FirstSyms(SymsOf(p, TreeEvents(tree)), {}) == DefinedSyms(cfg, |cfg.syms|)
  }

  function Assignments(p: Page, lines: seq<Line>): seq<string> {
    if lines == [] then []
    else
      var l := lines[|lines| - 1];
      Assignments(p, lines[..|lines| - 1]) + if l.Assignment? then [p.assignment(l.s)] else []
  }

  lemma {:induction false} AssignedStrings(cfg: Config, u: User, p: Page, lines: seq<Line>)
    requires Acyclic(cfg)
    requires forall s: nat :: p.assignment(s) == ConfigString(cfg.Sym(s), Eval(cfg, u, StrV(s)).s)
    ensures Assignments(p, lines) == StringsOf(cfg, u, Assigned(lines))
  {
    hide Eval, ConfigString, Acyclic, Assigned;
    if lines != [] {
      var before, l := lines[..|lines| - 1], lines[|lines| - 1];
      AssignedStrings(cfg, u, p, before);
      AssignedConcat(before, [l]);
      assert before + [l] == lines && [l][1..] == [];
      AssignedFirst([l]);
      NoneAssigned();
      StringsConcat(cfg, u, Assigned(before), if l.Assignment? then [l.s] else []);
    } else {
      NoneAssigned();
    }
  }

  lemma NoneAssigned()
    ensures Assigned([]) == []
  {
  }

  lemma {:induction false} SameKeep(w: nat -> bool, w': nat -> bool, ss: seq<nat>)
    requires forall s :: w(s) == w'(s)
    ensures Keep(w, ss) == Keep(w', ss)
  {
    if ss != [] {
      SameKeep(w, w', ss[1..]);
    }
  }
}
