/** Which menus and comments leave lines in the output, and what these lines say. */
module Headings {
  import opened Types
  import opened Semantics
  import opened Evaluation
  import opened Caching
  import opened MenuSpec
  import opened MenuTree
  import opened FullConfig
  import opened MenuOutput
  import opened Meaning

  /** The dependencies of the node are met. */
  ghost predicate DepMet(cfg: Config, u: User, node: MenuNode)
    requires Acyclic(cfg)
  {
    Value(cfg, u, node.props.dep) != 0
  }

  /** A menu whose dependencies and 'visible if' conditions are both met. */
  ghost predicate OpenMenu(cfg: Config, u: User, node: MenuNode)
    requires Acyclic(cfg)
  {
    node.item.MenuItem? && DepMet(cfg, u, node) && Value(cfg, u, node.props.visibility) != 0
  }

  /** The node is visited, and it has a heading: it is a visible menu, with children if `opens`, or
      a comment whose dependencies are met. */
  ghost predicate HasHeading(cfg: Config, u: User, ns: seq<MenuNode>, es: seq<Event>, id: nat, opens: bool)
    requires Acyclic(cfg)
  {
    && id < |ns|
    && if opens then Visit(id, true) in es && OpenMenu(cfg, u, ns[id])
       else || (Visit(id, false) in es && OpenMenu(cfg, u, ns[id]))
            || ((Visit(id, true) in es || Visit(id, false) in es) && ns[id].item.CommentItem? && DepMet(cfg, u, ns[id]))
  }

  /** The node is left, and it is a visible menu below the top. */
  ghost predicate HasEnd(cfg: Config, u: User, ns: seq<MenuNode>, es: seq<Event>, top: nat, id: nat)
    requires Acyclic(cfg)
  {
    id < |ns| && id != top && Leave(id) in es && OpenMenu(cfg, u, ns[id])
  }

  lemma OneEvent(cfg: Config, u: User, ns: seq<MenuNode>, prompts: seq<string>, top: nat, o: Output, e: Event, id: nat, opens: bool)
    requires Acyclic(cfg)
    ensures var lines := Emit(PageOf(cfg, u, ns, prompts, top), o, e).lines;
            && (Heading(id, opens) in lines <==> Heading(id, opens) in o.lines || HasHeading(cfg, u, ns, [e], id, opens))
            && (EndOf(id) in lines <==> EndOf(id) in o.lines || HasEnd(cfg, u, ns, [e], top, id))
  {
    hide Eval, ExprVal, Acyclic, Written;
  }

  /** The headings and '# end of' lines of any walk, written for the nodes that it visits and
      leaves. */
  lemma {:induction false} HeadingsOfWalk(cfg: Config, u: User, ns: seq<MenuNode>, prompts: seq<string>, top: nat,
                                          o: Output, es: seq<Event>, id: nat, opens: bool)
    requires Acyclic(cfg)
    ensures var lines := EmitAll(PageOf(cfg, u, ns, prompts, top), o, es).lines;
            && (Heading(id, opens) in lines <==> Heading(id, opens) in o.lines || HasHeading(cfg, u, ns, es, id, opens))
            && (EndOf(id) in lines <==> EndOf(id) in o.lines || HasEnd(cfg, u, ns, es, top, id))
    decreases |es|
  {
    hide Eval, ExprVal, Acyclic, Emit, PageOf, DepMet, OpenMenu;
    if es != [] {
      var p, rest := PageOf(cfg, u, ns, prompts, top), es[1..];
      OneEvent(cfg, u, ns, prompts, top, o, es[0], id, opens);
      HeadingsOfWalk(cfg, u, ns, prompts, top, Emit(p, o, es[0]), rest, id, opens);
      assert es == [es[0]] + rest;
    }
  }

  /** What a line says, given whether it follows an '# end of' comment: a symbol then has a blank
      line before it. */
  predicate Says(p: Page, l: Line, afterEnd: bool, text: seq<string>) {
    match l
    case Heading(id, _) => text == ["", "#", "# " + p.heading(id), "#"]
    case EndOf(id) => text == ["# end of " + p.heading(id)]
    case Assignment(s) => text == if afterEnd then ["", p.assignment(s)] else [p.assignment(s)]
  }

  /** The text of a line follows that of the lines before it. */
  lemma {:induction false} TextMeaning(p: Page, before: seq<Line>, l: Line, after: seq<Line>, text: seq<string>)
    requires Says(p, l, before != [] && before[|before| - 1].EndOf?, text)
    ensures Text(p, []) == [] && Text(p, before + [l]) == Text(p, before) + text
    ensures Text(p, before + [l]) <= Text(p, before + [l] + after)
    decreases |after|
  {
    hide LineText;
    if after == [] {
      assert before + [l] + after == before + [l];
      TextLast(p, before, l, text);
    } else {
      var n := |after| - 1;
      assert before + [l] + after == before + [l] + after[..n] + [after[n]];
      TextMeaning(p, before, l, after[..n], text);
      TextNext(p, before + [l] + after[..n], after[n]);
    }
  }

  lemma TextLast(p: Page, before: seq<Line>, l: Line, text: seq<string>)
    requires Says(p, l, before != [] && before[|before| - 1].EndOf?, text)
    ensures Text(p, before + [l]) == Text(p, before) + text
  {
    TextNext(p, before, l);
  }
}
