/** Loading what the walk over the menu tree writes: headings and comments do no harm unless a
    heading reads like the line of a symbol that is not set. */
module Reload {
  import opened Types
  import opened Numbers
  import opened Semantics
  import opened Evaluation
  import opened Caching
  import opened Updates
  import opened ConfigText
  import opened ConfigFile
  import opened ReadBack
  import opened FullConfig
  import opened MenuSpec
  import opened MenuTree
  import opened MenuOutput
  import SmallConfig

  /** The line neither assigns a value nor names a bool or tristate symbol that is not set. */
  predicate Ignored(cfg: Config, line: string) {
    var l := StripRight(line);
    && MatchSet(l).None?
    && match MatchUnset(l)
       case None => true
       case Some(name) =>
         match Lookup(cfg.syms, name)
         case None => true
         case Some(i) => !IsBoolTri(cfg.Sym(i).typ)
  }

  lemma IgnoredLine(cfg: Config, st: State, line: string)
    requires Ignored(cfg, line)
    ensures LoadLine(cfg, st, line) == st
  {
    hide MatchSet, MatchUnset, StripRight, Lookup;
  }

  /** A line that starts with '#', but not like an unset line, is ignored. */
  lemma CommentIgnored(cfg: Config, line: string)
    requires line != [] ==> line[0] == '#' && (|line| > 2 ==> line[2] != 'C')
    ensures Ignored(cfg, line)
  {
    hide Lookup;
    var l := StripRight(line);
    assert l <= line;
    assert PREFIX[0] == 'C' && ("# " + PREFIX)[2] == 'C';
  }

  lemma EndIgnored(cfg: Config, prompt: string)
    ensures Ignored(cfg, "# end of " + prompt) && Ignored(cfg, "#") && Ignored(cfg, "")
  {
    hide Ignored;
    CommentIgnored(cfg, "# end of " + prompt);
    CommentIgnored(cfg, "#");
    CommentIgnored(cfg, "");
  }

  /** A heading is ignored in every state exactly if it does not read like the line of a bool or
      tristate symbol that is not set. */
  lemma HeadingIgnoredIff(cfg: Config, prompt: string)
    ensures (forall st :: LoadLine(cfg, st, HeadingText(prompt)) == st) <==> Ignored(cfg, HeadingText(prompt))
  {
    var line := HeadingText(prompt);
    if Ignored(cfg, line) {
      forall st
        ensures LoadLine(cfg, st, line) == st
      {
        IgnoredLine(cfg, st, line);
      }
    } else {
      NoAssignment(prompt);
      var st := State(NOTHING, {});
      hide MatchSet, MatchUnset, StripRight, Lookup;
      var i := Lookup(cfg.syms, MatchUnset(StripRight(line)).value).value;
      assert S(i) in LoadLine(cfg, st, line).flags;
    }
  }

  lemma NoAssignment(prompt: string)
    ensures MatchSet(StripRight(HeadingText(prompt))) == None
  {
    assert StripRight(HeadingText(prompt)) <= HeadingText(prompt);
    assert PREFIX[0] == 'C';
  }

  lemma {:induction false} LoadConcat(cfg: Config, st: State, a: seq<string>, b: seq<string>)
    ensures LoadLines(cfg, st, a + b) == LoadLines(cfg, LoadLines(cfg, st, a), b)
  {
    hide LoadLine;
    if b == [] {
      assert a + b == a;
    } else {
      var before := b[..|b| - 1];
      LoadConcat(cfg, st, a, before);
      assert (a + b)[..|a + b| - 1] == a + before;
    }
  }

  lemma {:induction false} IgnoredLines(cfg: Config, st: State, lines: seq<string>)
    requires forall k :: 0 <= k < |lines| ==> Ignored(cfg, lines[k])
    ensures LoadLines(cfg, st, lines) == st
  {
    hide LoadLine, Ignored;
    if lines != [] {
      var n := |lines| - 1;
      IgnoredLines(cfg, st, lines[..n]);
      IgnoredLine(cfg, st, lines[n]);
    }
  }

  /** No heading among the lines reads like an unset line. */
  predicate HeadingsIgnored(cfg: Config, p: Page, lines: seq<Line>) {
    forall k :: 0 <= k < |lines| && lines[k].Heading? ==> Ignored(cfg, HeadingText(p.heading(lines[k].id)))
  }

  lemma LineLoads(cfg: Config, st: State, p: Page, l: Line)
    requires l.Heading? ==> Ignored(cfg, HeadingText(p.heading(l.id)))
    ensures LoadLines(cfg, st, LineText(p, l)) == if l.Assignment? then LoadLine(cfg, st, p.assignment(l.s)) else st
    ensures LoadLines(cfg, st, [""]) == st
  {
    hide LoadLine, Ignored, HeadingText;
    EndIgnored(cfg, if l.EndOf? then p.heading(l.id) else "");
    IgnoredLines(cfg, st, [""]);
    if l.Assignment? {
      OneLine(cfg, st, p.assignment(l.s));
    } else {
      IgnoredLines(cfg, st, LineText(p, l));
    }
  }

  lemma OneLine(cfg: Config, st: State, line: string)
    ensures LoadLines(cfg, st, [line]) == LoadLine(cfg, st, line)
  {
    hide LoadLine;
    assert [line][..0] == [];
    assert LoadLines(cfg, st, []) == st;
  }

  /** Only the assignments count. */
  lemma {:induction false} TextLoads(cfg: Config, st: State, p: Page, lines: seq<Line>)
    requires HeadingsIgnored(cfg, p, lines)
    ensures LoadLines(cfg, st, Text(p, lines)) == LoadLines(cfg, st, Assignments(p, lines))
    decreases |lines|
  {
    hide LoadLine, Ignored, LineText, AfterEnd;
    if lines != [] {
      var before, l := lines[..|lines| - 1], lines[|lines| - 1];
      TextLoads(cfg, st, p, before);
      var blank := if AfterEnd(before) && l.Assignment? then [""] else [];
      var mid := LoadLines(cfg, st, Text(p, before));
      LineLoads(cfg, mid, p, l);
      LoadConcat(cfg, st, Text(p, before) + blank, LineText(p, l));
      LoadConcat(cfg, st, Text(p, before), blank);
      var added := if l.Assignment? then [p.assignment(l.s)] else [];
      LoadConcat(cfg, st, Assignments(p, before), added);
      if l.Assignment? {
        OneLine(cfg, mid, p.assignment(l.s));
      }
    }
  }

  // ---------- The whole file ----------

  /** Headings belong to menus and comments. */
  lemma {:induction false} HeadingNodes(p: Page, o: Output, es: seq<Event>, k: nat)
    requires k < |EmitAll(p, o, es).lines| && EmitAll(p, o, es).lines[k].Heading?
    requires forall j :: 0 <= j < |o.lines| && o.lines[j].Heading? ==> IsTitled(p, o.lines[j].id)
    ensures IsTitled(p, EmitAll(p, o, es).lines[k].id)
    decreases |es|
  {
    if es != [] {
      HeadingNodes(p, Emit(p, o, es[0]), es[1..], k);
    }
  }

  predicate IsTitled(p: Page, id: nat) {
    p.items(id).MenuItem? || p.items(id).CommentItem?
  }

  /** No menu and no comment has a prompt that reads like an unset line. */
  predicate PromptsIgnored(cfg: Config, ns: seq<MenuNode>, prompts: seq<string>) {
    forall id :: 0 <= id < |ns| && id < |prompts| && (ns[id].item.MenuItem? || ns[id].item.CommentItem?) ==>
      Ignored(cfg, HeadingText(prompts[id]))
  }

  lemma PromptsAreIgnored(cfg: Config, u: User, ns: seq<MenuNode>, prompts: seq<string>, top: nat, tree: Tree)
    requires Acyclic(cfg) && |prompts| == |ns| && PromptsIgnored(cfg, ns, prompts)
    ensures var p := PageOf(cfg, u, ns, prompts, top);
            HeadingsIgnored(cfg, p, EmitAll(p, Output([], {}), TreeEvents(tree)).lines)
  {
    hide EmitAll, TreeEvents, Ignored, HeadingText, Acyclic, Shown, Eval, Written;
    var p, o0 := PageOf(cfg, u, ns, prompts, top), Output([], {});
    var lines := EmitAll(p, o0, TreeEvents(tree)).lines;
    forall k | 0 <= k < |lines| && lines[k].Heading?
      ensures Ignored(cfg, HeadingText(p.heading(lines[k].id)))
    {
      HeadingNodes(p, o0, TreeEvents(tree), k);
    }
  }

  /** Loading the file that the walk writes, below a header of ignored lines, has the effect of
      loading the symbol lines alone, in every state. */
  lemma ContentsLoaded(cfg: Config, u: User, ns: seq<MenuNode>, prompts: seq<string>, top: nat, tree: Tree,
                       header: seq<string>, st: State, replace: bool)
    requires Acyclic(cfg) && InDefinitionOrder(cfg, PageOf(cfg, u, ns, prompts, top), tree)
    requires |prompts| == |ns| && PromptsIgnored(cfg, ns, prompts)
    requires forall k :: 0 <= k < |header| ==> Ignored(cfg, header[k])
    ensures var p := PageOf(cfg, u, ns, prompts, top);
            LoadConfig(cfg, st, header + Text(p, EmitAll(p, Output([], {}), TreeEvents(tree)).lines), replace) ==
            LoadConfig(cfg, st, ConfigLines(cfg, u), replace)
  {
    hide EmitAll, TreeEvents, Ignored, Acyclic, PromptsIgnored, InDefinitionOrder, PageOf, ConfigLines;
    hide UnsetUnflagged, ClearFlags, Text, LoadLines, HeadingsIgnored;
    var p := PageOf(cfg, u, ns, prompts, top);
    var lines := EmitAll(p, Output([], {}), TreeEvents(tree)).lines;
    var start := if replace then ClearFlags(cfg, st) else st;
    PromptsAreIgnored(cfg, u, ns, prompts, top, tree);
    WalkIsConfigLines(cfg, u, ns, prompts, top, tree);
    LoadConcat(cfg, start, header, Text(p, lines));
    IgnoredLines(cfg, start, header);
    TextLoads(cfg, start, p, lines);
  }

  /** So the round trip of the symbol lines is the round trip of the whole file. */
  lemma FileRoundTrip(cfg: Config, u: User, ns: seq<MenuNode>, prompts: seq<string>, top: nat, tree: Tree,
                      header: seq<string>, st: State)
    requires ConfigOK(cfg) && UserOK(cfg, u) && UserOK(cfg, st.user) && PlainConfig(cfg) && OneLiners(cfg, u)
    requires InDefinitionOrder(cfg, PageOf(cfg, u, ns, prompts, top), tree)
    requires |prompts| == |ns| && PromptsIgnored(cfg, ns, prompts)
    requires forall k :: 0 <= k < |header| ==> Ignored(cfg, header[k])
    ensures var p := PageOf(cfg, u, ns, prompts, top);
            var file := header + Text(p, EmitAll(p, Output([], {}), TreeEvents(tree)).lines);
            SameConfig(cfg, u, LoadConfig(cfg, st, file, true).user) <==> AllKept(cfg, u)
  {
    hide EmitAll, TreeEvents, Ignored, PromptsIgnored, InDefinitionOrder, PageOf, ConfigLines, LoadConfig;
    hide Text, SameConfig, AllKept, PlainConfig, OneLiners, UserOK, Acyclic;
    ContentsLoaded(cfg, u, ns, prompts, top, tree, header, st, true);
    FullRoundTrip(cfg, u, st);
  }

  // ---------- A heading that is loaded ----------

  lemma LinesOfB(st: State)
    ensures LoadLine(SmallConfig.CFG, st, "CONFIG_B=m") == SetTriText(SmallConfig.CFG, st, SmallConfig.B, "m")
    ensures LoadLine(SmallConfig.CFG, st, HeadingText("CONFIG_B is not set")) ==
            SetTriText(SmallConfig.CFG, st, SmallConfig.B, "n")
    ensures !Ignored(SmallConfig.CFG, HeadingText("CONFIG_B is not set"))
  {
    assert "CONFIG_B=m" == SetLine("B", "m") && HeadingText("CONFIG_B is not set") == UnsetLine("B") && NameOK("B");
    MatchSetLine("B", "m");
    NotSetLine("B");
    SmallConfig.FindB();
    SmallConfig.Definitions();
    hide MatchSet, MatchUnset, StripRight, Lookup, NameOK, SetTriText;
  }

  lemma ValuesOfB(st: State)
    ensures var cfg, i := SmallConfig.CFG, SmallConfig.B;
            && UserOf(SetTriText(cfg, st, i, "m").user, i) == Some(UTri(1))
            && UserOf(SetTriText(cfg, st, i, "n").user, i) == Some(UTri(0))
  {
    SmallConfig.Definitions();
    assert "n" != "m" && "n" != "y" && "m" != "y";
  }

  /** A comment with the text of an unset line takes back the value of the line before it. */
  lemma HeadingLoaded(st: State)
    ensures var cfg, heading := SmallConfig.CFG, HeadingText("CONFIG_B is not set");
            && !Ignored(cfg, heading)
            && UserOf(LoadLines(cfg, st, ["CONFIG_B=m", heading]).user, SmallConfig.B) == Some(UTri(0))
            && UserOf(LoadLines(cfg, st, ["CONFIG_B=m"]).user, SmallConfig.B) == Some(UTri(1))
  {
    hide LoadLine, LoadLines, SetTriText, Ignored, HeadingText;
    var cfg, line, heading := SmallConfig.CFG, "CONFIG_B=m", HeadingText("CONFIG_B is not set");
    var st1 := LoadLine(cfg, st, line);
    LinesOfB(st);
    LinesOfB(st1);
    ValuesOfB(st);
    ValuesOfB(st1);
    OneLine(cfg, st, line);
    OneLine(cfg, st1, heading);
    LoadConcat(cfg, st, [line], [heading]);
    assert [line] + [heading] == [line, heading];
  }
}
