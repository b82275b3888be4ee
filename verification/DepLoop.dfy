/** Dependency loop detection: a three-colour depth-first search over the dependents. */
module DepLoop {
  import opened Types
  import opened Semantics
  import opened Evaluation
  import opened Caching

  // ---------- The graph ----------

  /** y has x in one of its properties. */
  predicate Mentioned(cfg: Config, x: Ref, y: Ref) {
    ItemInRange(cfg, y) && Mentions(cfg, y, x)
  }

  /** A choice and one of its symbols, in either direction. */
  predicate Membership(cfg: Config, x: Ref, y: Ref) {
    match (x, y)
    case (S(i), C(c)) => cfg.Sym(i).choice == Some(c)
    case (C(c), S(i)) => cfg.Sym(i).choice == Some(c)
    case _ => false
  }

  predicate Edge(cfg: Config, x: Ref, y: Ref) {
    Mentioned(cfg, x, y) || Membership(cfg, x, y)
  }

  predicate Distinct(loop: seq<Ref>) {
    forall j, k :: 0 <= j < k < |loop| ==> loop[j] != loop[k]
  }

  /** Each element depends on the next one. */
  predicate Chain(cfg: Config, loop: seq<Ref>) {
    forall k :: 0 < k < |loop| ==> Edge(cfg, loop[k], loop[k - 1])
  }

  /** A cycle of consecutive dependencies without repetition. At least one of them is a real
      dependency and not just choice membership. */
  predicate Cycle(cfg: Config, loop: seq<Ref>) {
    && loop != [] && Distinct(loop) && Chain(cfg, loop)
    && Edge(cfg, loop[0], loop[|loop| - 1])
    && (Mentioned(cfg, loop[0], loop[|loop| - 1]) ||
        exists k :: 0 < k < |loop| && Mentioned(cfg, loop[k], loop[k - 1]))
  }

  /** References are in range, and choices and their symbols know each other. */
  predicate GraphOK(cfg: Config) {
    && (forall i :: 0 <= i < |cfg.syms| && cfg.syms[i].choice.Some? ==> cfg.syms[i].choice.value < |cfg.choices|)
    && (forall c, i {:trigger i in cfg.choices[c].syms} :: 0 <= c < |cfg.choices| && i in cfg.choices[c].syms ==>
          i < |cfg.syms| && cfg.syms[i].choice == Some(c))
  }

  /** A cycle of three or more elements cannot be made of choice membership alone. */
  lemma LongCycleMentions(cfg: Config, loop: seq<Ref>)
    requires |loop| >= 3 && Distinct(loop) && Chain(cfg, loop) && Edge(cfg, loop[0], loop[|loop| - 1])
    ensures Cycle(cfg, loop)
  {
    hide Mentioned;
    if Membership(cfg, loop[1], loop[0]) && Membership(cfg, loop[2], loop[1]) && loop[1].S? {
      SameChoice(cfg, loop[0], loop[1], loop[2]);
    }
    if Membership(cfg, loop[0], loop[|loop| - 1]) && Membership(cfg, loop[1], loop[0]) && loop[0].S? {
      SameChoice(cfg, loop[|loop| - 1], loop[0], loop[1]);
    }
    assert Edge(cfg, loop[1], loop[0]) && Edge(cfg, loop[2], loop[1]);
    assert Mentioned(cfg, loop[1], loop[0]) || Mentioned(cfg, loop[2], loop[1]) || Mentioned(cfg, loop[0], loop[|loop| - 1]);
    assert loop[2 - 1] == loop[1] && loop[1 - 1] == loop[0];
  }

  /** The neighbours of a symbol by membership are its choice. */
  lemma SameChoice(cfg: Config, x: Ref, y: Ref, z: Ref)
    requires y.S? && Membership(cfg, y, x) && Membership(cfg, z, y)
    ensures x == z
  {
  }

  lemma KnownMember(cfg: Config, c: nat, i: nat)
    requires GraphOK(cfg) && c < |cfg.choices| && i in cfg.choices[c].syms
    ensures i < |cfg.syms| && cfg.syms[i].choice == Some(c)
  {
  }

  /** What the recursive calls return: no loop, the part of a loop found so far, or the
      exception with the complete loop. */
  datatype Outcome = NoLoop | Part(loop: seq<Ref>) | Raised(loop: seq<Ref>)

  /** _found_dep_loop(), called on the way back at the item `cur`. */
  function Found(loop: seq<Ref>, cur: Ref): Outcome
    requires loop != []
  {
    if cur != loop[0] then Part(loop + [cur]) else Raised(loop)
  }

  /** What mentions a numbered symbol is numbered lower. */
  ghost predicate Numbered(cfg: Config, order: map<Ref, nat>) {
    && (forall x :: x in order ==> order[x] < |order|)
    && (forall x, y :: x in order && x.S? && Mentioned(cfg, x, y) ==> y in order && order[y] < order[x])
  }

  /** Every defined symbol is numbered. */
  ghost predicate Ordered(cfg: Config, order: map<Ref, nat>) {
    && Numbered(cfg, order)
    && (forall i :: 0 <= i < |cfg.syms| && cfg.syms[i].defined ==> S(i) in order)
  }

  lemma NumberNext(cfg: Config, order: map<Ref, nat>, x: Ref)
    requires Numbered(cfg, order) && x !in order
    requires x.S? ==> forall y :: Mentioned(cfg, x, y) ==> y in order
    ensures Numbered(cfg, order[x := |order|])
  {
    hide Mentioned;
    var after := order[x := |order|];
    assert after.Keys == order.Keys + {x};
    assert |after| == |after.Keys| == |order.Keys| + 1;
  }

  // ---------- The search as a function ----------

  /** The dependents of each item in the order in which the set is iterated. */
  type Dependents = map<Ref, seq<Ref>>

  ghost predicate DependentsOK(cfg: Config, deps: Dependents) {
    && GraphOK(cfg)
    && (forall x :: ItemInRange(cfg, x) ==> x in deps)
    && (forall x, y :: x in deps ==> (y in deps[x] <==> Mentioned(cfg, x, y)))
  }

  /** The items on the call stack, and those that are finished. */
  datatype Marks = Marks(open: set<Ref>, done: set<Ref>)

  datatype Visited = Visited(outcome: Outcome, marks: Marks)

  function ItemSet(cfg: Config): set<Ref> {
    (set i | 0 <= i < |cfg.syms| :: S(i)) + (set c | 0 <= c < |cfg.choices| :: C(c))
  }

  function Unseen(cfg: Config, m: Marks): set<Ref> {
    ItemSet(cfg) - m.open - m.done
  }

  function Closed(m: Marks, x: Ref): Marks {
    Marks(m.open - {x}, m.done + {x})
  }

  /** What a visit of a symbol returns and marks. */
  function VisitSym(cfg: Config, deps: Dependents, m: Marks, i: nat, ignoreChoice: bool): (r: Visited)
    requires DependentsOK(cfg, deps) && i < |cfg.syms|
    ensures r.outcome.NoLoop? ==> Unseen(cfg, r.marks) <= Unseen(cfg, m)
    ensures r.outcome.Part? ==> r.outcome.loop != []
    decreases Unseen(cfg, m), 0, 0
  {
    if S(i) in m.done then Visited(NoLoop, m)
    else if S(i) in m.open then Visited(Part([S(i)]), m)
    else
      assert S(i) in Unseen(cfg, m);
      var r := VisitAll(cfg, deps, Marks(m.open + {S(i)}, m.done), deps[S(i)], S(i));
      var c := cfg.syms[i].choice;
      if !r.outcome.NoLoop? then r
      else if c.None? || ignoreChoice then Visited(NoLoop, Closed(r.marks, S(i)))
      else
        var r' := VisitChoice(cfg, deps, r.marks, c.value, Some(i));
        match r'.outcome
        case NoLoop => Visited(NoLoop, Closed(r'.marks, S(i)))
        case Part(loop) => Visited(Found(loop, S(i)), r'.marks)
        case Raised(_) => r'
  }

  /** The visits of the dependents of the symbol `cur`. */
  function VisitAll(cfg: Config, deps: Dependents, m: Marks, ys: seq<Ref>, cur: Ref): (r: Visited)
    requires DependentsOK(cfg, deps) && forall y :: y in ys ==> ItemInRange(cfg, y)
    ensures r.outcome.NoLoop? ==> Unseen(cfg, r.marks) <= Unseen(cfg, m)
    ensures r.outcome.Part? ==> r.outcome.loop != []
    decreases Unseen(cfg, m), 1, |ys|
  {
    if ys == [] then Visited(NoLoop, m)
    else
      assert ys[0] in ys;
      var r := if ys[0].C? then VisitChoice(cfg, deps, m, ys[0].c, None) else VisitSym(cfg, deps, m, ys[0].i, false);
      match r.outcome
      case NoLoop => VisitAll(cfg, deps, r.marks, ys[1..], cur)
      case Part(loop) => Visited(Found(loop, cur), r.marks)
      case Raised(_) => r
  }

  predicate AllBelow(ss: seq<nat>, n: nat) {
    forall j :: 0 <= j < |ss| ==> ss[j] < n
  }

  lemma MembersBelow(cfg: Config, c: nat)
    requires GraphOK(cfg) && c < |cfg.choices|
    ensures AllBelow(cfg.choices[c].syms, |cfg.syms|)
  {
    forall j | 0 <= j < |cfg.choices[c].syms|
      ensures cfg.choices[c].syms[j] < |cfg.syms|
    {
      KnownMember(cfg, c, cfg.choices[c].syms[j]);
    }
  }

  function VisitChoice(cfg: Config, deps: Dependents, m: Marks, c: nat, skip: Option<nat>): (r: Visited)
    requires DependentsOK(cfg, deps) && c < |cfg.choices|
    ensures r.outcome.NoLoop? ==> Unseen(cfg, r.marks) <= Unseen(cfg, m)
    ensures r.outcome.Part? ==> r.outcome.loop != []
    decreases Unseen(cfg, m), 0, 0
  {
    if C(c) in m.done then Visited(NoLoop, m)
    else if C(c) in m.open then Visited(Part([C(c)]), m)
    else
      assert C(c) in Unseen(cfg, m);
      MembersBelow(cfg, c);
      var r := VisitMembers(cfg, deps, Marks(m.open + {C(c)}, m.done), cfg.choices[c].syms, c, skip);
      if r.outcome.NoLoop? then Visited(NoLoop, Closed(r.marks, C(c))) else r
  }

  /** The visits of the symbols of the choice c, except the one that is skipped. */
  function VisitMembers(cfg: Config, deps: Dependents, m: Marks, ss: seq<nat>, c: nat, skip: Option<nat>): (r: Visited)
    requires DependentsOK(cfg, deps) && AllBelow(ss, |cfg.syms|)
    ensures r.outcome.NoLoop? ==> Unseen(cfg, r.marks) <= Unseen(cfg, m)
    ensures r.outcome.Part? ==> r.outcome.loop != []
    decreases Unseen(cfg, m), 1, |ss|
  {
    if ss == [] then Visited(NoLoop, m)
    else if Some(ss[0]) == skip then VisitMembers(cfg, deps, m, ss[1..], c, skip)
    else
      var r := VisitSym(cfg, deps, m, ss[0], true);
      match r.outcome
      case NoLoop => VisitMembers(cfg, deps, r.marks, ss[1..], c, skip)
      case Part(loop) => Visited(Found(loop, C(c)), r.marks)
      case Raised(_) => r
  }

  /** The visits of the defined symbols from the i-th on. */
  function VisitDefined(cfg: Config, deps: Dependents, m: Marks, i: nat): (r: Visited)
    requires DependentsOK(cfg, deps) && i <= |cfg.syms|
    decreases |cfg.syms| - i
  {
    if i == |cfg.syms| then Visited(NoLoop, m)
    else if !cfg.syms[i].defined then VisitDefined(cfg, deps, m, i + 1)
    else
      var r := VisitSym(cfg, deps, m, i, false);
      if r.outcome.NoLoop? then VisitDefined(cfg, deps, r.marks, i + 1) else r
  }

  lemma NextDependent(cfg: Config, deps: Dependents, m: Marks, ys: seq<Ref>, k: nat, cur: Ref)
    requires DependentsOK(cfg, deps) && (forall y :: y in ys ==> ItemInRange(cfg, y)) && k < |ys|
    ensures forall y :: y in ys[k..] || y in ys[k + 1..] ==> ItemInRange(cfg, y)
    ensures ItemInRange(cfg, ys[k])
    ensures var y := ys[k];
            var r := if y.C? then VisitChoice(cfg, deps, m, y.c, None) else VisitSym(cfg, deps, m, y.i, false);
            VisitAll(cfg, deps, m, ys[k..], cur) ==
            if r.outcome.NoLoop? then VisitAll(cfg, deps, r.marks, ys[k + 1..], cur)
            else if r.outcome.Part? then Visited(Found(r.outcome.loop, cur), r.marks)
            else r
  {
    assert ys[k] in ys && ys[k..][0] == ys[k] && ys[k..][1..] == ys[k + 1..];
    hide VisitChoice, VisitSym, DependentsOK, ItemInRange;
  }

  lemma NextMember(cfg: Config, deps: Dependents, m: Marks, ss: seq<nat>, k: nat, c: nat, skip: Option<nat>)
    requires DependentsOK(cfg, deps) && AllBelow(ss, |cfg.syms|) && k < |ss|
    ensures AllBelow(ss[k..], |cfg.syms|) && AllBelow(ss[k + 1..], |cfg.syms|)
    ensures ss[k] < |cfg.syms|
    ensures var r := VisitSym(cfg, deps, m, ss[k], true);
            VisitMembers(cfg, deps, m, ss[k..], c, skip) ==
            if Some(ss[k]) == skip then VisitMembers(cfg, deps, m, ss[k + 1..], c, skip)
            else if r.outcome.NoLoop? then VisitMembers(cfg, deps, r.marks, ss[k + 1..], c, skip)
            else if r.outcome.Part? then Visited(Found(r.outcome.loop, C(c)), r.marks)
            else r
  {
    assert ss[k] in ss && ss[k..][0] == ss[k] && ss[k..][1..] == ss[k + 1..];
    hide VisitSym, DependentsOK;
  }

  // ---------- The search on the objects ----------

  class Checker {
    const cfg: Config
    const deps: Dependents
    const symVisited: array<nat>
    const choiceVisited: array<nat>

    /** The finished items, numbered in the order in which they were finished. */
    ghost var finished: map<Ref, nat>

    ghost predicate Valid()
      reads this, symVisited, choiceVisited
    {
      && DependentsOK(cfg, deps) && symVisited != choiceVisited
      && symVisited.Length == |cfg.syms| && choiceVisited.Length == |cfg.choices|
      && (forall x :: x in finished <==> ItemInRange(cfg, x) && VisitedOf(x) == 2)
      && Numbered(cfg, finished)
    }

    ghost function VisitedOf(x: Ref): nat
      requires symVisited.Length == |cfg.syms| && choiceVisited.Length == |cfg.choices|
      reads symVisited, choiceVisited
    {
      if !ItemInRange(cfg, x) then 0
      else
        match x
        case S(i) => symVisited[i]
        case C(c) => choiceVisited[c]
    }

    /** The marks that the search as a function works with. */
    ghost function Now(): Marks
      requires symVisited.Length == |cfg.syms| && choiceVisited.Length == |cfg.choices|
      reads this`finished, symVisited, choiceVisited
    {
      Marks(Grey(), finished.Keys)
    }

    ghost function White(): set<Ref>
      requires symVisited.Length == |cfg.syms| && choiceVisited.Length == |cfg.choices|
      reads symVisited, choiceVisited
    {
      set x | x in ItemSet(cfg) && VisitedOf(x) == 0
    }

    ghost function Grey(): set<Ref>
      requires symVisited.Length == |cfg.syms| && choiceVisited.Length == |cfg.choices|
      reads symVisited, choiceVisited
    {
      set x | x in ItemSet(cfg) && VisitedOf(x) != 0 && VisitedOf(x) != 2
    }

    /** The part of a loop returned for item x: it starts at an item on the call stack, the
        other elements were visited on the way from there, and x is the last of them. */
    static predicate IsPart(cfg: Config, loop: seq<Ref>, x: Ref, grey: set<Ref>, white: set<Ref>) {
      && loop != [] && Distinct(loop) && Chain(cfg, loop)
      && loop[0] in grey && loop[|loop| - 1] == x
      && (forall k :: 0 < k < |loop| ==> loop[k] in white)
    }

    method SetVisited(x: Ref, v: nat)
      requires symVisited.Length == |cfg.syms| && choiceVisited.Length == |cfg.choices|
      requires symVisited != choiceVisited && ItemInRange(cfg, x)
      modifies symVisited, choiceVisited
      ensures forall y :: VisitedOf(y) == if y == x then v else old(VisitedOf(y))
    {
      match x {
        case S(i) => symVisited[i] := v;
        case C(c) => choiceVisited[c] := v;
      }
    }

    /** The start of a visit. */
    method Enter(x: Ref)
      requires Valid() && ItemInRange(cfg, x) && VisitedOf(x) == 0
      modifies symVisited, choiceVisited
      ensures Valid() && White() == old(White()) - {x} && Grey() == old(Grey()) + {x}
      ensures x in old(White()) && x !in old(Grey())
    {
      hide DependentsOK, Mentioned, Numbered;
      SetVisited(x, 1);
    }

    /** The end of a visit without a loop. */
    method Finish(x: Ref)
      requires Valid() && x in Grey()
      requires x.S? ==> forall y :: Mentioned(cfg, x, y) ==> y in finished
      modifies this`finished, symVisited, choiceVisited
      ensures Valid() && White() == old(White()) && Grey() == old(Grey()) - {x} && x in finished
      ensures finished.Keys == old(finished.Keys) + {x}
    {
      hide DependentsOK, Mentioned, Numbered;
      FinishedOrOpen(x);
      NumberNext(cfg, finished, x);
      SetVisited(x, 2);
      finished := finished[x := |finished|];
    }

    lemma FinishedOrOpen(x: Ref)
      requires Valid() && ItemInRange(cfg, x)
      ensures x in White() <==> VisitedOf(x) == 0
      ensures x in finished <==> VisitedOf(x) == 2
      ensures x in Grey() <==> VisitedOf(x) != 0 && VisitedOf(x) != 2
    {
    }

    /** A loop found below the item cur, which was entered when `grey` and `white` were the
        unfinished items. `y` is the item that was visited from cur. */
    lemma FoundPart(loop: seq<Ref>, cur: Ref, y: Ref, grey: set<Ref>, white: set<Ref>, white': set<Ref>)
      requires IsPart(cfg, loop, y, grey + {cur}, white') && white' <= white - {cur}
      requires cur in white && cur !in grey && Edge(cfg, cur, y)
      ensures Found(loop, cur).Part? ==> IsPart(cfg, Found(loop, cur).loop, cur, grey, white)
      ensures Found(loop, cur).Raised? ==>
                loop[0] == cur && Distinct(loop) && Chain(cfg, loop) && loop[|loop| - 1] == y
    {
      hide Edge;
    }

    /** _check_dep_loop_sym() */
    method CheckSym(i: nat, ignoreChoice: bool) returns (r: Outcome)
      requires Valid() && i < |cfg.syms|
      modifies this`finished, symVisited, choiceVisited
      ensures r.NoLoop? ==> Valid() && Grey() == old(Grey()) && White() <= old(White()) && S(i) in finished
      ensures r.NoLoop? ==> old(finished.Keys) <= finished.Keys
      ensures r.Part? ==> IsPart(cfg, r.loop, S(i), old(Grey()), old(White()))
      ensures r.Part? && ignoreChoice && |r.loop| == 2 ==> Mentioned(cfg, S(i), r.loop[0])
      ensures r.Raised? ==> Cycle(cfg, r.loop)
      ensures var v := VisitSym(cfg, deps, old(Now()), i, ignoreChoice);
              r == v.outcome && (r.NoLoop? ==> Now() == v.marks)
      decreases White(), 1
    {
      hide Valid, IsPart, Cycle, Edge, Mentioned, VisitAll, VisitChoice, DependentsOK;
      Lengths();
      ghost var grey, white, before := Grey(), White(), finished.Keys;
      FinishedOrOpen(S(i));
      if symVisited[i] == 2 {
        return NoLoop;
      }
      if symVisited[i] != 0 {
        SinglePart(S(i), grey, white);
        return Part([S(i)]);
      }
      Enter(S(i));
      DependentsInRange(S(i));
      r := CheckDependents(i, grey, white);
      if !r.NoLoop? {
        return;
      }
      var c := cfg.syms[i].choice;
      if c.Some? && !ignoreChoice {
        ghost var white' := White();
        MemberInRange(i);
        var loop := CheckChoice(c.value, Some(i));
        if loop.Raised? {
          return loop;
        }
        if loop.Part? {
          FoundByMember(loop.loop, S(i), C(c.value), grey, white, white');
          return Found(loop.loop, S(i));
        }
      }
      Finish(S(i));
      return NoLoop;
    }

    /** The loop over the dependents of a symbol that was entered when `grey` and `white` were the
        unfinished items. */
    method CheckDependents(i: nat, ghost grey: set<Ref>, ghost white: set<Ref>) returns (r: Outcome)
      requires Valid() && i < |cfg.syms|
      requires Grey() == grey + {S(i)} && White() <= white - {S(i)} && S(i) in white && S(i) !in grey
      modifies this`finished, symVisited, choiceVisited
      ensures r.NoLoop? ==> Valid() && Grey() == old(Grey()) && White() <= old(White())
      ensures r.NoLoop? ==> old(finished.Keys) <= finished.Keys && forall y :: Mentioned(cfg, S(i), y) ==> y in finished
      ensures r.Part? ==> IsPart(cfg, r.loop, S(i), grey, white)
      ensures r.Part? && |r.loop| == 2 ==> Mentioned(cfg, S(i), r.loop[0])
      ensures r.Raised? ==> Cycle(cfg, r.loop)
      ensures DependentsOK(cfg, deps) && forall y :: y in deps[S(i)] ==> ItemInRange(cfg, y)
      ensures var v := VisitAll(cfg, deps, old(Now()), deps[S(i)], S(i));
              r == v.outcome && (r.NoLoop? ==> Now() == v.marks)
      decreases White(), 2
    {
      hide Valid, IsPart, Cycle, Edge, Mentioned, VisitAll, VisitChoice, VisitSym, DependentsOK;
      Lengths();
      DependentsInRange(S(i));
      var ys := deps[S(i)];
      ghost var entered := Now();
      var k := 0;
      assert ys[0..] == ys;
      while k < |ys|
        invariant 0 <= k <= |ys|
        invariant Valid() && Grey() == grey + {S(i)} && White() <= old(White())
        invariant entered.done <= finished.Keys
        invariant forall j :: 0 <= j < k ==> ys[j] in finished
        invariant forall y :: y in ys[k..] ==> ItemInRange(cfg, y)
        invariant VisitAll(cfg, deps, Now(), ys[k..], S(i)) == VisitAll(cfg, deps, entered, ys, S(i))
      {
        var y := ys[k];
        NextDependent(cfg, deps, Now(), ys, k, S(i));
        var loop;
        ghost var white' := White();
        if y.C? {
          loop := CheckChoice(y.c, None);
        } else {
          loop := CheckSym(y.i, false);
        }
        if loop.Raised? {
          return loop;
        }
        if loop.Part? {
          FoundByMention(loop.loop, S(i), y, grey, white, white');
          return Found(loop.loop, S(i));
        }
        k := k + 1;
      }
      VisitedAll(entered, ys, S(i));
      return NoLoop;
    }

    /** _check_dep_loop_choice() */
    method CheckChoice(c: nat, skip: Option<nat>) returns (r: Outcome)
      requires Valid() && c < |cfg.choices|
      modifies this`finished, symVisited, choiceVisited
      ensures r.NoLoop? ==> Valid() && Grey() == old(Grey()) && White() <= old(White()) && C(c) in finished
      ensures r.NoLoop? ==> old(finished.Keys) <= finished.Keys
      ensures r.Part? ==> IsPart(cfg, r.loop, C(c), old(Grey()), old(White()))
      ensures r.Part? && skip.Some? && |r.loop| == 2 ==> r.loop[0] != S(skip.value)
      ensures r.Raised? ==> Cycle(cfg, r.loop)
      ensures var v := VisitChoice(cfg, deps, old(Now()), c, skip);
              r == v.outcome && (r.NoLoop? ==> Now() == v.marks)
      decreases White(), 0
    {
      hide Valid, IsPart, Cycle, Edge, Mentioned, VisitMembers, VisitSym, DependentsOK;
      Lengths();
      ghost var grey, white, before := Grey(), White(), finished.Keys;
      FinishedOrOpen(C(c));
      if choiceVisited[c] == 2 {
        return NoLoop;
      }
      if choiceVisited[c] != 0 {
        SinglePart(C(c), grey, white);
        return Part([C(c)]);
      }
      Enter(C(c));
      AllInRange(c);
      r := CheckMembers(c, skip, grey, white);
      if r.NoLoop? {
        Finish(C(c));
      }
    }

    /** The loop over the symbols of a choice that was entered when `grey` and `white` were the
        unfinished items. */
    method CheckMembers(c: nat, skip: Option<nat>, ghost grey: set<Ref>, ghost white: set<Ref>) returns (r: Outcome)
      requires Valid() && c < |cfg.choices|
      requires Grey() == grey + {C(c)} && White() <= white - {C(c)} && C(c) in white && C(c) !in grey
      modifies this`finished, symVisited, choiceVisited
      ensures r.NoLoop? ==> Valid() && Grey() == old(Grey()) && White() <= old(White())
      ensures r.NoLoop? ==> old(finished.Keys) <= finished.Keys
      ensures r.Part? ==> IsPart(cfg, r.loop, C(c), grey, white)
      ensures r.Part? && skip.Some? && |r.loop| == 2 ==> r.loop[0] != S(skip.value)
      ensures r.Raised? ==> Cycle(cfg, r.loop)
      ensures DependentsOK(cfg, deps) && AllBelow(cfg.choices[c].syms, |cfg.syms|)
      ensures var v := VisitMembers(cfg, deps, old(Now()), cfg.choices[c].syms, c, skip);
              r == v.outcome && (r.NoLoop? ==> Now() == v.marks)
      decreases White(), 2
    {
      hide Valid, IsPart, Cycle, Edge, Mentioned, VisitMembers, VisitSym, DependentsOK;
      Lengths();
      AllInRange(c);
      var ss := cfg.choices[c].syms;
      ghost var entered := Now();
      var k := 0;
      assert ss[0..] == ss;
      while k < |ss|
        invariant 0 <= k <= |ss|
        invariant Valid() && Grey() == grey + {C(c)} && White() <= old(White())
        invariant entered.done <= finished.Keys
        invariant AllBelow(ss[k..], |cfg.syms|)
        invariant VisitMembers(cfg, deps, Now(), ss[k..], c, skip) == VisitMembers(cfg, deps, entered, ss, c, skip)
      {
        MembersInRange(c, k);
        NextMember(cfg, deps, Now(), ss, k, c, skip);
        if Some(ss[k]) != skip {
          ghost var white' := White();
          var loop := CheckSym(ss[k], true);
          if loop.Raised? {
            return loop;
          }
          if loop.Part? {
            FoundInChoice(loop.loop, c, ss[k], grey, white, white');
            return Found(loop.loop, C(c));
          }
        }
        k := k + 1;
      }
      VisitedMembers(ss, c, skip);
      return NoLoop;
    }

    // ---------- Helpers ----------

    lemma Lengths()
      requires Valid()
      ensures symVisited.Length == |cfg.syms| && choiceVisited.Length == |cfg.choices|
    {
    }

    lemma SinglePart(x: Ref, grey: set<Ref>, white: set<Ref>)
      requires x in grey
      ensures IsPart(cfg, [x], x, grey, white)
    {
    }

    lemma MemberInRange(i: nat)
      requires Valid() && i < |cfg.syms| && cfg.syms[i].choice.Some?
      ensures cfg.syms[i].choice.value < |cfg.choices|
    {
    }

    lemma MembersInRange(c: nat, k: nat)
      requires Valid() && c < |cfg.choices| && k < |cfg.choices[c].syms|
      ensures cfg.choices[c].syms[k] < |cfg.syms| && Membership(cfg, C(c), S(cfg.choices[c].syms[k]))
    {
      KnownMember(cfg, c, cfg.choices[c].syms[k]);
    }

    lemma AllInRange(c: nat)
      requires Valid() && c < |cfg.choices|
      ensures DependentsOK(cfg, deps) && AllBelow(cfg.choices[c].syms, |cfg.syms|)
    {
      MembersBelow(cfg, c);
    }

    lemma DependentsInRange(x: Ref)
      requires Valid() && ItemInRange(cfg, x)
      ensures DependentsOK(cfg, deps) && x in deps
      ensures forall y :: y in deps[x] <==> Mentioned(cfg, x, y)
      ensures forall y :: y in deps[x] ==> ItemInRange(cfg, y)
    {
    }

    /** All dependents were visited without a loop. */
    lemma VisitedAll(entered: Marks, ys: seq<Ref>, cur: Ref)
      requires Valid() && DependentsOK(cfg, deps) && forall y :: y in ys ==> ItemInRange(cfg, y)
      requires VisitAll(cfg, deps, Now(), ys[|ys|..], cur) == VisitAll(cfg, deps, entered, ys, cur)
      ensures VisitAll(cfg, deps, entered, ys, cur) == Visited(NoLoop, Now())
    {
      assert ys[|ys|..] == [];
    }

    lemma VisitedMembers(ss: seq<nat>, c: nat, skip: Option<nat>)
      requires Valid() && DependentsOK(cfg, deps)
      ensures ss[|ss|..] == [] && VisitMembers(cfg, deps, Now(), [], c, skip) == Visited(NoLoop, Now())
    {
    }

    lemma FoundByMention(loop: seq<Ref>, cur: Ref, y: Ref, grey: set<Ref>, white: set<Ref>, white': set<Ref>)
      requires IsPart(cfg, loop, y, grey + {cur}, white') && white' <= white - {cur}
      requires cur in white && cur !in grey && Mentioned(cfg, cur, y)
      ensures loop != []
      ensures Found(loop, cur).Part? ==>
                IsPart(cfg, Found(loop, cur).loop, cur, grey, white) &&
                (|Found(loop, cur).loop| == 2 ==> Mentioned(cfg, cur, loop[0]))
      ensures Found(loop, cur).Raised? ==> Cycle(cfg, loop)
    {
      hide Mentioned;
      FoundPart(loop, cur, y, grey, white, white');
    }

    lemma FoundByMember(loop: seq<Ref>, cur: Ref, y: Ref, grey: set<Ref>, white: set<Ref>, white': set<Ref>)
      requires IsPart(cfg, loop, y, grey + {cur}, white') && white' <= white - {cur}
      requires cur in white && cur !in grey && Membership(cfg, cur, y)
      requires |loop| == 2 ==> loop[0] != cur
      ensures loop != []
      ensures Found(loop, cur).Part? ==> IsPart(cfg, Found(loop, cur).loop, cur, grey, white)
      ensures Found(loop, cur).Raised? ==> Cycle(cfg, loop)
    {
      hide Mentioned;
      FoundPart(loop, cur, y, grey, white, white');
      if Found(loop, cur).Raised? {
        LongCycleMentions(cfg, loop);
      }
    }

    lemma FoundInChoice(loop: seq<Ref>, c: nat, i: nat, grey: set<Ref>, white: set<Ref>, white': set<Ref>)
      requires IsPart(cfg, loop, S(i), grey + {C(c)}, white') && white' <= white - {C(c)}
      requires C(c) in white && C(c) !in grey && Membership(cfg, C(c), S(i))
      requires |loop| == 2 ==> Mentioned(cfg, S(i), loop[0])
      ensures loop != []
      ensures Found(loop, C(c)).Part? ==>
                IsPart(cfg, Found(loop, C(c)).loop, C(c), grey, white) &&
                (|Found(loop, C(c)).loop| == 2 ==> loop[0] == S(i))
      ensures Found(loop, C(c)).Raised? ==> Cycle(cfg, loop)
    {
      hide Mentioned;
      FoundPart(loop, C(c), S(i), grey, white, white');
      if Found(loop, C(c)).Raised? && |loop| >= 3 {
        LongCycleMentions(cfg, loop);
      }
    }

    lemma NothingOpen(r: Outcome, x: Ref, white: set<Ref>)
      requires r.Part? ==> IsPart(cfg, r.loop, x, {}, white)
      ensures !r.Part?
    {
    }

    lemma FinishedOrdered()
      requires Valid() && forall j :: 0 <= j < |cfg.syms| && cfg.syms[j].defined ==> S(j) in finished
      ensures exists order :: Ordered(cfg, order)
    {
      hide Mentioned, GraphOK;
      assert Ordered(cfg, finished);
    }

    // ---------- The whole check ----------

    /** All items are unvisited. */
    constructor (cfg: Config, deps: Dependents)
      requires DependentsOK(cfg, deps)
      ensures Valid() && Now() == Marks({}, {}) && this.cfg == cfg && this.deps == deps
      ensures fresh(symVisited) && fresh(choiceVisited)
    {
      this.cfg := cfg;
      this.deps := deps;
      symVisited := new nat[|cfg.syms|](_ => 0);
      choiceVisited := new nat[|cfg.choices|](_ => 0);
      finished := map[];
      new;
      hide DependentsOK, Mentioned;
      AllWhite();
    }

    lemma AllWhite()
      requires symVisited.Length == |cfg.syms| && choiceVisited.Length == |cfg.choices|
      requires forall k :: 0 <= k < symVisited.Length ==> symVisited[k] == 0
      requires forall k :: 0 <= k < choiceVisited.Length ==> choiceVisited[k] == 0
      ensures Grey() == {} && forall x :: VisitedOf(x) == 0
    {
    }

    /** The part of Kconfig._init() that checks every defined symbol. The result is the loop
        that was raised, if any. A loop never comes back to the top incomplete. */
    method CheckAll() returns (raised: Option<seq<Ref>>)
      requires Valid() && Grey() == {}
      modifies this`finished, symVisited, choiceVisited
      ensures raised.Some? ==> Cycle(cfg, raised.value)
      ensures raised.None? ==> exists order :: Ordered(cfg, order)
      ensures var v := VisitDefined(cfg, deps, old(Now()), 0).outcome;
              v == if raised.Some? then Raised(raised.value) else NoLoop
    {
      hide Valid, IsPart, Cycle, Edge, Mentioned, VisitSym, DependentsOK;
      Lengths();
      DependentsKnown();
      ghost var start := Now();
      var i := 0;
      while i < |cfg.syms|
        invariant 0 <= i <= |cfg.syms| && Valid() && Grey() == {}
        invariant forall j :: 0 <= j < i && cfg.syms[j].defined ==> S(j) in finished
        invariant VisitDefined(cfg, deps, Now(), i) == VisitDefined(cfg, deps, start, 0)
      {
        if cfg.syms[i].defined {
          ghost var white := White();
          var r := CheckSym(i, false);
          if r.Raised? {
            return Some(r.loop);
          }
          NothingOpen(r, S(i), white);
        }
        i := i + 1;
      }
      FinishedOrdered();
      return None;
    }

    lemma DependentsKnown()
      requires Valid()
      ensures DependentsOK(cfg, deps)
    {
    }
  }
}
