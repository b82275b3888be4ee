/** Loading a .config file: what each line does to the user state, and the difference
    between replacing and merging. */
module ConfigFile {
  import opened Types
  import opened Numbers
  import opened Evaluation
  import opened Caching
  import opened Updates
  import opened ConfigText

  // ---------- One line ----------

  /** The defined symbol with the given name, found in the symbol dictionary. */
  function Lookup(syms: seq<SymDef>, name: string): (r: Option<nat>)
    ensures r.Some? ==> r.value < |syms| && syms[r.value].defined && syms[r.value].name == name
    ensures r.None? ==> forall i :: 0 <= i < |syms| && syms[i].defined ==> syms[i].name != name
  {
    if syms == [] then None
    else if syms[|syms| - 1].defined && syms[|syms| - 1].name == name then Some(|syms| - 1)
    else Lookup(syms[..|syms| - 1], name)
  }

  /** Only the first character after '=' counts for bool and tristate symbols. */
  predicate ValidTriText(t: SType, val: string) {
    val != [] && (val[0] == 'y' || val[0] == 'n' || (t == TRISTATE && val[0] == 'm'))
  }

  /** The assignment of y or m to a choice symbol first sets the mode of the choice. */
  function SetTriText(cfg: Config, st: State, i: nat, text: string): State {
    var c := cfg.Sym(i).choice;
    var st1 := if c.Some? && text != "n" then SetChoice(cfg, st, c.value, UStr(text)) else st;
    SetSym(cfg, st1, i, UStr(text))
  }

  /** An assignment line for symbol i. */
  function LoadSet(cfg: Config, st: State, i: nat, val: string): State {
    var t := cfg.Sym(i).typ;
    if IsBoolTri(t) then
      if ValidTriText(t, val) then SetTriText(cfg, st, i, [val[0]]) else st
    else if t == STRING then
      match MatchString(val)
      case None => st
      case Some(group) => SetSym(cfg, st, i, UStr(Unescape(group)))
    else
      SetSym(cfg, st, i, UStr(val))
  }

  /** What one line of the file does. Lines that are not assignments to defined symbols
      change nothing. */
  function LoadLine(cfg: Config, st: State, rawLine: string): State {
    var line := StripRight(rawLine);
    match MatchSet(line)
    case Some((name, val)) =>
      (match Lookup(cfg.syms, name)
       case None => st
       case Some(i) => LoadSet(cfg, st, i, val))
    case None =>
      match MatchUnset(line)
      case None => st
      case Some(name) =>
        match Lookup(cfg.syms, name)
        case None => st
        case Some(i) => if IsBoolTri(cfg.Sym(i).typ) then SetTriText(cfg, st, i, "n") else st
  }

  function LoadLines(cfg: Config, st: State, lines: seq<string>): State {
    if lines == [] then st
    else LoadLine(cfg, LoadLines(cfg, st, lines[..|lines| - 1]), lines[|lines| - 1])
  }

  // ---------- A whole file ----------

  /** Whether _was_set is reset before, and user values are unset after, loading. */
  predicate Replaceable(cfg: Config, x: Ref) {
    match x
    case S(i) => cfg.Sym(i).defined
    case C(c) => c < |cfg.choices|
  }

  function ClearFlags(cfg: Config, st: State): State {
    st.(flags := set x | x in st.flags && !Replaceable(cfg, x))
  }

  function UnsetUnflagged(cfg: Config, st: State): State {
    var u := st.user;
    st.(user := User(
      map i | i in u.sym && (!cfg.Sym(i).defined || S(i) in st.flags) :: u.sym[i],
      map c | c in u.mode && (c >= |cfg.choices| || C(c) in st.flags) :: u.mode[c],
      map c | c in u.selection && (c >= |cfg.choices| || C(c) in st.flags) :: u.selection[c]))
  }

  /** Kconfig.load_config() */
  function LoadConfig(cfg: Config, st: State, lines: seq<string>, replace: bool): State {
    if replace then UnsetUnflagged(cfg, LoadLines(cfg, ClearFlags(cfg, st), lines))
    else LoadLines(cfg, st, lines)
  }

  // ---------- The user state stays well-formed ----------

  lemma LoadLineOK(cfg: Config, st: State, line: string)
    requires ConfigOK(cfg) && UserOK(cfg, st.user)
    ensures UserOK(cfg, LoadLine(cfg, st, line).user)
  {
    hide MatchSet, MatchUnset, MatchString, StripRight, Unescape, SetSym, SetChoice, UserOK;
    forall st': State, i: nat, v | UserOK(cfg, st'.user) && i < |cfg.syms|
      ensures UserOK(cfg, SetSym(cfg, st', i, v).user)
    {
      SetSymOK(cfg, st', i, v);
    }
    forall st': State, c: nat, v | UserOK(cfg, st'.user) && c < |cfg.choices|
      ensures UserOK(cfg, SetChoice(cfg, st', c, v).user)
    {
      SetChoiceOK(cfg, st', c, v);
    }
    forall i | 0 <= i < |cfg.syms| && cfg.syms[i].choice.Some?
      ensures cfg.syms[i].choice.value < |cfg.choices|
    {
      assert SymOK(cfg, i);
    }
  }

  lemma {:induction false} LoadLinesOK(cfg: Config, st: State, lines: seq<string>)
    requires ConfigOK(cfg) && UserOK(cfg, st.user)
    ensures UserOK(cfg, LoadLines(cfg, st, lines).user)
  {
    hide LoadLine, UserOK, ConfigOK;
    if lines != [] {
      LoadLinesOK(cfg, st, lines[..|lines| - 1]);
      LoadLineOK(cfg, LoadLines(cfg, st, lines[..|lines| - 1]), lines[|lines| - 1]);
    }
  }

  lemma LoadConfigOK(cfg: Config, st: State, lines: seq<string>, replace: bool)
    requires ConfigOK(cfg) && UserOK(cfg, st.user)
    ensures UserOK(cfg, LoadConfig(cfg, st, lines, replace).user)
  {
    LoadLinesOK(cfg, st, lines);
    LoadLinesOK(cfg, ClearFlags(cfg, st), lines);
  }

  // ---------- Replacing compared with clearing and merging ----------

  /** Kconfig.unset_values() on a state with cleared flags. */
  function UnsetAll(cfg: Config, st: State): State {
    State(User(map i | i in st.user.sym && !cfg.Sym(i).defined :: st.user.sym[i], map[], map[]),
          ClearFlags(cfg, st).flags)
  }

  /** a is loaded from the old state and b from the cleared one. What the file has set is the
      same in both, and what it has not set is still old in a and absent in b. The user
      selection of a choice is only set by an assignment of y. */
  ghost predicate Parallel(cfg: Config, old_: User, a: State, b: State) {
    && a.flags == b.flags
    && (forall i :: !cfg.Sym(i).defined || S(i) in a.flags ==> UserOf(a.user, i) == UserOf(b.user, i))
    && (forall i :: cfg.Sym(i).defined && S(i) !in a.flags ==> i !in b.user.sym)
    && (forall c :: C(c) in a.flags ==> ModeOf(a.user, c) == ModeOf(b.user, c))
    && (forall c :: C(c) !in a.flags ==> c !in b.user.mode && c !in b.user.selection)
    && (forall c :: c in b.user.selection ==> SelectionOf(a.user, c) == SelectionOf(b.user, c))
    && (forall c :: c !in b.user.selection ==> SelectionOf(a.user, c) == SelectionOf(old_, c))
  }

  lemma SetChoiceParallel(cfg: Config, old_: User, a: State, b: State, c: nat, v: UVal)
    requires Parallel(cfg, old_, a, b)
    ensures Parallel(cfg, old_, SetChoice(cfg, a, c, v), SetChoice(cfg, b, c, v))
  {
  }

  /** Before an assignment of y the mode must be the same in both states, or be set already. */
  lemma SetSymParallel(cfg: Config, old_: User, a: State, b: State, i: nat, v: UVal)
    requires UserOK(cfg, a.user) && UserOK(cfg, b.user)
    requires Parallel(cfg, old_, a, b) && i < |cfg.syms| && cfg.Sym(i).defined
    requires cfg.Sym(i).choice.Some? && Normalize(cfg.Sym(i).typ, v) == UTri(2) ==>
               ModeOf(a.user, cfg.Sym(i).choice.value) == ModeOf(b.user, cfg.Sym(i).choice.value)
    ensures Parallel(cfg, old_, SetSym(cfg, a, i, v), SetSym(cfg, b, i, v))
  {
    hide Parallel, ValidValue, Normalize, SetSym, AssignSym;
    SetSymAssigns(cfg, a, i, v);
    SetSymAssigns(cfg, b, i, v);
    AssignParallel(cfg, old_, a, b, i, Normalize(cfg.syms[i].typ, v));
  }

  /** An accepted value is stored, even if set_value() skips the assignment of the value the
      symbol has already. */
  lemma SetSymAssigns(cfg: Config, st: State, i: nat, v: UVal)
    requires UserOK(cfg, st.user) && i < |cfg.syms|
    ensures var value := Normalize(cfg.syms[i].typ, v);
            SetSym(cfg, st, i, v) ==
            if ValidValue(cfg.syms[i].typ, value) then AssignSym(cfg.syms[i], st, i, value) else st
  {
    var value := Normalize(cfg.syms[i].typ, v);
    if UserOf(st.user, i) == Some(value) {
      assert st.user.sym[i := value] == st.user.sym;
    }
  }

  lemma StoreParallel(cfg: Config, old_: User, a: State, b: State, i: nat, value: UVal)
    requires Parallel(cfg, old_, a, b)
    ensures Parallel(cfg, old_, State(a.user.(sym := a.user.sym[i := value]), a.flags + {S(i)}),
                                State(b.user.(sym := b.user.sym[i := value]), b.flags + {S(i)}))
  {
  }

  lemma SelectParallel(cfg: Config, old_: User, a: State, b: State, c: nat, i: nat)
    requires Parallel(cfg, old_, a, b) && ModeOf(a.user, c) == ModeOf(b.user, c)
    ensures Parallel(cfg, old_, State(a.user.(selection := a.user.selection[c := i]), a.flags + {C(c)}),
                                State(b.user.(selection := b.user.selection[c := i]), b.flags + {C(c)}))
  {
  }

  lemma AssignParallel(cfg: Config, old_: User, a: State, b: State, i: nat, value: UVal)
    requires Parallel(cfg, old_, a, b) && i < |cfg.syms|
    requires cfg.syms[i].choice.Some? && value == UTri(2) ==>
               ModeOf(a.user, cfg.syms[i].choice.value) == ModeOf(b.user, cfg.syms[i].choice.value)
    ensures Parallel(cfg, old_, AssignSym(cfg.syms[i], a, i, value), AssignSym(cfg.syms[i], b, i, value))
  {
    hide Parallel;
    StoreParallel(cfg, old_, a, b, i, value);
    var c := cfg.syms[i].choice;
    if c.Some? && value == UTri(2) {
      var a1 := State(a.user.(sym := a.user.sym[i := value]), a.flags + {S(i)});
      var b1 := State(b.user.(sym := b.user.sym[i := value]), b.flags + {S(i)});
      SelectParallel(cfg, old_, a1, b1, c.value, i);
      assert a.flags + {S(i), C(c.value)} == a1.flags + {C(c.value)};
      assert b.flags + {S(i), C(c.value)} == b1.flags + {C(c.value)};
    }
  }

  lemma SetTriTextParallel(cfg: Config, old_: User, a: State, b: State, i: nat, text: string)
    requires ConfigOK(cfg) && UserOK(cfg, a.user) && UserOK(cfg, b.user)
    requires Parallel(cfg, old_, a, b) && i < |cfg.syms| && cfg.syms[i].defined
    ensures Parallel(cfg, old_, SetTriText(cfg, a, i, text), SetTriText(cfg, b, i, text))
  {
    hide Parallel;
    var c := cfg.syms[i].choice;
    assert SymOK(cfg, i);
    if c.Some? && text != "n" {
      SetChoiceParallel(cfg, old_, a, b, c.value, UStr(text));
      var a1, b1 := SetChoice(cfg, a, c.value, UStr(text)), SetChoice(cfg, b, c.value, UStr(text));
      if Normalize(cfg.syms[i].typ, UStr(text)) == UTri(2) {
        YSetsMode(cfg, a, b, c.value);
      }
      SetChoiceOK(cfg, a, c.value, UStr(text));
      SetChoiceOK(cfg, b, c.value, UStr(text));
      SetSymParallel(cfg, old_, a1, b1, i, UStr(text));
    } else {
      SetSymParallel(cfg, old_, a, b, i, UStr(text));
    }
  }

  /** Setting the mode to y succeeds, or no mode can ever be set. */
  lemma YSetsMode(cfg: Config, a: State, b: State, c: nat)
    requires UserOK(cfg, a.user) && UserOK(cfg, b.user) && c < |cfg.choices|
    ensures ModeOf(SetChoice(cfg, a, c, UStr("y")).user, c) == ModeOf(SetChoice(cfg, b, c, UStr("y")).user, c)
  {
    assert TriOfStr(UStr("y")) == UTri(2);
  }

  lemma LoadLineParallel(cfg: Config, old_: User, a: State, b: State, line: string)
    requires ConfigOK(cfg) && UserOK(cfg, a.user) && UserOK(cfg, b.user)
    requires Parallel(cfg, old_, a, b)
    ensures Parallel(cfg, old_, LoadLine(cfg, a, line), LoadLine(cfg, b, line))
  {
    hide Parallel, MatchSet, MatchUnset, MatchString, StripRight, Unescape, SetTriText, SetSym, ConfigOK, UserOK;
    forall i: nat, text | i < |cfg.syms| && cfg.syms[i].defined
      ensures Parallel(cfg, old_, SetTriText(cfg, a, i, text), SetTriText(cfg, b, i, text))
    {
      SetTriTextParallel(cfg, old_, a, b, i, text);
    }
    forall i: nat, v | i < |cfg.syms| && cfg.syms[i].defined && !IsBoolTri(cfg.syms[i].typ)
      ensures Parallel(cfg, old_, SetSym(cfg, a, i, v), SetSym(cfg, b, i, v))
    {
      OtherSymParallel(cfg, old_, a, b, i, v);
    }
  }

  lemma OtherSymParallel(cfg: Config, old_: User, a: State, b: State, i: nat, v: UVal)
    requires UserOK(cfg, a.user) && UserOK(cfg, b.user)
    requires Parallel(cfg, old_, a, b) && i < |cfg.syms| && cfg.Sym(i).defined && !IsBoolTri(cfg.Sym(i).typ)
    ensures Parallel(cfg, old_, SetSym(cfg, a, i, v), SetSym(cfg, b, i, v))
  {
    if v == UTri(2) {
      assert !ValidValue(cfg.syms[i].typ, v);
      assert UserOf(a.user, i) != Some(v) && UserOf(b.user, i) != Some(v);
    } else {
      SetSymParallel(cfg, old_, a, b, i, v);
    }
  }

  lemma {:induction false} LoadLinesParallel(cfg: Config, old_: User, a: State, b: State, lines: seq<string>)
    requires ConfigOK(cfg) && UserOK(cfg, a.user) && UserOK(cfg, b.user)
    requires Parallel(cfg, old_, a, b)
    ensures Parallel(cfg, old_, LoadLines(cfg, a, lines), LoadLines(cfg, b, lines))
  {
    hide Parallel, LoadLine, ConfigOK, UserOK;
    if lines != [] {
      var rest := lines[..|lines| - 1];
      LoadLinesParallel(cfg, old_, a, b, rest);
      LoadLinesOK(cfg, a, rest);
      LoadLinesOK(cfg, b, rest);
      LoadLineParallel(cfg, old_, LoadLines(cfg, a, rest), LoadLines(cfg, b, rest), lines[|lines| - 1]);
    }
  }

  // ---------- What a file says about choices ----------

  /** The bool or tristate symbol a line assigns, and n, m or y. */
  function TriAssignment(cfg: Config, rawLine: string): Option<(nat, string)> {
    var line := StripRight(rawLine);
    match MatchSet(line)
    case Some((name, val)) =>
      (match Lookup(cfg.syms, name)
       case None => None
       case Some(i) =>
         if IsBoolTri(cfg.Sym(i).typ) && ValidTriText(cfg.Sym(i).typ, val) then Some((i, [val[0]])) else None)
    case None =>
      match MatchUnset(line)
      case None => None
      case Some(name) =>
        match Lookup(cfg.syms, name)
        case None => None
        case Some(i) => if IsBoolTri(cfg.Sym(i).typ) then Some((i, "n")) else None
  }

  /** The line assigns the value to a member of the choice. */
  predicate AssignsMember(cfg: Config, line: string, c: nat, text: string) {
    match TriAssignment(cfg, line)
    case None => false
    case Some((i, t)) => t == text && cfg.Sym(i).choice == Some(c)
  }

  predicate FileAssignsMember(cfg: Config, lines: seq<string>, c: nat, text: string) {
    exists k :: 0 <= k < |lines| && AssignsMember(cfg, lines[k], c, text)
  }

  /** Assignments of m set the mode of a tristate choice, and assignments of y set the mode
      and the selection. */
  lemma SetTriTextChoice(cfg: Config, st: State, i: nat, text: string, c: nat)
    requires ConfigOK(cfg) && UserOK(cfg, st.user) && i < |cfg.syms| && IsBoolTri(cfg.syms[i].typ)
    requires text == "n" || text == "y" || (text == "m" && cfg.syms[i].typ == TRISTATE)
    ensures var st', mine := SetTriText(cfg, st, i, text), cfg.syms[i].choice == Some(c);
            && (c in st'.user.selection <==> c in st.user.selection || (mine && text == "y"))
            && (C(c) in st'.flags <==>
                  || C(c) in st.flags
                  || (mine && (text == "y" || (text == "m" && cfg.Choice(c).typ == TRISTATE))))
  {
    assert SymOK(cfg, i);
    var d := cfg.syms[i];
    var st1 := if d.choice.Some? && text != "n" then SetChoice(cfg, st, d.choice.value, UStr(text)) else st;
    if d.choice.Some? {
      SetChoiceOK(cfg, st, d.choice.value, UStr(text));
    }
    SetSymAssigns(cfg, st1, i, UStr(text));
    assert "n" != "y" && "m" != "y" && "n" != "m";
    hide ConfigOK, UserOK, SetSym;
  }

  lemma LoadLineTriText(cfg: Config, st: State, line: string)
    ensures match TriAssignment(cfg, line)
            case None =>
              var st' := LoadLine(cfg, st, line);
              st'.user.selection == st.user.selection && (forall c :: C(c) in st'.flags <==> C(c) in st.flags)
            case Some((i, text)) =>
              && LoadLine(cfg, st, line) == SetTriText(cfg, st, i, text)
              && i < |cfg.syms| && IsBoolTri(cfg.syms[i].typ)
              && (text == "n" || text == "y" || (text == "m" && cfg.syms[i].typ == TRISTATE))
  {
    hide MatchSet, MatchUnset, MatchString, StripRight, Unescape, SetTriText;
  }

  lemma LoadLineChoice(cfg: Config, st: State, line: string, c: nat)
    requires ConfigOK(cfg) && UserOK(cfg, st.user)
    ensures var st' := LoadLine(cfg, st, line);
            && (c in st'.user.selection <==> c in st.user.selection || AssignsMember(cfg, line, c, "y"))
            && (C(c) in st'.flags <==>
                  || C(c) in st.flags || AssignsMember(cfg, line, c, "y")
                  || (AssignsMember(cfg, line, c, "m") && cfg.Choice(c).typ == TRISTATE))
  {
    LoadLineTriText(cfg, st, line);
    hide ConfigOK, UserOK, LoadLine, SetTriText, TriAssignment;
    match TriAssignment(cfg, line) {
      case Some((i, text)) => SetTriTextChoice(cfg, st, i, text, c);
      case None =>
    }
  }

  lemma {:induction false} LoadLinesChoice(cfg: Config, st: State, lines: seq<string>, c: nat)
    requires ConfigOK(cfg) && UserOK(cfg, st.user)
    ensures var st' := LoadLines(cfg, st, lines);
            && (c in st'.user.selection <==> c in st.user.selection || FileAssignsMember(cfg, lines, c, "y"))
            && (C(c) in st'.flags <==>
                  || C(c) in st.flags || FileAssignsMember(cfg, lines, c, "y")
                  || (FileAssignsMember(cfg, lines, c, "m") && cfg.Choice(c).typ == TRISTATE))
  {
    hide LoadLine, ConfigOK, UserOK, AssignsMember;
    if lines != [] {
      var n := |lines| - 1;
      var rest := lines[..n];
      LoadLinesChoice(cfg, st, rest, c);
      LoadLinesOK(cfg, st, rest);
      LoadLineChoice(cfg, LoadLines(cfg, st, rest), lines[n], c);
      forall text: string
        ensures FileAssignsMember(cfg, lines, c, text) <==>
                FileAssignsMember(cfg, rest, c, text) || AssignsMember(cfg, lines[n], c, text)
      {
        forall k | 0 <= k < n
          ensures rest[k] == lines[k]
        {
        }
        if FileAssignsMember(cfg, rest, c, text) {
          var k :| 0 <= k < n && AssignsMember(cfg, rest[k], c, text);
          assert AssignsMember(cfg, lines[k], c, text);
        }
      }
    }
  }

  // ---------- The theorem ----------

  /** The old selection of the choice is neither replaced nor dropped: an m is assigned to a
      member, which marks the tristate choice as set, and no y is. */
  predicate KeepsOldSelection(cfg: Config, lines: seq<string>, c: nat) {
    && cfg.Choice(c).typ == TRISTATE
    && FileAssignsMember(cfg, lines, c, "m") && !FileAssignsMember(cfg, lines, c, "y")
  }

  /** Replacing gives the same user values, modes and selections as clearing everything and
      then merging, from any earlier state, except that the old user selection of a choice
      survives if the file assigns m and no y to the members of the choice. */
  lemma ReplaceIsClearThenMerge(cfg: Config, st: State, lines: seq<string>)
    requires ConfigOK(cfg) && UserOK(cfg, st.user)
    ensures LoadConfig(cfg, st, lines, true).user == LoadLines(cfg, UnsetAll(cfg, st), lines).user <==>
            forall c :: c in st.user.selection ==> !KeepsOldSelection(cfg, lines, c)
  {
    hide LoadLines, ConfigOK, Parallel, FileAssignsMember, UnsetUnflagged;
    var a0, b0 := ClearFlags(cfg, st), UnsetAll(cfg, st);
    StartParallel(cfg, st);
    LoadLinesParallel(cfg, st.user, a0, b0, lines);
    var a, b := LoadLines(cfg, a0, lines), LoadLines(cfg, b0, lines);
    LoadLinesOK(cfg, a0, lines);
    SameFlags(cfg, st.user, a, b);
    forall c: nat
      ensures C(c) in a.flags && c !in b.user.selection && c in st.user.selection <==>
              c in st.user.selection && KeepsOldSelection(cfg, lines, c)
    {
      LoadLinesChoice(cfg, b0, lines, c);
    }
    DroppedUser(cfg, st.user, a, b);
  }

  lemma StartParallel(cfg: Config, st: State)
    requires UserOK(cfg, st.user)
    ensures Parallel(cfg, st.user, ClearFlags(cfg, st), UnsetAll(cfg, st))
    ensures UserOK(cfg, UnsetAll(cfg, st).user)
  {
  }

  lemma SameFlags(cfg: Config, old_: User, a: State, b: State)
    requires Parallel(cfg, old_, a, b)
    ensures a.flags == b.flags
  {
  }

  lemma DroppedValues(cfg: Config, old_: User, a: State, b: State)
    requires Parallel(cfg, old_, a, b)
    ensures UnsetUnflagged(cfg, a).user.sym == b.user.sym
  {
    var u := UnsetUnflagged(cfg, a).user;
    forall i: nat
      ensures UserOf(u, i) == UserOf(b.user, i)
    {
    }
    assert forall i :: i in u.sym ==> UserOf(u, i) == Some(u.sym[i]);
    assert forall i :: i in b.user.sym ==> UserOf(b.user, i) == Some(b.user.sym[i]);
  }

  lemma DroppedModes(cfg: Config, old_: User, a: State, b: State)
    requires Parallel(cfg, old_, a, b) && UserOK(cfg, a.user)
    ensures UnsetUnflagged(cfg, a).user.mode == b.user.mode
  {
    hide ValidValue;
    var u := UnsetUnflagged(cfg, a).user;
    forall c: nat
      ensures ModeOf(u, c) == ModeOf(b.user, c)
    {
    }
    assert forall i :: i in u.mode ==> ModeOf(u, i) == Some(u.mode[i]);
    assert forall i :: i in b.user.mode ==> ModeOf(b.user, i) == Some(b.user.mode[i]);
  }

  lemma DroppedSelection(cfg: Config, old_: User, a: State, b: State, c: nat)
    requires Parallel(cfg, old_, a, b) && UserOK(cfg, a.user)
    ensures SelectionOf(UnsetUnflagged(cfg, a).user, c) == SelectionOf(b.user, c) <==>
            (C(c) in a.flags && c !in b.user.selection ==> c !in old_.selection)
  {
    hide ValidValue;
    assert SelectionOf(a.user, c) == if c in b.user.selection then SelectionOf(b.user, c) else SelectionOf(old_, c);
  }

  lemma SelectionsEqual(u: User, u': User)
    ensures u.selection == u'.selection <==> forall c: nat :: SelectionOf(u, c) == SelectionOf(u', c)
  {
    if forall c: nat :: SelectionOf(u, c) == SelectionOf(u', c) {
      assert forall c :: c in u.selection ==> SelectionOf(u, c) == Some(u.selection[c]);
      assert forall c :: c in u'.selection ==> SelectionOf(u', c) == Some(u'.selection[c]);
    }
  }

  lemma DroppedSelections(cfg: Config, old_: User, a: State, b: State)
    requires Parallel(cfg, old_, a, b) && UserOK(cfg, a.user)
    ensures UnsetUnflagged(cfg, a).user.selection == b.user.selection <==>
            forall c :: C(c) in a.flags && c !in b.user.selection ==> c !in old_.selection
  {
    hide Parallel, UserOK, UnsetUnflagged, SelectionOf;
    forall c: nat
      ensures SelectionOf(UnsetUnflagged(cfg, a).user, c) == SelectionOf(b.user, c) <==>
              (C(c) in a.flags && c !in b.user.selection ==> c !in old_.selection)
    {
      DroppedSelection(cfg, old_, a, b, c);
    }
    SelectionsEqual(UnsetUnflagged(cfg, a).user, b.user);
  }

  /** After dropping what is not flagged, only old selections can make a difference. */
  lemma DroppedUser(cfg: Config, old_: User, a: State, b: State)
    requires Parallel(cfg, old_, a, b) && UserOK(cfg, a.user)
    ensures UnsetUnflagged(cfg, a).user == b.user <==>
            forall c :: C(c) in a.flags && c !in b.user.selection ==> c !in old_.selection
  {
    hide Parallel, UserOK, UnsetUnflagged;
    DroppedValues(cfg, old_, a, b);
    DroppedModes(cfg, old_, a, b);
    DroppedSelections(cfg, old_, a, b);
  }

  // ---------- The flags do not influence merging ----------

  lemma LoadLineUser(cfg: Config, a: State, b: State, line: string)
    requires a.user == b.user
    ensures LoadLine(cfg, a, line).user == LoadLine(cfg, b, line).user
  {
    hide MatchSet, MatchUnset, MatchString, StripRight, Unescape, Lookup, ValidValue;
  }

  /** Merging a file gives the same user state whatever was flagged before. */
  lemma {:induction false} LoadLinesUser(cfg: Config, a: State, b: State, lines: seq<string>)
    requires a.user == b.user
    ensures LoadLines(cfg, a, lines).user == LoadLines(cfg, b, lines).user
  {
    hide LoadLine;
    if lines != [] {
      var rest := lines[..|lines| - 1];
      LoadLinesUser(cfg, a, b, rest);
      LoadLineUser(cfg, LoadLines(cfg, a, rest), LoadLines(cfg, b, rest), lines[|lines| - 1]);
    }
  }
}
