/** The auto.conf file that records the configuration of the previous build, and the files
    that are touched for symbols whose value has changed since. */
module SyncDeps {
  import opened Types
  import opened Numbers
  import opened Semantics
  import opened Evaluation
  import opened Caching
  import opened ConfigText
  import opened ReadBack
  import opened FullConfig
  import opened ConfigFile
  import opened Engine

  // ---------- What is recorded ----------

  /** Symbols that are written out, except bool and tristate symbols with the value n. */
  ghost function RecordedSyms(cfg: Config, u: User): set<nat>
    requires Acyclic(cfg)
  {
    set i | i in Written(cfg, u) && !(IsBoolTri(cfg.syms[i].typ) && Eval(cfg, u, TriV(i)).t == 0)
  }

  ghost function Record(cfg: Config, u: User): map<nat, string>
    requires Acyclic(cfg)
  {
    map i | i in RecordedSyms(cfg, u) :: Eval(cfg, u, StrV(i)).s
  }

  /** _old_vals_contents(), line by line. */
  ghost function RecordLines(cfg: Config, u: User, n: nat): seq<string>
    requires Acyclic(cfg) && n <= |cfg.syms|
  {
    LinesFor(cfg, EnvOf(cfg, u), RecordedSyms(cfg, u), n)
  }

  // ---------- Reading the record ----------

  /** The symbol with the name in the symbol dictionary, which holds all symbols that are not
      constants, defined or not. */
  function LookupAny(syms: seq<SymDef>, name: string): (r: Option<nat>)
    ensures r.Some? ==> r.value < |syms| && !syms[r.value].isConstant && syms[r.value].name == name
  {
    if syms == [] then None
    else if !syms[|syms| - 1].isConstant && syms[|syms| - 1].name == name then Some(|syms| - 1)
    else LookupAny(syms[..|syms| - 1], name)
  }

  /** The names in the dictionary are different. */
  predicate DictionaryOK(cfg: Config) {
    && (forall i :: 0 <= i < |cfg.syms| && cfg.syms[i].defined ==> !cfg.syms[i].isConstant && NameOK(cfg.syms[i].name))
    && (forall i, j :: 0 <= i < j < |cfg.syms| && !cfg.syms[i].isConstant && !cfg.syms[j].isConstant ==>
          cfg.syms[i].name != cfg.syms[j].name)
  }

  lemma {:induction false} LookupAnyFinds(syms: seq<SymDef>, i: nat)
    requires i < |syms| && !syms[i].isConstant
    requires forall j :: 0 <= j < |syms| && j != i && !syms[j].isConstant ==> syms[j].name != syms[i].name
    ensures LookupAny(syms, syms[i].name) == Some(i)
  {
    var n := |syms| - 1;
    if i < n {
      assert forall j :: 0 <= j < n ==> syms[..n][j] == syms[j];
      LookupAnyFinds(syms[..n], i);
    }
  }

  /** The old values, and the names of symbols that no longer exist. */
  datatype OldVals = OldVals(vals: map<nat, string>, gone: seq<string>)

  function OldLine(cfg: Config, old_: OldVals, line: string): OldVals {
    match MatchSet(line)
    case None => old_
    case Some((name, val)) =>
      match LookupAny(cfg.syms, name)
      case None => old_.(gone := old_.gone + [name])
      case Some(i) =>
        if cfg.Sym(i).typ == STRING then
          match MatchString(val)
          case None => old_
          case Some(group) => old_.(vals := old_.vals[i := Unescape(group)])
        else old_.(vals := old_.vals[i := val])
  }

  /** Kconfig._load_old_vals() */
  function OldLines(cfg: Config, lines: seq<string>): OldVals {
    if lines == [] then OldVals(map[], [])
    else OldLine(cfg, OldLines(cfg, lines[..|lines| - 1]), lines[|lines| - 1])
  }

  // ---------- The record can be read back ----------

  ghost predicate Recordable(cfg: Config, u: User) {
    && ConfigOK(cfg) && UserOK(cfg, u) && DictionaryOK(cfg) && OneLiners(cfg, u)
  }

  lemma NoNewlineInQuoted(s: string)
    requires '\n' !in s
    ensures '\n' !in Quoted(s)
  {
    NoNewlineQuoted(s);
  }

  lemma ReadRecordLine(cfg: Config, u: User, old_: OldVals, i: nat)
    requires Recordable(cfg, u) && i in RecordedSyms(cfg, u)
    ensures OldLine(cfg, old_, ConfigString(cfg.syms[i], Eval(cfg, u, StrV(i)).s)) ==
            old_.(vals := old_.vals[i := Eval(cfg, u, StrV(i)).s])
  {
    var d, val := cfg.syms[i], Eval(cfg, u, StrV(i)).s;
    LookupAnyFinds(cfg.syms, i);
    if d.typ == UNKNOWN {
      NeverUnknown(cfg, u, i);
    }
    if IsBoolTri(d.typ) {
      BoolTriText(cfg, u, i);
      NotN(Eval(cfg, u, TriV(i)).t);
    }
    hide Eval, MatchSet, MatchString, Quoted, Unescape, LookupAny, ConfigOK, UserOK, NameOK;
    if d.typ == STRING {
      NoNewlineInQuoted(val);
      MatchSetText(d.name, Quoted(val));
      StringRoundTrip(val);
    } else {
      MatchSetText(d.name, val);
    }
  }

  lemma NotN(t: Tri)
    ensures TriStr(t) == "n" <==> t == 0
  {
  }

  /** The record of the symbols before the n-th. */
  ghost function RecordUpTo(cfg: Config, u: User, n: nat): map<nat, string>
    requires Acyclic(cfg)
  {
    map i | i in RecordedSyms(cfg, u) && i < n :: Eval(cfg, u, StrV(i)).s
  }

  lemma {:induction false} ReadRecordUpTo(cfg: Config, u: User, n: nat)
    requires Recordable(cfg, u) && n <= |cfg.syms|
    ensures OldLines(cfg, RecordLines(cfg, u, n)) == OldVals(RecordUpTo(cfg, u, n), [])
  {
    hide Eval, OldLine, ConfigString, Recordable, RecordedSyms;
    Premises(cfg, u);
    if n == 0 {
      assert RecordUpTo(cfg, u, 0) == map[];
    } else {
      var i, before := n - 1, RecordLines(cfg, u, n - 1);
      ReadRecordUpTo(cfg, u, i);
      if i in RecordedSyms(cfg, u) {
        ReadRecordLine(cfg, u, OldLines(cfg, before), i);
        var lines := RecordLines(cfg, u, n);
        assert lines[..|lines| - 1] == before;
        assert RecordUpTo(cfg, u, n) == RecordUpTo(cfg, u, i)[i := Eval(cfg, u, StrV(i)).s];
      } else {
        assert RecordLines(cfg, u, n) == before;
        assert RecordUpTo(cfg, u, n) == RecordUpTo(cfg, u, i);
      }
    }
  }

  lemma Premises(cfg: Config, u: User)
    requires Recordable(cfg, u)
    ensures Acyclic(cfg) && ConfigOK(cfg) && UserOK(cfg, u)
  {
  }

  /** Reading the record back gives all recorded values, and no symbol is missing. */
  lemma ReadRecord(cfg: Config, u: User)
    requires Recordable(cfg, u)
    ensures OldLines(cfg, RecordLines(cfg, u, |cfg.syms|)) == OldVals(Record(cfg, u), [])
  {
    ReadRecordUpTo(cfg, u, |cfg.syms|);
    hide Eval;
    assert RecordUpTo(cfg, u, |cfg.syms|) == Record(cfg, u);
  }

  // ---------- Comparing ----------

  function OldOf(old_: map<nat, string>, i: nat): Option<string> {
    if i in old_ then Some(old_[i]) else None
  }

  /** The test of sync_deps() for one symbol. */
  predicate Touches(d: SymDef, val: string, write: bool, old_: Option<string>) {
    if write then
      !(old_ == None && IsBoolTri(d.typ) && val == "n") && old_ != Some(val)
    else old_ != None
  }

  /** A symbol is touched exactly if its recorded value differs from the old one, provided the
      old value is not the n of a bool or tristate symbol, which is never recorded. */
  lemma TouchesMeansChanged(cfg: Config, u: User, i: nat, old_: Option<string>)
    requires ConfigOK(cfg) && UserOK(cfg, u) && i < |cfg.syms| && cfg.syms[i].defined
    requires IsBoolTri(cfg.syms[i].typ) ==> old_ != Some("n")
    ensures Touches(cfg.syms[i], Eval(cfg, u, StrV(i)).s, Eval(cfg, u, StrV(i)).w, old_) <==>
            OldOf(Record(cfg, u), i) != old_
  {
    if IsBoolTri(cfg.syms[i].typ) {
      BoolTriText(cfg, u, i);
      NotN(Eval(cfg, u, TriV(i)).t);
    }
    hide Eval, ConfigOK, UserOK;
  }

  lemma NeverRecordsN(cfg: Config, u: User, i: nat)
    requires ConfigOK(cfg) && UserOK(cfg, u) && i < |cfg.syms| && IsBoolTri(cfg.syms[i].typ)
    ensures OldOf(Record(cfg, u), i) != Some("n")
  {
    BoolTriText(cfg, u, i);
    NotN(Eval(cfg, u, TriV(i)).t);
    hide Eval, ConfigOK, UserOK;
  }

  /** The recorded value of a defined symbol differs from the old one. */
  ghost predicate Changed(cfg: Config, u: User, old_: map<nat, string>, i: nat) {
    && Acyclic(cfg) && i < |cfg.syms| && cfg.syms[i].defined
    && OldOf(Record(cfg, u), i) != OldOf(old_, i)
  }

  // ---------- The directory ----------

  /** The directory of sync_deps(): auto.conf, if it exists, and the symbols whose files the
      last sync touched. */
  class Directory {
    var autoConf: Option<seq<string>>
    var touched: set<nat>
    var touchedNames: seq<string>

    /** The values recorded at the last sync, none before the first. */
    ghost var last: map<nat, string>

    ghost predicate Valid(cfg: Config)
      reads this
    {
      && (match autoConf
          case None => last == map[]
          case Some(lines) => OldLines(cfg, lines) == OldVals(last, []))
      && (forall i :: i in last && i < |cfg.syms| && IsBoolTri(cfg.syms[i].typ) ==> last[i] != "n")
    }

    constructor (cfg: Config)
      ensures Valid(cfg) && autoConf == None && last == map[]
    {
      autoConf, touched, touchedNames, last := None, {}, [], map[];
    }

    method LoadOldVals(cfg: Config) returns (old_: OldVals)
      requires Valid(cfg)
      ensures old_ == OldVals(last, [])
    {
      hide OldLine;
      if autoConf.None? {
        return OldVals(map[], []);
      }
      var lines := autoConf.value;
      old_ := OldVals(map[], []);
      var n := 0;
      while n < |lines|
        invariant 0 <= n <= |lines| && old_ == OldLines(cfg, lines[..n])
      {
        assert lines[..n + 1][..n] == lines[..n];
        old_ := OldLine(cfg, old_, lines[n]);
        n := n + 1;
      }
      assert lines[..n] == lines;
    }

    /** Kconfig.sync_deps(). The files of exactly those symbols are touched whose recorded value
        differs from the one at the last sync, a symbol that is absent counting as n if it is
        bool or tristate. The new values are recorded. */
    method Sync(k: Kconfig)
      requires k.Valid() && Valid(k.cfg) && Recordable(k.cfg, k.user)
      modifies this, k`cache, k.syms, k.choices
      ensures k.Valid() && Valid(k.cfg) && Acyclic(k.cfg)
      ensures forall i: nat :: i in touched <==> Changed(k.cfg, k.user, old(last), i)
      ensures touchedNames == [] && last == Record(k.cfg, k.user)
    {
      hide k.Valid, Eval, Acyclic, Record, RecordedSyms, Touches, OldLines, ConfigString, Recordable;
      Premises(k.cfg, k.user);
      k.Basics();
      var old_ := LoadOldVals(k.cfg);
      ghost var before := last;
      touchedNames := old_.gone;
      touched := {};
      var lines := [];
      var i := 0;
      while i < |k.cfg.syms|
        invariant 0 <= i <= |k.cfg.syms| && k.Valid() && last == before && touchedNames == []
        invariant forall j: nat :: j in touched <==> j < i && Changed(k.cfg, k.user, before, j)
      {
        if k.cfg.syms[i].defined {
          var val, write := k.WrittenValue(i);
          TouchesMeansChanged(k.cfg, k.user, i, OldOf(before, i));
          if Touches(k.cfg.syms[i], val, write, OldOf(old_.vals, i)) {
            touched := touched + {i};
          }
        }
        i := i + 1;
      }
      lines := Contents(k);
      autoConf := Some(lines);
      last := Record(k.cfg, k.user);
      ReadRecord(k.cfg, k.user);
      forall j | j in last && j < |k.cfg.syms| && IsBoolTri(k.cfg.syms[j].typ)
        ensures last[j] != "n"
      {
        NeverRecordsN(k.cfg, k.user, j);
      }
    }

    /** A second sync without a change in between touches nothing. */
    method SyncAgain(k: Kconfig)
      requires k.Valid() && Valid(k.cfg) && Recordable(k.cfg, k.user)
      modifies this, k`cache, k.syms, k.choices
      ensures k.Valid() && Valid(k.cfg) && touched == {} && touchedNames == []
    {
      hide k.Valid, Record, OldLines, Recordable;
      Sync(k);
      Sync(k);
    }
  }

  /** Kconfig._old_vals_contents() */
  method Contents(k: Kconfig) returns (lines: seq<string>)
    requires k.Valid()
    modifies k`cache, k.syms, k.choices
    ensures k.Valid() && Acyclic(k.cfg) && lines == RecordLines(k.cfg, k.user, |k.cfg.syms|)
  {
    hide k.Valid, ConfigString, Eval;
    k.Basics();
    lines := [];
    var i := 0;
    while i < |k.cfg.syms|
      invariant 0 <= i <= |k.cfg.syms| && k.Valid()
      invariant lines == RecordLines(k.cfg, k.user, i)
    {
      if k.cfg.syms[i].defined {
        var skip := false;
        if IsBoolTri(k.cfg.syms[i].typ) {
          var t := k.TriValue(i);
          skip := t == 0;
        }
        if !skip {
          var val, write := k.WrittenValue(i);
          if write {
            lines := lines + [ConfigString(k.cfg.syms[i], val)];
          }
        }
      }
      i := i + 1;
    }
  }
}
