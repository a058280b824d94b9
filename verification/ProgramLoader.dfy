/** Collecting program definitions: .ini files first, .desktop files for names not yet defined, then one sort. */
module ProgramLoader {
  import opened NameOrder
  import opened Programs

  datatype Source = Ini | Desktop

  /** What a definition file holds. `Invalid` stands for a file that cannot be read or has no command; `phases` are
      the values given for the phase, in order; the other fields are as parsed. */
  datatype Definition =
    | Invalid
    | Definition(phases: seq<string>, priority: int, enabled: bool, dependsOn: seq<Name>, startDelay: int,
              healthCheck: string)

  datatype File = File(name: string, isDir: bool, def: Definition)

  datatype Dir = Missing | Unreadable | Listing(files: seq<File>)

  datatype Load = Failed | Configs(configs: seq<Config>)

  // ---- one file ----

  /** From the last dot on. */
  function Ext(name: string): (e: string)
    ensures |e| <= |name|
  {
    if name == [] then ""
    else if name[|name|-1] == '.' then "."
    else
      var e := Ext(name[..|name|-1]);
      if e == "" then "" else e + [name[|name|-1]]
  }

  function LowerChar(c: char): char {
    if 'A' <= c <= 'Z' then c + ('a' - 'A') else c
  }

  function Lower(s: string): string {
    seq(|s|, i requires 0 <= i < |s| => LowerChar(s[i]))
  }

  /** An .ini file falls back to the default on an unknown phase, a .desktop file keeps the last known one. */
  function PhaseFrom(source: Source, phases: seq<string>): (p: string)
    ensures p == PHASE_EARLY || p == PHASE_POST
  {
    if phases == [] then PHASE_POST
    else
      var p := Lower(phases[|phases|-1]);
      if p == PHASE_EARLY || p == PHASE_POST then p
      else if source.Ini? then PHASE_POST
      else PhaseFrom(source, phases[..|phases|-1])
  }

  /** The suffix of a file name is what follows its last dot, with that dot; without a dot there is none. */
  lemma {:induction false} ExtMeaning(name: string, e: string)
    ensures Ext(name) == e <==>
              if '.' in name then exists stem, tail :: name == stem + "." + tail && '.' !in tail && e == "." + tail
              else e == ""
  {
    var stem, tail := LastDot(name);
    if '.' in name {
      assert name == stem + "." + tail;
      forall s, t | name == s + "." + t && '.' !in t
        ensures t == tail
      {
        assert name[|s|] == '.' && name[|stem|] == '.';
        assert forall i | |s| < i < |name| :: name[i] == t[i - |s| - 1] && t[i - |s| - 1] in t;
        assert forall i | |stem| < i < |name| :: name[i] == tail[i - |stem| - 1] && tail[i - |stem| - 1] in tail;
        assert t == name[|s| + 1..] && tail == name[|stem| + 1..];
      }
    }
  }

  lemma {:induction false} LastDot(name: string) returns (stem: string, tail: string)
    ensures '.' !in tail
    ensures '.' in name ==> name == stem + "." + tail && Ext(name) == "." + tail
    ensures '.' !in name ==> Ext(name) == ""
  {
    stem, tail := "", "";
    if name != [] {
      var front, c := name[..|name|-1], name[|name|-1];
      assert name == front + [c];
      if c == '.' {
        stem := front;
      } else {
        stem, tail := LastDot(front);
        tail := tail + [c];
        assert '.' in front ==> name == stem + "." + tail;
      }
    }
  }

  predicate SaysEarly(value: string) {
    |value| == 5 && forall i | 0 <= i < 5 :: value[i] == "early"[i] || value[i] == "EARLY"[i]
  }

  predicate SaysPost(value: string) {
    |value| == 4 && forall i | 0 <= i < 4 :: value[i] == "post"[i] || value[i] == "POST"[i]
  }

  lemma LowerMeaning(value: string)
    ensures Lower(value) == "early" <==> SaysEarly(value)
    ensures Lower(value) == "post" <==> SaysPost(value)
  {
    var low := Lower(value);
    assert |low| == 5 ==> (low == "early" <==> forall i | 0 <= i < 5 :: low[i] == "early"[i]);
    assert |low| == 4 ==> (low == "post" <==> forall i | 0 <= i < 4 :: low[i] == "post"[i]);
    assert forall i | 0 <= i < 5 :: LowerChar("EARLY"[i]) == "early"[i] == LowerChar("early"[i]);
    assert forall i | 0 <= i < 4 :: LowerChar("POST"[i]) == "post"[i] == LowerChar("post"[i]);
  }

  /** An .ini file puts its program in the early phase exactly when its last phase value says so, in letters of either
      case: an unknown value means post there. */
  lemma IniPhaseMeaning(phases: seq<string>)
    ensures PhaseFrom(Ini, phases) == "early" <==> phases != [] && SaysEarly(phases[|phases|-1])
    ensures PhaseFrom(Ini, phases) == "post" <==> !(phases != [] && SaysEarly(phases[|phases|-1]))
  {
    hide Lower;
    if phases != [] {
      LowerMeaning(phases[|phases|-1]);
    }
  }

  /** A .desktop file does so exactly when the last of its values that is a phase says so: unknown ones are skipped. */
  lemma {:induction false} DesktopPhaseMeaning(phases: seq<string>)
    ensures PhaseFrom(Desktop, phases) == "early" <==>
              exists i | 0 <= i < |phases| ::
                SaysEarly(phases[i]) && forall j | i < j < |phases| :: !SaysEarly(phases[j]) && !SaysPost(phases[j])
    ensures PhaseFrom(Desktop, phases) in {"early", "post"}
  {
    hide Lower, SaysEarly, SaysPost;
    if phases != [] {
      var front, last := phases[..|phases|-1], phases[|phases|-1];
      LowerMeaning(last);
      NotBoth(last);
      DesktopPhaseMeaning(front);
      assert forall j | 0 <= j < |front| :: front[j] == phases[j];
    }
  }

  lemma NotBoth(value: string)
    ensures !(SaysEarly(value) && SaysPost(value))
  {
  }

  function ConfigOf(source: Source, base: Name, d: Definition): (c: Config)
    requires d.Definition?
    ensures c.name == base && c.phase in {PHASE_EARLY, PHASE_POST}
  {
    Config(base, PhaseFrom(source, d.phases), d.priority, d.enabled, d.dependsOn, d.startDelay, d.healthCheck)
  }

  // ---- one directory ----

  predicate Matches(f: File, ext: string) {
    !f.isDir && Ext(f.name) == ext
  }

  function Base(f: File, ext: string): Name
    requires Matches(f, ext)
  {
    Name(f.name[..|f.name| - |ext|])
  }

  /** The names the listing defines. */
  function Bases(files: seq<File>, ext: string): set<Name> {
    set f | f in files && Matches(f, ext) :: Base(f, ext)
  }

  /** File `i` is the one that decides its name. */
  predicate Decides(files: seq<File>, ext: string, seen: set<Name>, i: nat) {
    && i < |files| && Matches(files[i], ext)
    && Base(files[i], ext) !in seen && Base(files[i], ext) !in Bases(files[..i], ext)
  }

  /** `c` is defined by the listing for a name not seen before. */
  ghost predicate Defines(files: seq<File>, ext: string, source: Source, seen: set<Name>, c: Config) {
    exists i: nat :: Decides(files, ext, seen, i) && files[i].def.Definition? &&
              c == ConfigOf(source, Base(files[i], ext), files[i].def)
  }

  ghost predicate Broken(files: seq<File>, ext: string, seen: set<Name>) {
    exists i: nat :: Decides(files, ext, seen, i) && files[i].def.Invalid?
  }

  /** No name twice, and no phase but the two. */
  ghost predicate Loaded(configs: seq<Config>) {
    && (forall i, j | 0 <= i < j < |configs| :: configs[i].name != configs[j].name)
    && (forall c | c in configs :: c.phase in {PHASE_EARLY, PHASE_POST})
  }

  // ---- what is defined, without the functions above ----

  /** This file is one of the two kinds of definition of the name. */
  predicate IsFileOf(f: File, ext: string, n: Name) {
    !f.isDir && f.name == n.text + ext
  }

  /** The phase values put the program in the early phase. */
  predicate SaysEarlyAtLast(source: Source, phases: seq<string>) {
    exists i | 0 <= i < |phases| ::
      && SaysEarly(phases[i])
      && forall j | i < j < |phases| :: source.Desktop? && !SaysEarly(phases[j]) && !SaysPost(phases[j])
  }

  /** The definition is what the file says, field by field. */
  predicate Copies(c: Config, source: Source, d: Definition) {
    && d.Definition?
    && c.phase == (if SaysEarlyAtLast(source, d.phases) then "early" else "post")
    && c.priority == d.priority && c.enabled == d.enabled && c.dependsOn == d.dependsOn
    && c.startDelay == d.startDelay && c.healthCheck == d.healthCheck
  }

  lemma PhaseMeaning(source: Source, phases: seq<string>)
    ensures PhaseFrom(source, phases) == if SaysEarlyAtLast(source, phases) then "early" else "post"
  {
    hide PhaseFrom, SaysEarly, SaysPost;
    match source
    case Ini => IniPhaseMeaning(phases);
    case Desktop => DesktopPhaseMeaning(phases);
  }

  lemma MatchIsFile(f: File, ext: string)
    requires Matches(f, ext) && ext != ""
    ensures f.name == Base(f, ext).text + ext
  {
    hide Ext;
    ExtMeaning(f.name, ext);
    var stem, t :| f.name == stem + "." + t && '.' !in t && ext == "." + t;
    assert f.name == stem + ext;
  }

  lemma FileMatches(f: File, ext: string, n: Name)
    requires IsFileOf(f, ext, n) && |ext| > 0 && ext[0] == '.' && '.' !in ext[1..]
    ensures Matches(f, ext) && Base(f, ext) == n
  {
    hide Ext;
    ExtMeaning(f.name, ext);
    assert ext == "." + ext[1..];
    assert f.name == n.text + "." + ext[1..];
    assert f.name[|n.text|] == '.';
  }

  lemma FileMeaning(f: File, ext: string, n: Name)
    requires ext in {".ini", ".desktop"}
    ensures Matches(f, ext) && Base(f, ext) == n <==> IsFileOf(f, ext, n)
  {
    hide Ext;
    if Matches(f, ext) {
      MatchIsFile(f, ext);
    }
    if IsFileOf(f, ext, n) {
      FileMatches(f, ext, n);
    }
  }

  lemma DecidesMeaning(files: seq<File>, ext: string, seen: set<Name>, i: nat, n: Name)
    requires ext in {".ini", ".desktop"}
    ensures Decides(files, ext, seen, i) && Base(files[i], ext) == n <==>
              && i < |files| && IsFileOf(files[i], ext, n) && n !in seen
              && forall j | 0 <= j < i :: !IsFileOf(files[j], ext, n)
  {
    hide Matches, IsFileOf;
    forall j | 0 <= j < |files|
      ensures Matches(files[j], ext) && Base(files[j], ext) == n <==> IsFileOf(files[j], ext, n)
    {
      FileMeaning(files[j], ext, n);
    }
    if i < |files| {
      assert forall j | 0 <= j < i :: files[..i][j] == files[j];
      assert n in Bases(files[..i], ext) <==> exists j | 0 <= j < i :: IsFileOf(files[j], ext, n);
    }
  }

  /** A definition comes from the first listed file of its name, unless the name was taken before, and says what that
      file says. */
  lemma DefinesMeaning(files: seq<File>, ext: string, source: Source, seen: set<Name>, c: Config)
    requires ext in {".ini", ".desktop"}
    ensures Defines(files, ext, source, seen, c) <==>
              && c.name !in seen
              && exists i | 0 <= i < |files| ::
                && IsFileOf(files[i], ext, c.name) && Copies(c, source, files[i].def)
                && forall j | 0 <= j < i :: !IsFileOf(files[j], ext, c.name)
  {
    hide Decides, IsFileOf, SaysEarlyAtLast, PhaseFrom;
    DecidesInside(files, ext, seen);
    forall i: nat | i < |files|
      ensures Decides(files, ext, seen, i) && Base(files[i], ext) == c.name <==>
                && IsFileOf(files[i], ext, c.name) && c.name !in seen
                && forall j | 0 <= j < i :: !IsFileOf(files[j], ext, c.name)
    {
      DecidesMeaning(files, ext, seen, i, c.name);
    }
    forall i: nat | i < |files| && files[i].def.Definition?
      ensures PhaseFrom(source, files[i].def.phases) ==
                if SaysEarlyAtLast(source, files[i].def.phases) then "early" else "post"
    {
      PhaseMeaning(source, files[i].def.phases);
    }
  }

  lemma DecidesInside(files: seq<File>, ext: string, seen: set<Name>)
    ensures forall i: nat | Decides(files, ext, seen, i) :: i < |files| && Matches(files[i], ext)
  {
  }

  /** A directory is broken exactly when the first listed file of some name not taken before is no definition. */
  lemma BrokenMeaning(files: seq<File>, ext: string, seen: set<Name>)
    requires ext in {".ini", ".desktop"}
    ensures Broken(files, ext, seen) <==>
              exists n: Name, i | 0 <= i < |files| ::
                && n !in seen && IsFileOf(files[i], ext, n) && files[i].def.Invalid?
                && forall j | 0 <= j < i :: !IsFileOf(files[j], ext, n)
  {
    hide Decides, IsFileOf, Base;
    DecidesInside(files, ext, seen);
    if Broken(files, ext, seen) {
      var i: nat :| Decides(files, ext, seen, i) && files[i].def.Invalid?;
      DecidesMeaning(files, ext, seen, i, Base(files[i], ext));
    }
    forall n: Name, i | 0 <= i < |files|
      && n !in seen && IsFileOf(files[i], ext, n) && files[i].def.Invalid?
      && forall j | 0 <= j < i :: !IsFileOf(files[j], ext, n)
      ensures Broken(files, ext, seen)
    {
      DecidesMeaning(files, ext, seen, i, n);
    }
  }

  lemma DecidesPrefix(files: seq<File>, ext: string, seen: set<Name>, n: nat, i: nat)
    requires i < n <= |files|
    ensures Decides(files[..n], ext, seen, i) <==> Decides(files, ext, seen, i)
  {
  }

  lemma BasesSnoc(files: seq<File>, ext: string, n: nat)
    requires n < |files|
    ensures Bases(files[..n+1], ext) == Bases(files[..n], ext) + (if Matches(files[n], ext) then {Base(files[n],
              ext)} else {})
  {
  }

  lemma DefinesSnoc(files: seq<File>, ext: string, source: Source, seen: set<Name>, n: nat)
    requires n < |files|
    ensures Broken(files[..n+1], ext, seen) <==>
              Broken(files[..n], ext, seen) || (Decides(files, ext, seen, n) && files[n].def.Invalid?)
    ensures forall c :: Defines(files[..n+1], ext, source, seen, c) <==>
              Defines(files[..n], ext, source, seen, c)
              || (Decides(files, ext, seen, n) && files[n].def.Definition? &&
                        c == ConfigOf(source, Base(files[n], ext), files[n].def))
  {
    hide ConfigOf, Matches, Bases;
    forall i: nat | i < n + 1
      ensures Decides(files[..n+1], ext, seen, i) <==> Decides(files, ext, seen, i)
      ensures i < n ==> (Decides(files[..n], ext, seen, i) <==> Decides(files, ext, seen, i))
    {
      DecidesPrefix(files, ext, seen, n + 1, i);
      if i < n {
        DecidesPrefix(files, ext, seen, n, i);
      }
    }
  }

  method ScanDir(files: seq<File>, ext: string, source: Source, seen0: set<Name>)
    returns (failed: bool, configs: seq<Config>, seen: set<Name>)
    ensures failed <==> Broken(files, ext, seen0)
    ensures !failed ==> seen == seen0 + Bases(files, ext) && Loaded(configs)
    ensures !failed ==> forall c :: c in configs <==> Defines(files, ext, source, seen0, c)
  {
    failed, configs, seen := false, [], seen0;
    var i := 0;
    while i < |files|
      invariant i <= |files| && !Broken(files[..i], ext, seen0)
      invariant seen == seen0 + Bases(files[..i], ext) && Loaded(configs)
      invariant forall c | c in configs :: c.name in seen
      invariant forall c :: c in configs <==> Defines(files[..i], ext, source, seen0, c)
    {
      BasesSnoc(files, ext, i);
      DefinesSnoc(files, ext, source, seen0, i);
      var f := files[i];
      i := i + 1;
      if f.isDir {
        continue;
      }
      if Ext(f.name) != ext {
        continue;
      }
      var base := Base(f, ext);
      if base in seen {
        continue;
      }
      seen := seen + {base};
      if f.def.Invalid? {
        StillBroken(files, ext, seen0, i);
        return true, [], seen;
      }
      configs := configs + [ConfigOf(source, base, f.def)];
    }
    assert files[..i] == files;
  }

  lemma StillBroken(files: seq<File>, ext: string, seen: set<Name>, n: nat)
    requires n <= |files| && Broken(files[..n], ext, seen)
    ensures Broken(files, ext, seen)
  {
    var i: nat :| Decides(files[..n], ext, seen, i) && files[..n][i].def.Invalid?;
    DecidesPrefix(files, ext, seen, n, i);
  }

  // ---- both directories, sorted ----

  function NamesOf(configs: seq<Config>): (r: seq<Name>)
    ensures |r| == |configs| && forall i | 0 <= i < |r| :: r[i] == configs[i].name
  {
    seq(|configs|, i requires 0 <= i < |configs| => configs[i].name)
  }

  /** Strictly ascending in phase, priority and name. */
  ghost predicate Sorted(configs: seq<Config>) {
    Ascending(LastOf(configs), NamesOf(configs))
  }

  lemma {:induction false} LastOfMember(configs: seq<Config>, c: Config)
    requires c in configs && Loaded(configs)
    ensures c.name in LastOf(configs) && LastOf(configs)[c.name] == c
  {
    var b, x := configs[..|configs|-1], configs[|configs|-1];
    assert configs == b + [x];
    if c != x {
      LastOfMember(b, c);
    }
  }

  lemma {:induction false} LastOfEntry(configs: seq<Config>, n: Name)
    requires n in LastOf(configs)
    ensures LastOf(configs)[n] in configs && LastOf(configs)[n].name == n
  {
    var c := configs[|configs|-1];
    if c.name != n {
      LastOfEntry(configs[..|configs|-1], n);
    }
  }

  lemma {:induction false} LastEnabled(configs: seq<Config>, n: Name)
    requires n in LastOf(configs) && LastOf(configs)[n].enabled
    ensures n in EnabledOf(configs) && EnabledOf(configs)[n] == LastOf(configs)[n]
  {
    var c := configs[|configs|-1];
    if c.name != n {
      LastEnabled(configs[..|configs|-1], n);
    }
  }

  /** What the loaders deliver gives such tables. */
  lemma LoadedTables(configs: seq<Config>)
    requires Loaded(configs)
    ensures Tables(LastOf(configs), EnabledOf(configs))
  {
    var progs, m := LastOf(configs), EnabledOf(configs);
    forall n | n in m ensures n in progs && m[n] == progs[n] {
      LastOfMember(configs, m[n]);
    }
    forall n | n in progs ensures progs[n].phase in {PHASE_EARLY, PHASE_POST} && (progs[n].enabled ==> n in m) {
      LastOfEntry(configs, n);
      if progs[n].enabled {
        LastEnabled(configs, n);
      }
    }
  }

  lemma SameTable(a: seq<Config>, b: seq<Config>)
    requires Loaded(a) && Loaded(b) && forall c :: c in a <==> c in b
    ensures LastOf(a) == LastOf(b)
  {
    forall n ensures n in LastOf(a) <==> n in LastOf(b) {
      if n in LastOf(a) {
        LastOfEntry(a, n);
        LastOfMember(b, LastOf(a)[n]);
      }
      if n in LastOf(b) {
        LastOfEntry(b, n);
        LastOfMember(a, LastOf(b)[n]);
      }
    }
    forall n | n in LastOf(a) ensures LastOf(a)[n] == LastOf(b)[n] {
      LastOfEntry(a, n);
      LastOfMember(b, LastOf(a)[n]);
    }
  }

  /** A set of definitions has one sorted list: neither the directory order nor the sorting algorithm shows. */
  lemma SortedIsUnique(a: seq<Config>, b: seq<Config>)
    requires Loaded(a) && Loaded(b) && Sorted(a) && Sorted(b) && forall c :: c in a <==> c in b
    ensures a == b
  {
    SameTable(a, b);
    var m, s, t := LastOf(a), NamesOf(a), NamesOf(b);
    forall x ensures x in s <==> x in t {
      if i :| 0 <= i < |s| && s[i] == x {
        assert a[i] in b;
      }
      if i :| 0 <= i < |t| && t[i] == x {
        assert b[i] in a;
      }
    }
    AscendingUnique(m, s, t);
    forall i | 0 <= i < |a| ensures a[i] == b[i] {
      LastOfMember(a, a[i]);
      LastOfMember(b, b[i]);
      assert s[i] == t[i];
    }
  }

  lemma NamesInTable(configs: seq<Config>)
    requires Loaded(configs)
    ensures forall n :: n in NamesOf(configs) <==> n in LastOf(configs)
  {
  }

  /** Early definitions first; within a phase by priority value, lowest first; within a priority by name. */
  ghost predicate ListedInOrder(configs: seq<Config>) {
    forall i, j | 0 <= i < j < |configs| ::
      && (configs[j].phase == PHASE_EARLY ==> configs[i].phase == PHASE_EARLY)
      && (configs[i].phase == configs[j].phase ==> configs[i].priority <= configs[j].priority)
      && (configs[i].phase == configs[j].phase && configs[i].priority == configs[j].priority ==>
            NameBelow(configs[i].name.text, configs[j].name.text))
  }

  lemma SortedInOrder(configs: seq<Config>)
    requires Loaded(configs) && Sorted(configs)
    ensures ListedInOrder(configs)
  {
    hide NameBelow;
    AscendingInOrder(LastOf(configs), NamesOf(configs));
    forall i | 0 <= i < |configs| ensures LastOf(configs)[NamesOf(configs)[i]] == configs[i] {
      LastOfMember(configs, configs[i]);
    }
  }

  method Sort(configs: seq<Config>) returns (sorted: seq<Config>)
    requires Loaded(configs)
    ensures Loaded(sorted) && Sorted(sorted) && forall c :: c in sorted <==> c in configs
  {
    var m, names := LastOf(configs), NamesOf(configs);
    NamesInTable(configs);
    SortNamesAscending(m, names);
    BeforeStrictTotalOrder(m);
    names := SortNames(m, names);
    sorted := seq(|names|, i requires 0 <= i < |names| => m[names[i]]);
    SortedMembers(configs, names, sorted);
  }

  lemma SortedMembers(configs: seq<Config>, names: seq<Name>, sorted: seq<Config>)
    requires Loaded(configs) && Ascending(LastOf(configs), names)
    requires forall n :: n in names <==> n in LastOf(configs)
    requires |sorted| == |names| && forall i | 0 <= i < |names| :: sorted[i] == LastOf(configs)[names[i]]
    ensures Loaded(sorted) && Sorted(sorted) && forall c :: c in sorted <==> c in configs
  {
    var m := LastOf(configs);
    forall i | 0 <= i < |sorted| ensures sorted[i] in configs && sorted[i].name == names[i] {
      LastOfEntry(configs, names[i]);
    }
    forall c | c in configs ensures c in sorted {
      LastOfMember(configs, c);
      var i :| 0 <= i < |names| && names[i] == c.name;
      assert sorted[i] == c;
    }
    BeforeStrictTotalOrder(m);
    assert Loaded(sorted);
    SameTable(sorted, configs);
    assert NamesOf(sorted) == names;
  }

  /** Definitions from both directories: an .ini file outranks a .desktop file of the same base name, a missing
      fallback directory is no error, and the list comes out sorted, with distinct names and known phases. */
  method LoadProgramConfigs(autostart: Dir, xdg: Dir) returns (r: Load)
    ensures r.Failed? <==>
              || !autostart.Listing? || Broken(autostart.files, ".ini", {}) || xdg.Unreadable?
              || (xdg.Listing? && Broken(xdg.files, ".desktop", Bases(autostart.files, ".ini")))
    ensures r.Configs? ==> Loaded(r.configs) && Sorted(r.configs) && ListedInOrder(r.configs)
    ensures r.Configs? ==> forall c :: c in r.configs <==>
              || Defines(autostart.files, ".ini", Ini, {}, c)
              || (xdg.Listing? && Defines(xdg.files, ".desktop", Desktop, Bases(autostart.files, ".ini"), c))
  {
    hide Broken, Defines, Bases, Sorted;
    if !autostart.Listing? {
      return Load.Failed;
    }
    var failed, all, seen := ScanDir(autostart.files, ".ini", Ini, {});
    if failed {
      return Load.Failed;
    }
    if xdg.Unreadable? {
      return Load.Failed;
    }
    if xdg.Listing? {
      var desktop: seq<Config>;
      assert seen == Bases(autostart.files, ".ini");
      failed, desktop, seen := ScanDir(xdg.files, ".desktop", Desktop, seen);
      if failed {
        return Load.Failed;
      }
      OutrankedNames(autostart.files, xdg.files, all, desktop);
      all := all + desktop;
    }
    var sorted := Sort(all);
    SortedInOrder(sorted);
    return Configs(sorted);
  }

  lemma OutrankedNames(ini: seq<File>, other: seq<File>, all: seq<Config>, desktop: seq<Config>)
    requires Loaded(all) && Loaded(desktop)
    requires forall c :: c in all <==> Defines(ini, ".ini", Ini, {}, c)
    requires forall c :: c in desktop <==> Defines(other, ".desktop", Desktop, Bases(ini, ".ini"), c)
    ensures Loaded(all + desktop)
  {
    forall i, j | 0 <= i < |all| && 0 <= j < |desktop| ensures all[i].name != desktop[j].name {
      assert Defines(ini, ".ini", Ini, {}, all[i]);
      assert Defines(other, ".desktop", Desktop, Bases(ini, ".ini"), desktop[j]);
    }
    forall c | c in all + desktop ensures c.phase in {PHASE_EARLY, PHASE_POST} {
      assert c in all || c in desktop;
    }
  }
}
