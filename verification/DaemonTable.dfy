/** The daemon table: stopping everything in order, and reloading the configuration. */
module DaemonTable {
  import opened NameOrder
  import opened Daemons

  type Table = map<Name, DaemonConfig>

  /** The last definition of each name. */
  function TableOf(configs: seq<DaemonConfig>): Table {
    if configs == [] then map[]
    else
      var c := configs[|configs|-1];
      TableOf(configs[..|configs|-1])[c.name := c]
  }

  /** What reading the configuration file yielded. */
  datatype Loaded = Missing | Unreadable | Parsed(configs: seq<DaemonConfig>)

  /** How an attempt to end a process goes. */
  datatype StopOutcome = Exited | Killed | ContextCancelled | KillFailed

  predicate Fails(how: StopOutcome) {
    how == ContextCancelled || how == KillFailed
  }

  datatype Call = StartCall(name: Name) | StopCall(name: Name)

  /** How far an attempt to start a process gets: no log pipes, no process, a process whose socket never answers, or
      a ready one. */
  datatype StartOutcome = NoPipes | NoProcess | Unready(pid: nat) | Ready(pid: nat)

  /** The fields of a daemon that starting and stopping update: its process group, 0 for none, and whether log writers
      are attached. */
  datatype Fields = Fields(state: DaemonState, pgid: nat, piped: bool)

  function Initial(config: DaemonConfig): Fields {
    Fields(if config.enabled then Stopped else Disabled, 0, false)
  }

  predicate IsUp(f: Fields) {
    f.state == Running || f.state == Starting
  }

  /** A failure before there is a process leaves the process fields alone; one after it leaves the process running. */
  function AfterStart(f: Fields, how: StartOutcome): Fields {
    match how
    case NoPipes => f.(state := Failed)
    case NoProcess => f.(state := Failed)
    case Unready(pid) => Fields(Failed, pid, true)
    case Ready(pid) => Fields(Running, pid, true)
  }

  const CLEAN := Fields(Stopped, 0, false)

  class Daemon {
    const name: Name
    const config: DaemonConfig
    var state: DaemonState
    var pgid: nat
    var piped: bool

    function Now(): Fields
      reads this
    {
      Fields(state, pgid, piped)
    }

    constructor (config: DaemonConfig)
      ensures this.config == config && name == config.name && Now() == Initial(config)
    {
      this.name, this.config := config.name, config;
      this.state, this.pgid, this.piped := if config.enabled then Stopped else Disabled, 0, false;
    }

    /** Resets the fields once the process is gone. */
    method Cleanup()
      modifies this
      ensures Now() == CLEAN
    {
      state := Stopped;
      pgid := 0;
      piped := false;
    }

    /** Launches the process and waits for its socket. */
    method Launch(how: StartOutcome) returns (failed: bool)
      modifies this
      ensures Now() == AfterStart(old(Now()), how) && (failed <==> !how.Ready?)
    {
      state := Starting;
      if how.NoPipes? {
        state := Failed;
        return true;
      }
      if how.NoProcess? {
        state := Failed;
        return true;
      }
      pgid := how.pid;
      piped := true;
      if how.Unready? {
        state := Failed;
        return true;
      }
      state := Running;
      return false;
    }
  }

  function StopCalls(entries: seq<Entry>): seq<Call> {
    seq(|entries|, i requires 0 <= i < |entries| => StopCall(entries[i].name))
  }

  function NonIncreasingInsert(e: Entry, s: seq<Entry>): (r: seq<Entry>)
    ensures multiset(r) == multiset{e} + multiset(s)
  {
    if s == [] then [e]
    else
      assert s == [s[0]] + s[1..];
      if e.order >= s[0].order then [e] + s else [s[0]] + NonIncreasingInsert(e, s[1..])
  }

  ghost predicate Nonincreasing(s: seq<Entry>) {
    forall i, j | 0 <= i < j < |s| :: s[i].order >= s[j].order
  }

  lemma {:induction false} NonIncreasingInsertSorted(e: Entry, s: seq<Entry>)
    requires Nonincreasing(s)
    ensures Nonincreasing(NonIncreasingInsert(e, s))
  {
    if s != [] && e.order < s[0].order {
      NonIncreasingInsertSorted(e, s[1..]);
      var t := NonIncreasingInsert(e, s[1..]);
      forall j | 0 <= j < |t| ensures s[0].order >= t[j].order {
        assert t[j] in multiset(t);
      }
    }
  }

  /** The table after a reload: names that stay keep the configuration they have. */
  function Reloaded(current: Table, loaded: Table): Table {
    map n | n in loaded :: if n in current then current[n] else loaded[n]
  }

  function AfterReloads(initial: Table, reloads: seq<Table>): Table {
    if reloads == [] then initial
    else Reloaded(AfterReloads(initial, reloads[..|reloads|-1]), reloads[|reloads|-1])
  }

  /** After any sequence of reloads the managed names are those of the latest file, and each daemon runs under
      the configuration of the first file of its current unbroken presence. */
  lemma {:induction false} UnbrokenPresence(initial: Table, reloads: seq<Table>, n: Name, j: nat)
    requires var files := [initial] + reloads;
             && j < |files| && (forall i | j <= i < |files| :: n in files[i])
             && (j > 0 ==> n !in files[j-1])
    ensures AfterReloads(initial, reloads).Keys == ([initial] + reloads)[|reloads|].Keys
    ensures AfterReloads(initial, reloads)[n] == ([initial] + reloads)[j][n]
  {
    var files := [initial] + reloads;
    LatestNames(initial, reloads);
    if reloads != [] {
      var b := reloads[..|reloads|-1];
      var earlier := [initial] + b;
      LatestNames(initial, b);
      assert forall i | 0 <= i < |earlier| :: earlier[i] == files[i];
      assert files[|reloads|] == reloads[|reloads|-1];
      if j < |reloads| {
        UnbrokenPresence(initial, b, n, j);
      } else {
        assert n !in earlier[|b|];
      }
    }
  }

  lemma {:induction false} LatestNames(initial: Table, reloads: seq<Table>)
    ensures AfterReloads(initial, reloads).Keys == ([initial] + reloads)[|reloads|].Keys
  {
  }

  /** A reload leaves the table alone exactly when the file names the same daemons: edits to a daemon already
      managed, its `enabled` switch included, have no effect. */
  lemma NoopIffSameNames(current: Table, loaded: Table)
    ensures Reloaded(current, loaded) == current <==> loaded.Keys == current.Keys
  {
  }

  /** A file that was read is in force, edits included, exactly when it agrees with the table on every daemon that
      stays: an edit to a daemon already managed is what keeps a reload from taking effect. */
  lemma TakesEffectIff(current: Table, loaded: Table)
    ensures Reloaded(current, loaded) == loaded <==> forall n | n in current && n in loaded :: current[n] == loaded[n]
  {
    if Reloaded(current, loaded) == loaded {
      forall n | n in current && n in loaded ensures current[n] == loaded[n] {
        assert Reloaded(current, loaded)[n] == current[n];
      }
    }
  }

  /** The first file of the current unbroken presence of `n`. */
  function PresentSince(files: seq<Table>, n: Name): (j: nat)
    requires files != [] && n in files[|files|-1]
    ensures j < |files| && (forall i | j <= i < |files| :: n in files[i]) && (j > 0 ==> n !in files[j-1])
  {
    var b := files[..|files|-1];
    if b != [] && n in b[|b|-1] then
      var j := PresentSince(b, n);
      assert forall i | j <= i < |b| :: n in files[i];
      j
    else |b|
  }

  /** After any sequence of reloads the latest file is in force exactly when every daemon it names had its present
      definition already in the first file of its unbroken presence. */
  lemma {:induction false} LatestInForceIff(initial: Table, reloads: seq<Table>)
    ensures var files := [initial] + reloads; var latest := files[|reloads|];
            AfterReloads(initial, reloads) == latest <==> forall n | n in latest ::
                      files[PresentSince(files, n)][n] == latest[n]
  {
    hide AfterReloads, PresentSince;
    var files := [initial] + reloads;
    var after, latest := AfterReloads(initial, reloads), files[|reloads|];
    LatestNames(initial, reloads);
    forall n | n in latest ensures after[n] == files[PresentSince(files, n)][n] {
      UnbrokenPresence(initial, reloads, n, PresentSince(files, n));
    }
  }

  /** The tables of the files that could be read. */
  function FilesRead(loads: seq<Loaded>): seq<Table> {
    if loads == [] then []
    else
      var l := loads[|loads|-1];
      FilesRead(loads[..|loads|-1]) + (if l.Parsed? then [TableOf(l.configs)] else [])
  }

  function LatestConfigs(initial: seq<DaemonConfig>, loads: seq<Loaded>): seq<DaemonConfig> {
    if loads == [] then initial
    else
      var l := loads[|loads|-1];
      if l.Parsed? then l.configs else LatestConfigs(initial, loads[..|loads|-1])
  }

  lemma NothingRead(initial: Table, configs: seq<DaemonConfig>)
    ensures AfterReloads(initial, FilesRead([])) == initial && LatestConfigs(configs, []) == configs
  {
  }

  lemma ReloadedNames(current: Table, loaded: Table)
    ensures Reloaded(current, loaded).Keys == loaded.Keys
  {
  }

  lemma ReadNext(initial: Table, configs: seq<DaemonConfig>, loads: seq<Loaded>, i: nat)
    requires i < |loads|
    ensures AfterReloads(initial, FilesRead(loads[..i+1])) ==
              if loads[i].Parsed? then Reloaded(AfterReloads(initial, FilesRead(loads[..i])), TableOf(loads[i].configs))
              else AfterReloads(initial, FilesRead(loads[..i]))
    ensures LatestConfigs(configs, loads[..i+1]) ==
              if loads[i].Parsed? then loads[i].configs else LatestConfigs(configs, loads[..i])
  {
    hide Reloaded, TableOf;
    var b := FilesRead(loads[..i]);
    assert loads[..i+1][..i] == loads[..i];
    if loads[i].Parsed? {
      var t := TableOf(loads[i].configs);
      assert FilesRead(loads[..i+1]) == b + [t];
      assert (b + [t])[..|b|] == b;
    } else {
      assert b + [] == b;
    }
  }

  /** The daemon objects after each event; an object stays as long as its name does. */
  ghost predicate KeepsObjects(tables: seq<map<Name, Daemon>>) {
    forall i, j, n | 0 <= i && i + 1 == j < |tables| && n in tables[i] && n in tables[j] :: tables[i][n] == tables[j][n]
  }

  lemma {:induction false} SameObjectThroughout(tables: seq<map<Name, Daemon>>, i: nat, j: nat, n: Name)
    requires KeepsObjects(tables) && i <= j < |tables| && forall k | i <= k <= j :: n in tables[k]
    ensures tables[i][n] == tables[j][n]
    decreases j
  {
    if i < j {
      SameObjectThroughout(tables, i, j - 1, n);
    }
  }

  ghost predicate ListsNames(s: seq<Name>, names: set<Name>) {
    && (forall n :: n in s <==> n in names)
    && (forall i, j | 0 <= i < j < |s| :: s[i] != s[j])
  }

  lemma ListsSnoc(s: seq<Name>, names: set<Name>, n: Name)
    requires ListsNames(s, names) && n !in names
    ensures ListsNames(s + [n], names + {n})
  {
  }

  ghost function EnabledIn(table: Table, names: set<Name>): set<Name>
    requires names <= table.Keys
  {
    set n | n in names && table[n].enabled
  }

  lemma NoStarts(table: Table)
    ensures ListsNames([], EnabledIn(table, {})) && StartCallsTo([]) == []
  {
  }

  lemma StartsSnoc(table: Table, done: set<Name>, starts: seq<Name>, n: Name)
    requires done <= table.Keys && n in table && n !in done && ListsNames(starts, EnabledIn(table, done))
    ensures if table[n].enabled then ListsNames(starts + [n], EnabledIn(table, done + {n}))
            else ListsNames(starts, EnabledIn(table, done + {n}))
    ensures StartCallsTo(starts + [n]) == StartCallsTo(starts) + [StartCall(n)]
  {
    assert EnabledIn(table, done + {n}) == EnabledIn(table, done) + (if table[n].enabled then {n} else {});
    if table[n].enabled {
      ListsSnoc(starts, EnabledIn(table, done), n);
    }
  }

  lemma StopsSnoc(stops: seq<Name>, done: set<Name>, n: Name)
    requires ListsNames(stops, done) && n !in done
    ensures ListsNames(stops + [n], done + {n})
    ensures StopCallsTo(stops + [n]) == StopCallsTo(stops) + [StopCall(n)]
  {
  }

  function StopCallsTo(names: seq<Name>): seq<Call> {
    seq(|names|, i requires 0 <= i < |names| => StopCall(names[i]))
  }

  function StartCallsTo(names: seq<Name>): seq<Call> {
    seq(|names|, i requires 0 <= i < |names| => StartCall(names[i]))
  }

  class DaemonManager {
    var configs: seq<DaemonConfig>
    var daemons: map<Name, Daemon>
    ghost var calls: seq<Call>

    ghost predicate Valid()
      reads this
    {
      forall n | n in daemons :: daemons[n].name == n
    }

    /** The configuration each managed daemon is running under. */
    function View(): Table
      reads this
    {
      map n | n in daemons :: daemons[n].config
    }

    constructor (configs: seq<DaemonConfig>)
      ensures Valid() && this.configs == configs && View() == TableOf(configs) && calls == []
      ensures forall n | n in daemons :: fresh(daemons[n])
    {
      this.configs, this.daemons, this.calls := configs, map[], [];
      new;
      var i := 0;
      while i < |configs|
        invariant i <= |configs| && Valid() && this.configs == configs && calls == []
        invariant View() == TableOf(configs[..i])
        invariant forall n | n in daemons :: fresh(daemons[n])
      {
        assert configs[..i+1][..i] == configs[..i];
        var d := new Daemon(configs[i]);
        daemons := daemons[configs[i].name := d];
        i := i + 1;
      }
      assert configs[..i] == configs;
    }

    predicate Up(n: Name)
      reads this, if n in daemons then {daemons[n]} else {}
    {
      n in daemons && IsUp(daemons[n].Now())
    }

    /** Stops one daemon; `how` is what the process does about it. */
    method Stop(n: Name, how: StopOutcome) returns (failed: bool)
      modifies this`calls, if n in daemons then {daemons[n]} else {}
      ensures calls == old(calls) + [StopCall(n)]
      ensures failed <==> n !in daemons || (old(Up(n)) && Fails(how))
      ensures n in daemons ==> daemons[n].Now() == if old(Up(n)) && !Fails(how) then CLEAN else old(daemons[n].Now())
      ensures n in daemons && old(daemons[n].state) in {Running, Starting} ==>
                && (failed <==> how in {ContextCancelled, KillFailed})
                && (!failed ==> daemons[n].state == Stopped && daemons[n].pgid == 0 && !daemons[n].piped)
      ensures n in daemons && old(daemons[n].state) !in {Running, Starting} ==> !failed && unchanged(daemons[n])
    {
      calls := calls + [StopCall(n)];
      if n !in daemons {
        return true;
      }
      var d := daemons[n];
      if d.state != Running && d.state != Starting {
        return false;
      }
      if how == ContextCancelled || how == KillFailed {
        return true;
      }
      d.Cleanup();
      return false;
    }

    /** Starts one daemon; `how` says how far its process gets. */
    method Start(n: Name, how: StartOutcome) returns (failed: bool)
      modifies this`calls, if n in daemons then {daemons[n]} else {}
      ensures calls == old(calls) + [StartCall(n)]
      ensures failed <==> n !in daemons || (!old(Up(n)) && !how.Ready?)
      ensures n in daemons ==>
                daemons[n].Now() == if old(Up(n)) then old(daemons[n].Now()) else AfterStart(old(daemons[n].Now()), how)
      ensures n in daemons && old(daemons[n].state) in {Running, Starting} ==> !failed && unchanged(daemons[n])
      ensures n in daemons && old(daemons[n].state) !in {Running, Starting} ==>
                && (failed <==> !how.Ready?)
                && daemons[n].state == (if failed then Failed else Running)
                && (how.Unready? || how.Ready? ==> daemons[n].pgid == how.pid && daemons[n].piped)
                && (how.NoPipes? || how.NoProcess? ==>
                      daemons[n].pgid == old(daemons[n].pgid) && daemons[n].piped == old(daemons[n].piped))
    {
      calls := calls + [StartCall(n)];
      if n !in daemons {
        return true;
      }
      var d := daemons[n];
      if d.state == Running || d.state == Starting {
        return false;
      }
      if d.config.enabled && d.state != Stopped && d.state != Failed && d.state != Disabled {
        // There is no sixth state: the error for an unsuitable one is never returned.
        assert false;
      }
      failed := d.Launch(how);
    }

    /** Stops one daemon and drops its entry, whether or not the stop succeeds. */
    method DropOne(n: Name, how: StopOutcome)
      requires Valid() && n in daemons
      modifies this`calls, this`daemons, daemons[n]
      ensures Valid() && daemons == old(daemons) - {n}
      ensures calls == old(calls) + [StopCall(n)]
    {
      var failed := Stop(n, how);
      daemons := daemons - {n};
    }

    /** Stops and drops every daemon whose name is gone; a failing stop does not keep the entry. */
    method DropRemoved(keep: set<Name>, how: Name -> StopOutcome) returns (ghost stops: seq<Name>)
      requires Valid()
      modifies this`calls, this`daemons, daemons.Values
      ensures Valid() && ListsNames(stops, old(daemons).Keys - keep)
      ensures calls == old(calls) + StopCallsTo(stops)
      ensures daemons.Keys == old(daemons).Keys * keep
      ensures forall n | n in daemons :: daemons[n] == old(daemons)[n] && daemons[n].Now() == old(daemons[n].Now())
    {
      stops := [];
      ghost var all := daemons;
      var todo := daemons.Keys - keep;
      assert all.Keys - keep - todo == {} && ListsNames([], {}) && StopCallsTo([]) == [];
      hide ListsNames, StopCallsTo;
      while todo != {}
        invariant todo <= all.Keys - keep
        invariant ListsNames(stops, all.Keys - keep - todo)
        invariant calls == old(calls) + StopCallsTo(stops)
        invariant daemons.Keys == all.Keys * keep + todo
        invariant forall n | n in daemons :: daemons[n] == all[n] && all[n].Now() == old(all[n].Now())
      {
        var n :| n in todo;
        assert n in daemons;
        StopsSnoc(stops, all.Keys - keep - todo, n);
        assert all.Keys - keep - (todo - {n}) == all.Keys - keep - todo + {n};
        todo := todo - {n};
        DropOne(n, how(n));
        stops := stops + [n];
      }
    }

    /** Adds one new daemon and starts it if enabled. */
    method AddOne(c: DaemonConfig, start: StartOutcome)
      requires Valid() && c.name !in daemons
      modifies this`calls, this`daemons
      ensures Valid() && c.name in daemons && daemons == old(daemons)[c.name := daemons[c.name]]
      ensures var d := daemons[c.name];
              fresh(d) && d.config == c && d.Now() == if c.enabled then AfterStart(Initial(c), start) else Initial(c)
      ensures calls == old(calls) + (if c.enabled then [StartCall(c.name)] else [])
    {
      var d := new Daemon(c);
      daemons := daemons[c.name := d];
      if c.enabled {
        var failed := Start(c.name, start);
      }
    }

    /** Adds an object for every new name and starts the enabled ones. */
    method AddNew(table: Table, start: Name -> StartOutcome) returns (ghost starts: seq<Name>)
      requires Valid() && forall n | n in table :: table[n].name == n
      modifies this`calls, this`daemons
      ensures Valid()
      ensures daemons.Keys == old(daemons).Keys + table.Keys
      ensures forall n | n in old(daemons) :: daemons[n] == old(daemons)[n]
      ensures forall n | n in daemons && n !in old(daemons) :: fresh(daemons[n]) && daemons[n].config == table[n]
                && daemons[n].Now() == if table[n].enabled then AfterStart(Initial(table[n]), start(n))
                          else Initial(table[n])
      ensures ListsNames(starts, EnabledIn(table, table.Keys - old(daemons).Keys))
      ensures calls == old(calls) + StartCallsTo(starts)
    {
      starts := [];
      ghost var before := daemons;
      var added := table.Keys - daemons.Keys;
      var todo := added;
      NoStarts(table);
      assert added - todo == {};
      hide ListsNames, StartCallsTo, EnabledIn;
      while todo != {}
        invariant todo <= added && Valid()
        invariant daemons.Keys == before.Keys + (added - todo)
        invariant forall n | n in before :: daemons[n] == before[n]
        invariant forall n | n in daemons && n !in before :: fresh(daemons[n]) && daemons[n].config == table[n]
                    && daemons[n].Now() == if table[n].enabled then AfterStart(Initial(table[n]),
                              start(n)) else Initial(table[n])
        invariant ListsNames(starts, EnabledIn(table, added - todo))
        invariant calls == old(calls) + StartCallsTo(starts)
      {
        var n :| n in todo;
        StartsSnoc(table, added - todo, starts, n);
        assert added - todo + {n} == added - (todo - {n});
        todo := todo - {n};
        AddOne(table[n], start(n));
        if table[n].enabled {
          starts := starts + [n];
        }
      }
      assert added - todo == added;
    }

    /** Brings the table in line with a configuration that was read: stops and drops removed daemons, adds and
        starts new ones, leaves the rest alone. */
    method Install(newConfigs: seq<DaemonConfig>, how: Name -> StopOutcome, start: Name -> StartOutcome)
      returns (ghost stops: seq<Name>, ghost starts: seq<Name>)
      requires Valid()
      modifies this, daemons.Values
      ensures Valid() && configs == newConfigs && daemons.Keys == TableOf(newConfigs).Keys
      ensures forall n | n in daemons && n in old(daemons) ::
                daemons[n] == old(daemons)[n] && daemons[n].Now() == old(daemons[n].Now())
      ensures forall n | n in daemons && n !in old(daemons) ::
                fresh(daemons[n]) && daemons[n].config == TableOf(newConfigs)[n]
      ensures ListsNames(stops, old(daemons).Keys - TableOf(newConfigs).Keys)
      ensures ListsNames(starts, EnabledIn(TableOf(newConfigs), TableOf(newConfigs).Keys - old(daemons).Keys))
      ensures calls == old(calls) + StopCallsTo(stops) + StartCallsTo(starts)
    {
      hide ListsNames, StopCallsTo, StartCallsTo, EnabledIn, TableOf;
      var table := TableOf(newConfigs);
      TableNames(newConfigs);
      stops := DropRemoved(table.Keys, how);
      ghost var kept := daemons;
      starts := AddNew(table, start);
      assert table.Keys - kept.Keys == table.Keys - old(daemons).Keys;
      configs := newConfigs;
    }

    /** Reloads the configuration; a missing or unreadable file changes nothing. */
    method Reload(loaded: Loaded, how: Name -> StopOutcome, start: Name -> StartOutcome)
      returns (failed: bool, ghost stops: seq<Name>, ghost starts: seq<Name>)
      requires Valid()
      modifies this, daemons.Values
      ensures Valid() && (failed <==> loaded.Unreadable?)
      ensures !loaded.Parsed? ==> configs == old(configs) && daemons == old(daemons) && calls == old(calls)
      ensures loaded.Parsed? ==> configs == loaded.configs && View() == Reloaded(old(View()), TableOf(loaded.configs))
      ensures forall n | n in daemons && n in old(daemons) ::
                daemons[n] == old(daemons)[n] && daemons[n].Now() == old(daemons[n].Now())
      ensures forall n | n in daemons && n !in old(daemons) :: fresh(daemons[n])
      ensures loaded.Parsed? ==>
                && ListsNames(stops, old(daemons).Keys - TableOf(loaded.configs).Keys)
                && ListsNames(starts, EnabledIn(TableOf(loaded.configs),
                          TableOf(loaded.configs).Keys - old(daemons).Keys))
                && calls == old(calls) + StopCallsTo(stops) + StartCallsTo(starts)
    {
      hide ListsNames, StopCallsTo, StartCallsTo, EnabledIn, TableOf;
      stops, starts := [], [];
      if loaded.Missing? {
        return false, stops, starts;
      }
      if loaded.Unreadable? {
        return true, stops, starts;
      }
      stops, starts := Install(loaded.configs, how, start);
      failed := false;
    }

    /** The reloads triggered by file events, one after another; a failing one is only logged. `how(i, n)` and
        `start(i, n)` are what processes do during event `i`. */
    method WatchConfig(loads: seq<Loaded>, how: (nat, Name) -> StopOutcome, start: (nat, Name) -> StartOutcome)
      returns (ghost tables: seq<map<Name, Daemon>>)
      requires Valid()
      modifies this, daemons.Values
      ensures Valid() && View() == AfterReloads(old(View()), FilesRead(loads))
      ensures configs == LatestConfigs(old(configs), loads)
      ensures |tables| == |loads| + 1 && tables[0] == old(daemons) && tables[|loads|] == daemons && KeepsObjects(tables)
      ensures forall i | 0 <= i < |loads| ::
                tables[i+1].Keys == if loads[i].Parsed? then TableOf(loads[i].configs).Keys else tables[i].Keys
    {
      hide Reloaded, AfterReloads, FilesRead, TableOf, LatestConfigs, ListsNames, StopCallsTo, StartCallsTo, EnabledIn;
      tables := [daemons];
      NothingRead(View(), configs);
      assert loads[..0] == [];
      var i := 0;
      while i < |loads|
        invariant i <= |loads| && Valid()
        invariant View() == AfterReloads(old(View()), FilesRead(loads[..i])) &&
                  configs == LatestConfigs(old(configs), loads[..i])
        invariant |tables| == i + 1 && tables[0] == old(daemons) && tables[i] == daemons && KeepsObjects(tables)
        invariant forall k | 0 <= k < i ::
                    tables[k+1].Keys == if loads[k].Parsed? then TableOf(loads[k].configs).Keys else tables[k].Keys
        invariant forall n | n in daemons :: daemons[n] in old(daemons.Values) || fresh(daemons[n])
      {
        ReadNext(old(View()), old(configs), loads, i);
        label Before:
        var failed, stops, starts := Reload(loads[i], n => how(i, n), n => start(i, n));
        if loads[i].Parsed? {
          ReloadedNames(old@Before(View()), TableOf(loads[i].configs));
        }
        assert daemons.Keys == View().Keys;
        tables := tables + [daemons];
        i := i + 1;
      }
      assert loads[..i] == loads;
    }

    /** `e` is an enabled running daemon with its order. */
    ghost predicate Stoppable(e: Entry)
      reads this, daemons.Values
    {
      e.name in daemons && daemons[e.name].config.enabled && daemons[e.name].config.order == e.order
      && daemons[e.name].state == Running
    }

    /** The entries to stop, collected in map order and sorted by descending order. */
    method CollectRunning() returns (entries: seq<Entry>)
      requires Valid()
      ensures Nonincreasing(entries) && DistinctNames(entries)
      ensures forall e :: e in entries <==> Stoppable(e)
    {
      entries := [];
      var todo := daemons.Keys;
      while todo != {}
        invariant todo <= daemons.Keys && Nonincreasing(entries) && DistinctNames(entries)
        invariant forall e :: e in entries <==> e.name !in todo && Stoppable(e)
      {
        var n :| n in todo;
        todo := todo - {n};
        var d := daemons[n];
        if d.config.enabled && d.state == Running {
          var e := Entry(n, d.config.order);
          InsertMembers(e, entries);
          NonIncreasingInsertSorted(e, entries);
          InsertDistinct(e, entries);
          entries := NonIncreasingInsert(e, entries);
        }
      }
    }

    /** Every enabled running daemon is attempted, once, in non-increasing order, whatever fails on the way;
        the error returned is the first. */
    method StopAll(how: Name -> StopOutcome) returns (firstErr: seq<Name>, ghost order: seq<Entry>)
      requires Valid()
      modifies this`calls, daemons.Values
      ensures Valid() && Nonincreasing(order) && DistinctNames(order)
      ensures forall e :: e in order <==> old(Stoppable(e))
      ensures calls == old(calls) + StopCalls(order)
      ensures forall i | 0 <= i < |order| :: order[i].name in daemons
                && (if Fails(how(order[i].name)) then daemons[order[i].name].Now() == old(daemons[order[i].name].Now())
                    else daemons[order[i].name].Now() == CLEAN)
      ensures firstErr == FirstFailing(order, how)
    {
      hide FirstFailing, StopCalls, Nonincreasing;
      var entries := CollectRunning();
      order := entries;
      firstErr := [];
      var i := 0;
      assert forall j | 0 <= j < |entries| :: entries[j] in entries && Stoppable(entries[j]);
      NothingTaken(how);
      assert entries[..0] == [];
      while i < |entries|
        invariant i <= |entries|
        invariant calls == old(calls) + StopCalls(entries[..i])
        invariant firstErr == FirstFailing(entries[..i], how)
        invariant forall j | 0 <= j < i :: 
                    if Fails(how(entries[j].name)) then daemons[entries[j].name].Now() ==
                              old(daemons[entries[j].name].Now())
                    else daemons[entries[j].name].Now() == CLEAN
        invariant forall j | i <= j < |entries| ::
                    daemons[entries[j].name].state == Running &&
                              daemons[entries[j].name].Now() == old(daemons[entries[j].name].Now())
      {
        var n := entries[i].name;
        TakeNext(entries, i, how);
        var failed := Stop(n, how(n));
        if failed && firstErr == [] {
          firstErr := [n];
        }
        i := i + 1;
      }
      assert entries[..i] == entries;
    }
  }

  lemma {:induction false} TableNames(configs: seq<DaemonConfig>)
    ensures forall n | n in TableOf(configs) :: TableOf(configs)[n].name == n
  {
    if configs != [] {
      TableNames(configs[..|configs|-1]);
    }
  }

  ghost predicate DistinctNames(s: seq<Entry>) {
    forall i, j | 0 <= i < j < |s| :: s[i].name != s[j].name
  }

  /** The name of the first entry whose stop fails, if any. */
  function FirstFailing(entries: seq<Entry>, how: Name -> StopOutcome): seq<Name> {
    if entries == [] then []
    else
      var b, e := FirstFailing(entries[..|entries|-1], how), entries[|entries|-1];
      if b != [] then b else if Fails(how(e.name)) then [e.name] else []
  }

  lemma {:induction false} FirstFailingMeaning(entries: seq<Entry>, how: Name -> StopOutcome)
    ensures var r := FirstFailing(entries, how);
            && (r == [] <==> forall j | 0 <= j < |entries| :: !Fails(how(entries[j].name)))
            && (r != [] ==> exists i | 0 <= i < |entries| ::
                  (r == [entries[i].name] && Fails(how(entries[i].name)) && forall j | 0 <= j < i ::
                            !Fails(how(entries[j].name))))
  {
    if entries != [] {
      var b := entries[..|entries|-1];
      FirstFailingMeaning(b, how);
      assert forall j | 0 <= j < |b| :: b[j] == entries[j];
      if FirstFailing(b, how) != [] {
        var i :| 0 <= i < |b| && FirstFailing(b, how) == [b[i].name] && Fails(how(b[i].name))
          && forall j | 0 <= j < i :: !Fails(how(b[j].name));
        assert entries[i] == b[i];
      } else {
        assert entries[|b|] == entries[|entries|-1];
      }
    }
  }

  lemma NothingTaken(how: Name -> StopOutcome)
    ensures StopCalls([]) == [] && FirstFailing([], how) == []
  {
  }

  lemma TakeNext(entries: seq<Entry>, i: nat, how: Name -> StopOutcome)
    requires i < |entries|
    ensures StopCalls(entries[..i+1]) == StopCalls(entries[..i]) + [StopCall(entries[i].name)]
    ensures FirstFailing(entries[..i+1], how) ==
              if FirstFailing(entries[..i], how) != [] then FirstFailing(entries[..i], how)
              else if Fails(how(entries[i].name)) then [entries[i].name] else []
  {
    assert entries[..i+1][..i] == entries[..i];
  }

  lemma InsertMembers(e: Entry, s: seq<Entry>)
    ensures forall x :: x in NonIncreasingInsert(e, s) <==> x == e || x in s
  {
  }

  lemma {:induction false} InsertDistinct(e: Entry, s: seq<Entry>)
    requires DistinctNames(s) && forall x | x in s :: x.name != e.name
    ensures DistinctNames(NonIncreasingInsert(e, s))
  {
    if s != [] {
      assert s == [s[0]] + s[1..];
      if e.order < s[0].order {
        InsertDistinct(e, s[1..]);
        InsertMembers(e, s[1..]);
        var t := NonIncreasingInsert(e, s[1..]);
        forall j | 0 <= j < |t| ensures s[0].name != t[j].name {
          assert t[j] in t;
        }
      }
    }
  }
}
