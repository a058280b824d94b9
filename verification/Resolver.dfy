/** Dependency resolution of user programs: validity checks, then layered topological sort. */
module Resolver {
  import opened NameOrder
  import opened Layering
  import opened Programs

  /** Number of entries of `deps`, with multiplicity, that are still in `remaining`. */
  function Pending(deps: seq<Name>, remaining: set<Name>): nat {
    if deps == [] then 0
    else Pending(deps[..|deps|-1], remaining) + (if deps[|deps|-1] in remaining then 1 else 0)
  }

  lemma {:induction false} PendingZero(deps: seq<Name>, remaining: set<Name>)
    ensures Pending(deps, remaining) == 0 <==> forall d | d in deps :: d !in remaining
  {
    if deps != [] {
      var b, x := deps[..|deps|-1], deps[|deps|-1];
      PendingZero(b, remaining);
      assert deps == b + [x];
    }
  }

  lemma {:induction false} PendingAll(deps: seq<Name>, remaining: set<Name>)
    requires forall d | d in deps :: d in remaining
    ensures Pending(deps, remaining) == |deps|
  {
    if deps != [] {
      var b, x := deps[..|deps|-1], deps[|deps|-1];
      assert deps == b + [x];
      PendingAll(b, remaining);
    }
  }

  lemma {:induction false} PendingRemove(deps: seq<Name>, remaining: set<Name>, n: Name)
    requires n in remaining
    ensures Pending(deps, remaining) == Pending(deps, remaining - {n}) + Count(deps, n)
  {
    if deps != [] {
      var b, x := deps[..|deps|-1], deps[|deps|-1];
      assert deps == b + [x];
      PendingRemove(b, remaining, n);
    }
  }

  /** How often `n` is listed. */
  function Count(s: seq<Name>, n: Name): nat {
    if s == [] then 0
    else Count(s[..|s|-1], n) + (if s[|s|-1] == n then 1 else 0)
  }

  lemma CountAppend(s: seq<Name>, x: Name)
    ensures forall n :: Count(s + [x], n) == Count(s, n) + if x == n then 1 else 0
  {
  }

  type DepLists = map<Name, seq<Name>>

  function CountOf(lists: DepLists, n: Name, d: Name): nat {
    if n in lists then Count(lists[n], d) else 0
  }

  /** `graph` reverses `seen`: each name appears under `d` once for every entry `d` seen for it. */
  ghost predicate Mirrors(graph: DepLists, seen: DepLists) {
    forall d, n :: CountOf(graph, d, n) == CountOf(seen, n, d)
  }

  lemma MirrorsEdge(graph: DepLists, seen: DepLists, name: Name, dep: Name)
    requires Mirrors(graph, seen) && name in seen && dep in graph
    ensures Mirrors(graph[dep := graph[dep] + [name]], seen[name := seen[name] + [dep]])
  {
    var g, s := graph[dep := graph[dep] + [name]], seen[name := seen[name] + [dep]];
    CountAppend(graph[dep], name);
    CountAppend(seen[name], dep);
    forall d, n ensures CountOf(g, d, n) == CountOf(s, n, d) {
      assert CountOf(graph, d, n) == CountOf(seen, n, d);
    }
  }

  /** The dependency lists of the names already visited; the rest still count as empty. */
  ghost function Seen(m: Configs, todo: set<Name>): DepLists {
    map n | n in m :: if n in todo then [] else m[n].dependsOn
  }

  ghost function Lengths(lists: DepLists): map<Name, int> {
    map n | n in lists :: |lists[n]|
  }

  /** `inDegree` counts the pending dependencies of every name. */
  ghost predicate Counts(m: Configs, inDegree: map<Name, int>, remaining: set<Name>) {
    && inDegree.Keys == m.Keys
    && forall p | p in m :: inDegree[p] == Pending(m[p].dependsOn, remaining)
  }

  lemma SeenStep(m: Configs, todo: set<Name>, n: Name)
    requires n in todo && todo <= m.Keys
    ensures Seen(m, todo - {n}) == Seen(m, todo)[n := m[n].dependsOn]
    ensures Lengths(Seen(m, todo - {n})) == Lengths(Seen(m, todo))[n := |m[n].dependsOn|]
  {
  }

  ghost predicate Clean(m: Configs, n: Name, deps: seq<Name>)
    requires n in m
  {
    forall d | d in deps :: d != n && d in m && !(m[n].phase == PHASE_EARLY && m[d].phase == PHASE_POST)
  }

  /** One pass of the outer loop: validates and records the dependencies of `name`. */
  method AddDependencies(m: Configs, name: Name, graph0: DepLists, inDegree0: map<Name, int>,
                         ghost seen0: DepLists)
    returns (bad: bool, err: Resolution, graph: DepLists, inDegree: map<Name, int>)
    requires name in m && seen0.Keys == graph0.Keys == m.Keys == inDegree0.Keys && Mirrors(graph0, seen0)
    requires seen0[name] == [] && inDegree0[name] == 0
    ensures bad ==> !err.Groups? && !err.DependencyCycle? && Justified(m, err)
    ensures !bad ==> Clean(m, name, m[name].dependsOn)
    ensures !bad ==> Mirrors(graph, seen0[name := m[name].dependsOn])
    ensures !bad ==> graph.Keys == m.Keys && inDegree == inDegree0[name := |m[name].dependsOn|]
  {
    var deps := m[name].dependsOn;
    bad, err, graph, inDegree := false, Groups([]), graph0, inDegree0;
    var i := 0;
    assert seen0 == seen0[name := deps[..0]] && inDegree0 == inDegree0[name := 0];
    while i < |deps|
      invariant i <= |deps|
      invariant graph.Keys == m.Keys && Mirrors(graph, seen0[name := deps[..i]])
      invariant inDegree == inDegree0[name := i]
      invariant Clean(m, name, deps[..i])
    {
      var dep := deps[i];
      if dep == name {
        return true, SelfDependency(name), graph, inDegree;
      }
      if dep !in m {
        return true, UnknownDependency(name, dep), graph, inDegree;
      }
      if m[name].phase == PHASE_EARLY && m[dep].phase == PHASE_POST {
        return true, PhaseViolation(name, dep), graph, inDegree;
      }
      MirrorsEdge(graph, seen0[name := deps[..i]], name, dep);
      assert deps[..i+1] == deps[..i] + [dep];
      assert seen0[name := deps[..i]][name := deps[..i+1]] == seen0[name := deps[..i+1]];
      graph := graph[dep := graph[dep] + [name]];
      inDegree := inDegree[name := inDegree[name] + 1];
      i := i + 1;
    }
    assert deps[..i] == deps;
  }

  /** Builds the reversed adjacency lists and in-degrees, stopping at the first invalid entry met.
      `name :|` is Go's unspecified map iteration order. */
  method BuildGraph(m: Configs) returns (bad: bool, err: Resolution, graph: DepLists, inDegree: map<Name, int>)
    ensures bad ==> !err.Groups? && !err.DependencyCycle? && Justified(m, err)
    ensures !bad ==> WellFormed(m) && Mirrors(graph, Seen(m, {})) && graph.Keys == m.Keys && Counts(m, inDegree, m.Keys)
  {
    bad, err := false, Groups([]);
    graph := map n | n in m :: [];
    inDegree := map n | n in m :: 0;
    var todo := m.Keys;
    while todo != {}
      invariant todo <= m.Keys == graph.Keys
      invariant Mirrors(graph, Seen(m, todo)) && inDegree == Lengths(Seen(m, todo))
      invariant forall p {:trigger Clean(m, p, m[p].dependsOn)} | p in m && p !in todo :: Clean(m, p, m[p].dependsOn)
    {
      var name :| name in todo;
      bad, err, graph, inDegree := AddDependencies(m, name, graph, inDegree, Seen(m, todo));
      if bad {
        return;
      }
      SeenStep(m, todo, name);
      todo := todo - {name};
    }
    forall n, d | DependsOn(m, n, d)
      ensures !SelfDependent(m, n) && !Dangling(m, n, d) && !CrossesPhase(m, n, d)
    {
      assert Clean(m, n, m[n].dependsOn);
    }
    forall p | p in m ensures inDegree[p] == Pending(m[p].dependsOn, m.Keys) {
      assert Clean(m, p, m[p].dependsOn);
      PendingAll(m[p].dependsOn, m.Keys);
    }
  }

  lemma {:induction false} CountMember(s: seq<Name>, n: Name)
    ensures n in s <==> Count(s, n) > 0
  {
    if s != [] {
      CountMember(s[..|s|-1], n);
      assert s == s[..|s|-1] + [s[|s|-1]];
    }
  }

  lemma ReversedListsAreNames(m: Configs, graph: DepLists, d: Name)
    requires d in graph && Mirrors(graph, Seen(m, {}))
    ensures forall n | n in graph[d] :: n in m
    ensures forall n | n in m :: Count(graph[d], n) == Count(m[n].dependsOn, d)
  {
    forall n | n in graph[d] ensures n in m {
      CountMember(graph[d], n);
      assert CountOf(graph, d, n) == CountOf(Seen(m, {}), n, d);
    }
    forall n | n in m ensures Count(graph[d], n) == Count(m[n].dependsOn, d) {
      assert CountOf(graph, d, n) == CountOf(Seen(m, {}), n, d);
    }
  }

  /** Removes one placed name: every dependent loses one in-degree per declaration of it. */
  method Unlink(m: Configs, graph: DepLists, name: Name, remaining: set<Name>, inDegree0: map<Name, int>)
    returns (inDegree: map<Name, int>)
    requires graph.Keys == m.Keys && Mirrors(graph, Seen(m, {}))
    requires name in remaining && remaining <= m.Keys && Counts(m, inDegree0, remaining)
    ensures Counts(m, inDegree, remaining - {name})
  {
    var dependents := graph[name];
    ReversedListsAreNames(m, graph, name);
    inDegree := inDegree0;
    var j := 0;
    while j < |dependents|
      invariant j <= |dependents| && inDegree.Keys == m.Keys
      invariant forall p | p in m :: inDegree[p] == inDegree0[p] - Count(dependents[..j], p)
    {
      var p := dependents[j];
      CountAppend(dependents[..j], p);
      assert dependents[..j+1] == dependents[..j] + [p];
      inDegree := inDegree[p := inDegree[p] - 1];
      j := j + 1;
    }
    assert dependents[..j] == dependents;
    forall p | p in m ensures inDegree[p] == Pending(m[p].dependsOn, remaining - {name}) {
      PendingRemove(m[p].dependsOn, remaining, name);
    }
  }

  /** Removes every name of the group just placed. */
  method RemoveReady(m: Configs, graph: DepLists, ready: seq<Name>, remaining0: set<Name>, inDegree0: map<Name, int>)
    returns (remaining: set<Name>, inDegree: map<Name, int>)
    requires graph.Keys == m.Keys && Mirrors(graph, Seen(m, {}))
    requires remaining0 <= m.Keys && Counts(m, inDegree0, remaining0)
    requires Members(ready) <= remaining0 && forall i, j | 0 <= i < j < |ready| :: ready[i] != ready[j]
    ensures remaining == remaining0 - Members(ready)
    ensures Counts(m, inDegree, remaining)
  {
    remaining, inDegree := remaining0, inDegree0;
    var k := 0;
    while k < |ready|
      invariant k <= |ready|
      invariant remaining == remaining0 - Members(ready[..k])
      invariant Counts(m, inDegree, remaining)
    {
      MembersSnoc(ready, k);
      assert ready[k] in Members(ready);
      inDegree := Unlink(m, graph, ready[k], remaining, inDegree);
      remaining := remaining - {ready[k]};
      k := k + 1;
    }
    assert ready[..k] == ready;
  }

  /** Collects the names of in-degree zero in map order, then sorts them. */
  method CollectReady(m: Configs, remaining: set<Name>, inDegree: map<Name, int>) returns (ready: seq<Name>)
    requires remaining <= m.Keys && Counts(m, inDegree, remaining)
    ensures IsReady(m, ready, remaining) && Ascending(m, ready)
  {
    ready := [];
    var todo := remaining;
    while todo != {}
      invariant todo <= remaining
      invariant forall n :: n in ready <==> n in remaining && n !in todo && inDegree[n] == 0
      invariant forall i, j | 0 <= i < j < |ready| :: ready[i] != ready[j]
    {
      var name :| name in todo;
      todo := todo - {name};
      if inDegree[name] == 0 {
        ready := ready + [name];
      }
    }
    forall n | n in remaining ensures inDegree[n] == 0 <==> !DependsInto(m, n, remaining) {
      PendingZero(m[n].dependsOn, remaining);
      if inDegree[n] != 0 {
        var d :| d in m[n].dependsOn && d in remaining;
        assert DependsOn(m, n, d);
      }
    }
    SortNamesAscending(m, ready);
    ready := SortNames(m, ready);
  }

  /** `pid` 0 means no process. */
  class Program {
    const config: Config
    var state: ProgState
    var pid: nat

    constructor (config: Config)
      ensures this.config == config
      ensures state == (if config.enabled then ProgState.Pending else Disabled) && pid == 0
    {
      this.config := config;
      this.state := if config.enabled then ProgState.Pending else Disabled;
      this.pid := 0;
    }

    /** The first critical section of a start attempt. */
    method BeginStart() returns (proceed: bool)
      modifies this`state
      ensures proceed <==> !SkipsStart(old(state))
      ensures state == if proceed then WaitingDeps else old(state)
    {
      if state == Running || state == Healthy || state == Starting {
        return false;
      }
      if state == Disabled {
        return false;
      }
      state := WaitingDeps;
      return true;
    }

    method SetState(to: ProgState)
      modifies this`state
      ensures state == to
    {
      state := to;
    }

    /** The critical section after a successful exec. */
    method RecordLaunch(p: nat)
      modifies this`state, this`pid
      ensures state == Running && pid == p
    {
      pid := p;
      state := Running;
    }
  }

  class ProgramManager {
    const configs: seq<Config>
    var programs: map<Name, Program>

    /** No two names share an object. */
    ghost predicate Valid()
      reads this
    {
      forall a, b | a in programs && b in programs && a != b :: programs[a] != programs[b]
    }

    /** The state of every program, which is what the steps of the start path act on. */
    function View(): Statuses
      reads this, programs.Values
    {
      map n | n in programs :: programs[n].state
    }

    function Pids(): map<Name, nat>
      reads this, programs.Values
    {
      map n | n in programs :: programs[n].pid
    }

    /** One program object per name, built from the last definition of that name. */
    constructor (configs: seq<Config>)
      ensures this.configs == configs && Valid()
      ensures programs.Keys == LastOf(configs).Keys
      ensures forall n | n in programs ::
                fresh(programs[n]) && programs[n].config == LastOf(configs)[n]
                && programs[n].state == (if LastOf(configs)[n].enabled then ProgState.Pending else Disabled)
      ensures View() == Initial(LastOf(configs))
    {
      this.configs := configs;
      this.programs := map[];
      new;
      var i := 0;
      while i < |configs|
        invariant i <= |configs| && Valid()
        invariant programs.Keys == LastOf(configs[..i]).Keys
        invariant forall n | n in programs ::
                    fresh(programs[n]) && programs[n].config == LastOf(configs[..i])[n]
                    && programs[n].state == (if LastOf(configs[..i])[n].enabled then ProgState.Pending else Disabled)
      {
        assert configs[..i+1][..i] == configs[..i];
        var prog := new Program(configs[i]);
        programs := programs[configs[i].name := prog];
        i := i + 1;
      }
      assert configs[..i] == configs;
    }

    /** The first critical section of a start attempt, seen from the whole table. */
    method BeginStart(n: Name) returns (proceed: bool)
      requires Valid()
      modifies if n in programs then {programs[n]} else {}
      ensures View() == Entered(old(View()), n) && Pids() == old(Pids())
      ensures proceed <==> n in programs && !SkipsStart(old(View())[n])
    {
      if n !in programs {
        return false;
      }
      proceed := programs[n].BeginStart();
    }

    /** One write of a program's state: no other program is touched. */
    method SetState(n: Name, to: ProgState)
      requires Valid() && n in programs
      modifies programs[n]
      ensures View() == old(View())[n := to] && Pids() == old(Pids())
    {
      programs[n].SetState(to);
    }

    /** The section after a successful exec: that one program is running, with its process. */
    method RecordLaunch(n: Name, p: nat)
      requires Valid() && n in programs
      modifies programs[n]
      ensures View() == old(View())[n := Running] && Pids() == old(Pids())[n := p]
    {
      programs[n].RecordLaunch(p);
    }

    /** Enabled programs grouped in dependency order, or the reason why that is impossible. */
    method ResolveDependencies() returns (r: Resolution)
      ensures Justified(EnabledOf(configs), r)
      ensures r.Groups? ==> forall i | 0 <= i < |r.groups| :: InOrder(EnabledOf(configs), r.groups[i])
    {
      var enabled := EnabledOf(configs);
      var bad, err, graph, inDegree := BuildGraph(enabled);
      if bad {
        return err;
      }
      var groups: seq<seq<Name>> := [];
      var remaining := enabled.Keys;
      while remaining != {}
        invariant PartialLayering(enabled, groups, remaining) && Counts(enabled, inDegree, remaining)
        decreases remaining
      {
        var ready := CollectReady(enabled, remaining, inDegree);
        if ready == [] {
          ghost var c := StuckSetHasCycle(enabled, remaining);
          RemainingIsGreatestStuckSet(enabled, groups, remaining);
          return DependencyCycle(remaining);
        }
        PlaceReady(enabled, groups, remaining, ready);
        groups := groups + [ready];
        BeforeStrictTotalOrder(enabled);
        remaining, inDegree := RemoveReady(enabled, graph, ready, remaining, inDegree);
        FirstIsMember(ready);
      }
      NothingRemains(enabled, groups);
      forall i | 0 <= i < |groups| ensures InOrder(enabled, groups[i]) {
        AscendingInOrder(enabled, groups[i]);
      }
      return Groups(groups);
    }
  }
}
