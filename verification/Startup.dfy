/** The whole start of a session: the early phase and then the post phase, each with its groups and barriers, can run to
    success exactly when the configuration resolves. */
module Startup {
  import opened NameOrder
  import opened Layering
  import opened Programs
  import opened Launcher
  import opened LaunchSafety
  import opened LaunchMeaning
  import opened Launchability
  import G = GroupRun

  // ---- one member ----

  lemma Begin(progs: Configs, res: Resolution, o: State, s: State, w: WorkerId, n: Name) returns (t: State)
    requires Leads(progs, res, o, s) && Standing(s, w, n, Entering, s.status)
    requires n in s.status && !SkipsStart(s.status[n])
    ensures Leads(progs, res, o, t) && Standing(t, w, n, WaitingFor(0), s.status[n := WaitingDeps])
    ensures OnlyMoved(s, t, w) && t.runs == s.runs && t.phases == s.phases
  {
    hide Leads;
    t := Take(progs, res, o, s, Enter(w));
  }

  /** A spawned worker whose dependencies are all healthy brings its program up and reports to its run. */
  lemma MemberUp(progs: Configs, res: Resolution, o: State, s: State, w: WorkerId, n: Name) returns (t: State)
    requires Leads(progs, res, o, s) && Standing(s, w, n, Entering, s.status) && n in progs && n in s.status
    requires !SkipsStart(s.status[n]) && n !in progs[n].dependsOn
    requires forall d | d in progs[n].dependsOn :: d in s.status && s.status[d] == Healthy
    ensures Leads(progs, res, o, t) && t.status == s.status[n := Healthy] && LaunchedIn(t.history, n)
    ensures OnlyMoved(s, t, w) && t.workers[w] == Worker(n, Returned(true))
    ensures t.runs == Return(s, w, true).runs && t.phases == s.phases
  {
    hide Leads, LaunchedIn;
    var a := Begin(progs, res, o, s, w, n);
    var b := ObserveAll(progs, res, o, a, w, n, 0);
    var c := Delay(progs, res, o, b, w, n);
    var d := LaunchNow(progs, res, o, c, w, n);
    t := BecomeHealthy(progs, res, o, d, w, n);
  }

  // ---- one group ----

  /** Exactly the programs in `up` are up, and everything else is as at the beginning. */
  ghost predicate UpNow(progs: Configs, res: Resolution, s: State, up: set<Name>) {
    && Leads(progs, res, Init(progs), s) && s.status == StatusAfter(progs, up)
    && forall n | n in up :: LaunchedIn(s.history, n)
  }

  /** Only this run has moved. */
  ghost predicate OtherRunsStand(s: State, t: State, run: nat) {
    && t.phases == s.phases && t.runs.Keys == s.runs.Keys
    && forall r | r in s.runs && r != run :: t.runs[r] == s.runs[r]
  }

  /** The run waits for the members `todo` of its group, whose workers have not begun. */
  ghost predicate Awaiting(s: State, run: nat, todo: set<Name>) {
    && run in s.runs && s.runs[run].status == G.Waiting && s.runs[run].cursor < |s.runs[run].groups|
    && G.NoErrors(s.runs[run])
    && var r := s.runs[run];
    && (forall n | n in todo ::
          var slot := G.Slot(r.cursor, n);
          && slot in r.begun && slot !in r.returned
          && Member(run, slot) in s.workers && s.workers[Member(run, slot)] == Worker(n, Entering))
    && (forall n | n in r.groups[r.cursor] :: n in todo || G.Slot(r.cursor, n) in r.returned)
  }

  lemma OneMember(progs: Configs, res: Resolution, s: State, run: nat, todo: set<Name>, up: set<Name>, n: Name)
    returns (t: State)
    requires UpNow(progs, res, s, up) && Awaiting(s, run, todo) && n in todo && Closed(progs, up, n)
    ensures UpNow(progs, res, t, up + {n}) && Awaiting(t, run, todo - {n}) && OtherRunsStand(s, t, run)
    ensures t.runs[run] == s.runs[run].(returned := t.runs[run].returned)
  {
    hide Leads, LaunchedIn;
    var w := Member(run, G.Slot(s.runs[run].cursor, n));
    t := MemberUp(progs, res, Init(progs), s, w, n);
    assert t.status == StatusAfter(progs, up + {n});
    forall x | x in up + {n} ensures LaunchedIn(t.history, x) {
      if x != n {
        LaunchedStays(s.history, t.history, x);
      }
    }
  }

  lemma {:induction false} WholeGroup(progs: Configs, res: Resolution, s: State, run: nat, todo: set<Name>,
                                      up: set<Name>)
    returns (t: State)
    requires UpNow(progs, res, s, up) && Awaiting(s, run, todo)
    requires forall n | n in todo :: Closed(progs, up, n)
    ensures UpNow(progs, res, t, up + todo) && Awaiting(t, run, {}) && OtherRunsStand(s, t, run)
    ensures t.runs[run] == s.runs[run].(returned := t.runs[run].returned)
    decreases todo
  {
    hide UpNow, Awaiting;
    if todo == {} {
      t := s;
      assert up + todo == up && todo == {};
      AwaitingNone(s, run, todo);
    } else {
      AwaitingNone(s, run, todo);
      var n :| n in todo;
      var u := OneMember(progs, res, s, run, todo, up, n);
      t := WholeGroup(progs, res, u, run, todo - {n}, up + {n});
      assert up + {n} + (todo - {n}) == up + todo;
    }
  }

  lemma AwaitingNone(s: State, run: nat, todo: set<Name>)
    requires Awaiting(s, run, todo)
    ensures run in s.runs
  {
  }

  /** The run stands at the barrier before group `g`. */
  ghost predicate AtBarrier(s: State, run: nat, g: nat) {
    && run in s.runs && s.runs[run].status == G.Ready && s.runs[run].cursor == g <= |s.runs[run].groups|
    && G.NoErrors(s.runs[run])
  }

  /** No slot of the next group has a worker yet. */
  lemma NoneSpawned(progs: Configs, res: Resolution, s: State, run: nat, g: nat, n: Name)
    requires RunsInv(progs, res, s) && AtBarrier(s, run, g) && g < |s.runs[run].groups|
    ensures G.Slot(g, n) !in s.runs[run].begun && G.Slot(g, n) !in s.runs[run].returned
    ensures Member(run, G.Slot(g, n)) !in s.workers
  {
    hide PhaseGroups;
    assert RunInv(progs, res, s.runs[run], s.phases[run]);
    assert SlotInv(s.workers, s.runs[run], run, G.Slot(g, n));
  }

  lemma GroupSpawned(progs: Configs, res: Resolution, s: State, run: nat, g: nat, n: Name)
    requires AtBarrier(s, run, g) && g < |s.runs[run].groups| && n in s.runs[run].groups[g]
    requires Member(run, G.Slot(g, n)) !in s.workers
    ensures var t, w := Apply(progs, res, s, RunStep(run, G.BeginGroup)), Member(run, G.Slot(g, n));
            w in t.workers && t.workers[w] == Worker(n, Entering) && G.Slot(g, n) in t.runs[run].begun
  {
  }

  lemma BeginGroup(progs: Configs, res: Resolution, s: State, run: nat, g: nat, up: set<Name>) returns (t: State)
    requires UpNow(progs, res, s, up) && AtBarrier(s, run, g) && g < |s.runs[run].groups| && RunsInv(progs, res, s)
    ensures UpNow(progs, res, t, up) && Awaiting(t, run, Members(s.runs[run].groups[g])) && OtherRunsStand(s, t, run)
    ensures t.runs[run].groups == s.runs[run].groups && t.runs[run].cursor == g
  {
    hide Leads, LaunchedIn, RunsInv, Spawn;
    t := Take(progs, res, Init(progs), s, RunStep(run, G.BeginGroup));
    forall n | n in s.runs[run].groups[g]
      ensures G.Slot(g, n) !in s.runs[run].returned && G.Slot(g, n) in t.runs[run].begun
      ensures Member(run, G.Slot(g, n)) in t.workers
      ensures t.workers[Member(run, G.Slot(g, n))] == Worker(n, Entering)
    {
      NoneSpawned(progs, res, s, run, g, n);
      GroupSpawned(progs, res, s, run, g, n);
    }
  }

  lemma JoinGroup(progs: Configs, res: Resolution, s: State, run: nat, g: nat, up: set<Name>) returns (t: State)
    requires UpNow(progs, res, s, up) && Awaiting(s, run, {}) && s.runs[run].cursor == g
    ensures UpNow(progs, res, t, up) && OtherRunsStand(s, t, run)
    ensures AtBarrier(t, run, g + 1) && t.runs[run].groups == s.runs[run].groups
  {
    hide Leads, LaunchedIn;
    var r := s.runs[run];
    forall slot | slot in G.SlotsOf(r.groups, g) ensures slot in r.returned.Keys {
      assert slot == G.Slot(g, slot.name);
    }
    t := Take(progs, res, Init(progs), s, RunStep(run, G.Join));
  }

  lemma RunGroup(progs: Configs, res: Resolution, s: State, run: nat, g: nat, up: set<Name>) returns (t: State)
    requires UpNow(progs, res, s, up) && AtBarrier(s, run, g) && g < |s.runs[run].groups|
    requires forall n | n in s.runs[run].groups[g] :: Closed(progs, up, n)
    ensures UpNow(progs, res, t, up + Members(s.runs[run].groups[g])) && OtherRunsStand(s, t, run)
    ensures AtBarrier(t, run, g + 1) && t.runs[run].groups == s.runs[run].groups
  {
    hide UpNow, Awaiting, Closed, RunsInv, Reachable;
    StandingReached(progs, res, s, up);
    var a := BeginGroup(progs, res, s, run, g, up);
    AwaitingNone(a, run, Members(s.runs[run].groups[g]));
    var b := WholeGroup(progs, res, a, run, Members(s.runs[run].groups[g]), up);
    t := JoinGroup(progs, res, b, run, g, up + Members(s.runs[run].groups[g]));
  }

  lemma StandingReached(progs: Configs, res: Resolution, s: State, up: set<Name>)
    requires UpNow(progs, res, s, up)
    ensures Reachable(progs, res, s) && Inv(progs, s) && RunsInv(progs, res, s)
  {
    hide Inv, RunsInv;
    LeadsReach(progs, res, s);
    ReachableInv(progs, res, s);
  }

  // ---- one phase ----

  /** The enabled programs of a phase. */
  function OfPhase(progs: Configs, phase: string): set<Name> {
    set n | n in progs && progs[n].enabled && progs[n].phase == phase
  }

  /** What must be up before the phase starts. */
  function Base(progs: Configs, phase: string): set<Name> {
    if phase == "post" then OfPhase(progs, "early") else {}
  }

  /** What is up when the phase has run its first `g` groups. */
  ghost function UpIn(progs: Configs, phase: string, groups: seq<seq<Name>>, g: nat): set<Name>
    requires g <= |groups|
  {
    Base(progs, phase) + set n, j | 0 <= j < g && n in groups[j] && InPhase(progs, phase, n) :: n
  }

  /** A phase whose name is one of the two, of a configuration that resolves. */
  ghost predicate Sound(progs: Configs, m: Configs, res: Resolution, phase: string) {
    Tables(progs, m) && Justified(m, res) && res.Groups? && phase in {"early", "post"}
  }

  lemma DependencyUp(progs: Configs, m: Configs, res: Resolution, phase: string, g: nat, n: Name, d: Name)
    requires Sound(progs, m, res, phase) && g < |res.groups| && n in res.groups[g] && InPhase(progs, phase, n)
    requires DependsOn(progs, n, d)
    ensures d in progs && d in UpIn(progs, phase, res.groups, g) && d != n
  {
    hide Ascending;
    assert n in m && progs[n].phase == phase;
    SameDependency(progs, m, n, d);
    var k: nat :| k < |res.groups| && d in res.groups[k];
    assert k < g;
    if progs[d].phase == phase {
      assert InPhase(progs, phase, d);
    } else {
      assert d in OfPhase(progs, "early");
    }
  }

  /** A member's dependencies are up when its group begins. */
  lemma MemberClosed(progs: Configs, m: Configs, res: Resolution, phase: string, g: nat, n: Name)
    requires Sound(progs, m, res, phase) && g < |res.groups| && n in res.groups[g] && InPhase(progs, phase, n)
    ensures Closed(progs, UpIn(progs, phase, res.groups, g), n)
  {
    hide Ascending, DependsInto;
    assert n in m && progs[n].phase == phase;
    forall d | d in progs[n].dependsOn ensures d in progs && d in UpIn(progs, phase, res.groups, g) && d != n {
      assert DependsOn(progs, n, d);
      DependencyUp(progs, m, res, phase, g, n, d);
    }
    assert n !in Base(progs, phase);
  }

  lemma UpGrows(progs: Configs, phase: string, groups: seq<seq<Name>>, g: nat)
    requires g < |PhaseGroups(progs, phase, groups)|
    ensures UpIn(progs, phase, groups, g + 1) ==
              UpIn(progs, phase, groups, g) + Members(PhaseGroups(progs, phase, groups)[g])
  {
    hide InPhase;
  }

  lemma UpAll(progs: Configs, m: Configs, res: Resolution, phase: string)
    requires Sound(progs, m, res, phase)
    ensures |PhaseGroups(progs, phase, res.groups)| <= |res.groups|
    ensures UpIn(progs, phase, res.groups, |PhaseGroups(progs, phase, res.groups)|) ==
              Base(progs, phase) + OfPhase(progs, phase)
  {
    var r := PhaseGroups(progs, phase, res.groups);
    hide Ascending;
    forall n | n in OfPhase(progs, phase) ensures n in UpIn(progs, phase, res.groups, |r|) {
      assert n in m && InPhase(progs, phase, n);
      var k: nat :| k < |res.groups| && n in res.groups[k];
    }
    forall n | n in UpIn(progs, phase, res.groups, |r|) && n !in Base(progs, phase) ensures n in OfPhase(progs, phase) {
      assert InPhase(progs, phase, n);
    }
  }

  lemma {:induction false} RunPhase(progs: Configs, m: Configs, res: Resolution, s: State, run: nat, phase: string,
                                    g: nat)
    returns (t: State)
    requires Sound(progs, m, res, phase) && res.Groups? && AtBarrier(s, run, g) && g <= |res.groups|
    requires s.runs[run].groups == PhaseGroups(progs, phase, res.groups)
    requires UpNow(progs, res, s, UpIn(progs, phase, res.groups, g))
    ensures UpNow(progs, res, t, Base(progs, phase) + OfPhase(progs, phase)) && OtherRunsStand(s, t, run)
    ensures t.runs[run].status == G.Succeeded
    decreases |res.groups| - g
  {
    hide Sound, UpNow, UpIn, OfPhase, Base, PhaseGroups, Closed;
    var r := s.runs[run].groups;
    UpAll(progs, m, res, phase);
    if g == |r| {
      t := Finish(progs, res, s, run, UpIn(progs, phase, res.groups, g));
    } else {
      forall n | n in r[g] ensures Closed(progs, UpIn(progs, phase, res.groups, g), n) {
        MemberClosed(progs, m, res, phase, g, n);
      }
      var u := RunGroup(progs, res, s, run, g, UpIn(progs, phase, res.groups, g));
      UpGrows(progs, phase, res.groups, g);
      t := RunPhase(progs, m, res, u, run, phase, g + 1);
    }
  }

  lemma Finish(progs: Configs, res: Resolution, s: State, run: nat, up: set<Name>) returns (t: State)
    requires UpNow(progs, res, s, up) && run in s.runs && AtBarrier(s, run, |s.runs[run].groups|)
    ensures UpNow(progs, res, t, up) && OtherRunsStand(s, t, run) && t.runs[run].status == G.Succeeded
  {
    hide Leads, LaunchedIn;
    t := Take(progs, res, Init(progs), s, RunStep(run, G.Finish));
  }

  /** A phase that is started when what comes before it is up brings up all its programs and succeeds. */
  lemma WholePhase(progs: Configs, m: Configs, res: Resolution, s: State, run: nat, phase: string) returns (t: State)
    requires Sound(progs, m, res, phase) && UpNow(progs, res, s, Base(progs, phase)) && run !in s.runs
    ensures UpNow(progs, res, t, Base(progs, phase) + OfPhase(progs, phase))
    ensures run in t.runs && t.runs[run].status == G.Succeeded && t.phases == s.phases[run := phase]
    ensures t.runs.Keys == s.runs.Keys + {run} && forall r | r in s.runs :: t.runs[r] == s.runs[r]
  {
    hide Leads, LaunchedIn, PhaseGroups, OfPhase;
    var u := Take(progs, res, Init(progs), s, StartPhase(run, phase));
    assert UpIn(progs, phase, res.groups, 0) == Base(progs, phase);
    t := RunPhase(progs, m, res, u, run, phase, 0);
  }

  // ---- the session ----

  /** A run of either phase has succeeded, and every enabled program is healthy and was launched. */
  ghost predicate SessionUp(progs: Configs, s: State) {
    && (exists e, p ::
          && e in s.runs && e in s.phases && s.phases[e] == "early" && s.runs[e].status == G.Succeeded
          && p in s.runs && p in s.phases && s.phases[p] == "post" && s.runs[p].status == G.Succeeded)
    && forall n | n in progs && progs[n].enabled :: n in s.status && s.status[n] == Healthy && LaunchedIn(s.history, n)
  }

  lemma SessionComesUp(progs: Configs, m: Configs, res: Resolution) returns (t: State)
    requires Tables(progs, m) && Justified(m, res) && res.Groups?
    ensures Reachable(progs, res, t) && SessionUp(progs, t)
  {
    hide Leads, LaunchedIn, Justified, Reachable, Inv, RunsInv;
    Stay(progs, res, Init(progs));
    assert StatusAfter(progs, {}) == Init(progs).status && Base(progs, "early") == {};
    var s := WholePhase(progs, m, res, Init(progs), 0, "early");
    assert Base(progs, "early") + OfPhase(progs, "early") == Base(progs, "post");
    t := WholePhase(progs, m, res, s, 1, "post");
    StandingReached(progs, res, t, Base(progs, "post") + OfPhase(progs, "post"));
    assert t.runs[0] == s.runs[0] && t.phases[0] == "early" && t.phases[1] == "post";
    forall n | n in progs && progs[n].enabled ensures n in Base(progs, "post") + OfPhase(progs, "post") {
      assert progs[n].phase in {PHASE_EARLY, PHASE_POST};
    }
  }

  /** The two phases can run to success, with every enabled program healthy in the end, exactly when the configuration
      resolves. */
  lemma SessionComesUpIff(progs: Configs, m: Configs, res: Resolution)
    requires Tables(progs, m) && Justified(m, res)
    ensures (exists t :: Reachable(progs, res, t) && SessionUp(progs, t)) <==> res.Groups?
  {
    hide Reachable, Justified;
    if res.Groups? {
      var t := SessionComesUp(progs, m, res);
    }
    forall t | Reachable(progs, res, t) && SessionUp(progs, t) ensures res.Groups? {
      ReachableInv(progs, res, t);
      var e :| e in t.runs;
      assert RunInv(progs, res, t.runs[e], t.phases[e]);
    }
  }
}
