/** Program tables, what a resolution of them must be, and the states programs go through. */
module Programs {
  import opened NameOrder
  import opened Layering

  datatype Resolution =
    | Groups(groups: seq<seq<Name>>)
    | SelfDependency(name: Name)
    | UnknownDependency(name: Name, dep: Name)
    | PhaseViolation(name: Name, dep: Name)
    | DependencyCycle(names: set<Name>)

  /** The last definition of each name. */
  function LastOf(configs: seq<Config>): Configs {
    if configs == [] then map[]
    else
      var c := configs[|configs|-1];
      LastOf(configs[..|configs|-1])[c.name := c]
  }

  /** The last enabled definition of each name. */
  function EnabledOf(configs: seq<Config>): (m: Configs)
    ensures forall n | n in m :: m[n].enabled && m[n].name == n && m[n] in configs
    ensures forall c | c in configs && c.enabled :: c.name in m
  {
    if configs == [] then map[]
    else
      var c := configs[|configs|-1];
      var rest := EnabledOf(configs[..|configs|-1]);
      assert configs == configs[..|configs|-1] + [c];
      if c.enabled then rest[c.name := c] else rest
  }

  /** What each outcome asserts about the configuration. */
  ghost predicate Justified(m: Configs, r: Resolution) {
    match r
    case Groups(groups) => WellFormed(m) && IsLayering(m, groups)
    case SelfDependency(n) => SelfDependent(m, n)
    case UnknownDependency(n, d) => n != d && Dangling(m, n, d)
    case PhaseViolation(n, d) => n != d && CrossesPhase(m, n, d)
    case DependencyCycle(names) =>
      && WellFormed(m) && (exists c :: Cycle(m, c))
      && StuckSet(m, names) && (forall t | StuckSet(m, t) :: t <= names)
  }

  /** Both directions at once: groups are returned exactly for a well-formed acyclic graph, the cycle
      error exactly for a well-formed cyclic one, and whichever justified outcome arises, a second
      resolution under other iteration orders agrees with it. */
  lemma ResolutionDetermined(m: Configs, r: Resolution, s: Resolution)
    requires Justified(m, r) && Justified(m, s)
    ensures r.Groups? <==> WellFormed(m) && forall c :: !Cycle(m, c)
    ensures r.DependencyCycle? <==> WellFormed(m) && exists c :: Cycle(m, c)
    ensures r.Groups? || r.DependencyCycle? ==> r == s
  {
    forall t, c | (t == r || t == s) && t.Groups? ensures !Cycle(m, c) {
      ScheduleIsAcyclic(m, t.groups, c);
    }
    if r.Groups? && s.Groups? {
      LayeringUnique(m, r.groups, s.groups);
    }
  }

  /** In every justified result, no group has a later program before an early one, a higher priority value before a
      lower one in the same phase, or a larger name before a smaller one of the same phase and priority. */
  lemma GroupsInOrder(m: Configs, r: Resolution, i: nat)
    requires Justified(m, r) && r.Groups? && i < |r.groups|
    ensures InOrder(m, r.groups[i])
  {
    AscendingInOrder(m, r.groups[i]);
  }

  /** A managed program: the fields the start path and the monitors update under the program's lock. */
  datatype ProgState = Pending | WaitingDeps | WaitingDelay | Starting | Running | Healthy
    | Done | Failed | HealthFailed | Stopped | Disabled

  /** The states in which a start attempt has nothing to do. */
  predicate SkipsStart(s: ProgState) {
    s == Running || s == Healthy || s == Starting || s == Disabled
  }

  type Statuses = map<Name, ProgState>

  /** The table of program states before anything is started. */
  function Initial(progs: Configs): Statuses {
    map n | n in progs :: if progs[n].enabled then Pending else Disabled
  }

  /** The table of program states after the first critical section of a start attempt for `n`. */
  function Entered(status: Statuses, n: Name): Statuses {
    if n in status && !SkipsStart(status[n]) then status[n := WaitingDeps] else status
  }

  /** `progs` is the table of programs, `m` its enabled part, which the resolver sees; phases are the two known ones. */
  ghost predicate Tables(progs: Configs, m: Configs) {
    && (forall n :: n in m <==> n in progs && progs[n].enabled)
    && (forall n | n in m :: m[n] == progs[n])
    && (forall n | n in progs :: progs[n].phase in {PHASE_EARLY, PHASE_POST})
  }
}
