/** From changed files to the build groups and test stages that run. */
module ImpactResolver {

  /** The tables of the resolver: build groups, test stages with the groups each requires, the shared
      group and the groups that bring it in, files that never matter and paths that always do. */
  datatype Config = Config(
    groups: seq<string>,
    stages: seq<Stage>,
    shared: string,
    sharedTransitive: seq<string>,
    safeSkip: set<string>,
    broadRun: set<string>)

  datatype Stage = Stage(name: string, required: seq<string>)

  /** Dependency roots of each build group. */
  type Dependencies = map<string, set<string>>

  datatype Outputs = Outputs(builds: map<string, bool>, runBuild: bool, stages: map<string, bool>)

  /** The tables name only known groups, every stage requires some group, names are not repeated. */
  predicate WellFormed(cfg: Config) {
    && cfg.shared in cfg.groups
    && (forall g :: g in cfg.sharedTransitive ==> g in cfg.groups)
    && (forall st :: st in cfg.stages ==> st.required != [] && forall g :: g in st.required ==> g in cfg.groups)
    && forall i, j :: 0 <= i < j < |cfg.stages| ==> cfg.stages[i].name != cfg.stages[j].name
  }

  // ----- what the outputs should be, as sets -----

  predicate Any(required: seq<string>, hits: set<string>) { exists g :: g in required && g in hits }

  /** Direct hits, plus the shared group when a group that needs it is hit. */
  function Builds(cfg: Config, hits: set<string>): set<string> {
    (set g | g in cfg.groups && g in hits) + if Any(cfg.sharedTransitive, hits) then {cfg.shared} else {}
  }

  /** Stages one of whose groups is hit directly. */
  function Stages(cfg: Config, hits: set<string>): set<string> {
    set i | 0 <= i < |cfg.stages| && Any(cfg.stages[i].required, hits) :: cfg.stages[i].name
  }

  function Enabled(m: map<string, bool>): set<string> { set k | k in m && m[k] }

  function AllGroups(cfg: Config): set<string> { set g | g in cfg.groups }

  /** The loops that fill the outputs from the per-group results; a group without one counts as
      not hit. */
  method ResolveFromGroups(cfg: Config, groupHits: map<string, bool>) returns (outputs: Outputs)
    requires WellFormed(cfg)
    ensures outputs.builds.Keys == AllGroups(cfg)
    ensures Enabled(outputs.builds) == Builds(cfg, Enabled(groupHits))
    ensures outputs.runBuild <==> Builds(cfg, Enabled(groupHits)) != {}
    ensures Enabled(outputs.stages) == Stages(cfg, Enabled(groupHits))
  {
    ghost var hits := Enabled(groupHits);
    var buildGroups := groupHits;
    var needShared := AnyHit(cfg.sharedTransitive, groupHits);
    if needShared {
      buildGroups := buildGroups[cfg.shared := true];
    }
    var builds: map<string, bool> := map[];
    var runBuild := false;
    var i := 0;
    while i < |cfg.groups|
      invariant i <= |cfg.groups|
      invariant builds.Keys == set k | 0 <= k < i :: cfg.groups[k]
      invariant forall g :: g in builds ==> (builds[g] <==> g in buildGroups && buildGroups[g])
      invariant runBuild <==> exists g :: g in builds && builds[g]
    {
      var g := cfg.groups[i];
      var enabled := g in buildGroups && buildGroups[g];
      builds := builds[g := enabled];
      runBuild := runBuild || enabled;
      i := i + 1;
    }
    assert Enabled(builds) == Builds(cfg, hits);
    assert runBuild <==> Enabled(builds) != {} by {
      if g :| g in builds && builds[g] { assert g in Enabled(builds); }
      if g :| g in Enabled(builds) { assert g in builds && builds[g]; }
    }
    var stages := ResolveStages(cfg, groupHits);
    outputs := Outputs(builds, runBuild, stages);
  }

  method ResolveStages(cfg: Config, groupHits: map<string, bool>) returns (stages: map<string, bool>)
    requires WellFormed(cfg)
    ensures Enabled(stages) == Stages(cfg, Enabled(groupHits))
  {
    ghost var hits := Enabled(groupHits);
    stages := map[];
    var i := 0;
    while i < |cfg.stages|
      invariant i <= |cfg.stages| && StagesUpTo(cfg, hits, i, stages)
    {
      var enabled := AnyHit(cfg.stages[i].required, groupHits);
      NextStage(cfg, hits, i, stages, enabled);
      stages := stages[cfg.stages[i].name := enabled];
      i := i + 1;
    }
    AllStages(cfg, hits, stages);
  }

  /** The outputs of the first `n` stages. */
  ghost predicate StagesUpTo(cfg: Config, hits: set<string>, n: nat, stages: map<string, bool>)
    requires n <= |cfg.stages|
  {
    && (forall name :: name in stages ==> exists k :: 0 <= k < n && cfg.stages[k].name == name)
    && (forall k :: 0 <= k < n ==> cfg.stages[k].name in stages)
    && (forall k :: 0 <= k < n ==> (stages[cfg.stages[k].name] <==> Any(cfg.stages[k].required, hits)))
  }

  lemma NextStage(cfg: Config, hits: set<string>, n: nat, stages: map<string, bool>, enabled: bool)
    requires WellFormed(cfg) && n < |cfg.stages| && StagesUpTo(cfg, hits, n, stages)
    requires enabled <==> Any(cfg.stages[n].required, hits)
    ensures StagesUpTo(cfg, hits, n + 1, stages[cfg.stages[n].name := enabled])
  {
    var next := stages[cfg.stages[n].name := enabled];
    forall name | name in next ensures exists k :: 0 <= k < n + 1 && cfg.stages[k].name == name {
      if name in stages {
        var k :| 0 <= k < n && cfg.stages[k].name == name;
        assert 0 <= k < n + 1;
      }
    }
  }

  lemma AllStages(cfg: Config, hits: set<string>, stages: map<string, bool>)
    requires StagesUpTo(cfg, hits, |cfg.stages|, stages)
    ensures Enabled(stages) == Stages(cfg, hits)
  {
    forall name | name in Enabled(stages) ensures name in Stages(cfg, hits) {
      var k :| 0 <= k < |cfg.stages| && cfg.stages[k].name == name;
      assert Any(cfg.stages[k].required, hits);
    }
  }

  method AnyHit(required: seq<string>, groupHits: map<string, bool>) returns (r: bool)
    ensures r <==> Any(required, Enabled(groupHits))
  {
    r := false;
    var i := 0;
    while i < |required|
      invariant i <= |required|
      invariant r <==> exists k :: 0 <= k < i && required[k] in Enabled(groupHits)
    {
      r := r || (required[i] in groupHits && groupHits[required[i]]);
      i := i + 1;
    }
  }

  // ----- the decision -----

  predicate StartsWith(s: string, p: string) { p <= s }

  predicate IsBroad(cfg: Config, f: string) { exists p :: p in cfg.broadRun && StartsWith(f, p) }

  /** A root that ends in a slash covers everything below it; any other matches only itself. */
  predicate Matches(path: string, root: string) {
    (root != "" && root[|root| - 1] == '/' && StartsWith(path, root)) || path == root
  }

  predicate GroupHit(roots: set<string>, changed: set<string>) {
    exists path, root :: path in changed && root in roots && Matches(path, root)
  }

  function Hits(deps: Dependencies, changed: set<string>): set<string> {
    set g | g in deps && GroupHit(deps[g], changed)
  }

  datatype Verdict = Skipped | Everything | FailedOpen | Selected(hits: set<string>)

  function Decide(cfg: Config, deps: Dependencies, dispatched: bool, changed: set<string>): Verdict {
    if dispatched then Everything
    else if changed != {} && changed <= cfg.safeSkip then Skipped
    else if exists f :: f in changed && IsBroad(cfg, f) then Everything
    else
      var hits := Hits(deps, changed);
      if changed != {} && hits == {} then FailedOpen else Selected(hits)
  }

  /** The groups treated as hit. */
  function Chosen(cfg: Config, v: Verdict): set<string> {
    match v
    case Skipped => {}
    case Everything => AllGroups(cfg)
    case FailedOpen => AllGroups(cfg)
    case Selected(hits) => hits
  }

  function BuildsFor(cfg: Config, deps: Dependencies, changed: set<string>): set<string> {
    Builds(cfg, Chosen(cfg, Decide(cfg, deps, false, changed)))
  }

  function StagesFor(cfg: Config, deps: Dependencies, changed: set<string>): set<string> {
    Stages(cfg, Chosen(cfg, Decide(cfg, deps, false, changed)))
  }

  /** The whole resolver, from the event and the changed files to the outputs. */
  method Resolve(cfg: Config, deps: Dependencies, dispatched: bool, changed: set<string>) returns (outputs: Outputs)
    requires WellFormed(cfg) && deps.Keys == AllGroups(cfg)
    ensures var chosen := Chosen(cfg, Decide(cfg, deps, dispatched, changed));
            Enabled(outputs.builds) == Builds(cfg, chosen) && Enabled(outputs.stages) == Stages(cfg, chosen)
  {
    var all := map g | g in deps :: true;
    var none := map g | g in deps :: false;
    assert Enabled(all) == AllGroups(cfg) && Enabled(none) == {};
    if dispatched {
      outputs := ResolveFromGroups(cfg, all);
    } else if changed != {} && changed <= cfg.safeSkip {
      outputs := ResolveFromGroups(cfg, none);
    } else if exists f :: f in changed && IsBroad(cfg, f) {
      outputs := ResolveFromGroups(cfg, all);
    } else {
      var groupHits := map g | g in deps :: GroupHit(deps[g], changed);
      assert Enabled(groupHits) == Hits(deps, changed);
      if changed != {} && forall g :: g in groupHits ==> !groupHits[g] {
        assert Hits(deps, changed) == {};
        outputs := ResolveFromGroups(cfg, all);
      } else {
        if changed != {} {
          var g :| g in groupHits && groupHits[g];
          assert g in Hits(deps, changed);
        }
        outputs := ResolveFromGroups(cfg, groupHits);
      }
    }
  }

  // ----- closure and soundness -----

  /** Whatever is hit: builds are closed under the shared-group rule, and every enabled stage has a
      required group that is built. */
  lemma OutputsAreClosed(cfg: Config, hits: set<string>)
    requires WellFormed(cfg)
    ensures Any(cfg.sharedTransitive, Builds(cfg, hits)) ==> cfg.shared in Builds(cfg, hits)
    ensures forall i :: 0 <= i < |cfg.stages| && cfg.stages[i].name in Stages(cfg, hits) ==>
              Any(cfg.stages[i].required, Builds(cfg, hits))
  {
    if Any(cfg.sharedTransitive, Builds(cfg, hits)) {
      var g :| g in cfg.sharedTransitive && g in Builds(cfg, hits);
      if g in hits { assert Any(cfg.sharedTransitive, hits); }
    }
    forall i | 0 <= i < |cfg.stages| && cfg.stages[i].name in Stages(cfg, hits)
      ensures Any(cfg.stages[i].required, Builds(cfg, hits))
    {
      var k :| 0 <= k < |cfg.stages| && Any(cfg.stages[k].required, hits) && cfg.stages[k].name == cfg.stages[i].name;
      assert k == i;
      var g :| g in cfg.stages[i].required && g in hits;
      assert cfg.stages[i] in cfg.stages;
      assert g in Builds(cfg, hits);
    }
  }

  /** No missed rebuild: unless every change is a safe-skip file, a group with a root that matches a
      changed file is built, and so is every stage that requires it. */
  lemma MatchedGroupsRun(cfg: Config, deps: Dependencies, changed: set<string>, g: string)
    requires WellFormed(cfg) && g in cfg.groups && g in deps && GroupHit(deps[g], changed)
    requires !(changed <= cfg.safeSkip)
    ensures g in BuildsFor(cfg, deps, changed)
    ensures forall i :: 0 <= i < |cfg.stages| && g in cfg.stages[i].required ==>
              cfg.stages[i].name in StagesFor(cfg, deps, changed)
  {
    var chosen := Chosen(cfg, Decide(cfg, deps, false, changed));
    assert g in chosen;
    forall i | 0 <= i < |cfg.stages| && g in cfg.stages[i].required
      ensures cfg.stages[i].name in StagesFor(cfg, deps, changed)
    {
      assert Any(cfg.stages[i].required, chosen);
    }
  }

  // ----- monotonicity -----

  lemma HitsGrow(deps: Dependencies, small: set<string>, large: set<string>)
    requires small <= large
    ensures Hits(deps, small) <= Hits(deps, large)
  {
    forall g | g in Hits(deps, small) ensures g in Hits(deps, large) {
      var path, root :| path in small && root in deps[g] && Matches(path, root);
      assert path in large;
    }
  }

  lemma OutputsGrow(cfg: Config, a: set<string>, b: set<string>)
    requires WellFormed(cfg)
    requires forall g :: g in a && g in cfg.groups ==> g in b
    ensures Builds(cfg, a) <= Builds(cfg, b) && Stages(cfg, a) <= Stages(cfg, b)
  {
    if Any(cfg.sharedTransitive, a) {
      var g :| g in cfg.sharedTransitive && g in a;
      assert g in b;
    }
    forall n | n in Stages(cfg, a) ensures n in Stages(cfg, b) {
      var i :| 0 <= i < |cfg.stages| && Any(cfg.stages[i].required, a) && cfg.stages[i].name == n;
      var g :| g in cfg.stages[i].required && g in a;
      assert cfg.stages[i] in cfg.stages;
      assert Any(cfg.stages[i].required, b);
    }
  }

  /** Every group is hit, or is the shared group and brought in by one that is hit. */
  predicate AllBuilt(cfg: Config, hits: set<string>) {
    forall g :: g in cfg.groups ==> g in hits || (g == cfg.shared && Any(cfg.sharedTransitive, hits))
  }

  predicate AllStaged(cfg: Config, hits: set<string>) {
    forall st :: st in cfg.stages ==> Any(st.required, hits)
  }

  /** A set of changes that is decided without looking at which groups it hits. */
  predicate RunsAll(cfg: Config, deps: Dependencies, changed: set<string>) {
    (exists f :: f in changed && IsBroad(cfg, f)) || Hits(deps, changed) == {}
  }

  /** Enlarging the changed set disables nothing, unless the smaller set was decided by failing open.
      Then a build is lost unless the larger set has a broad file, hits nothing either, or hits every
      group; and a stage is lost unless it has a broad file, hits nothing, or hits every stage. */
  lemma MoreChangesRunMore(cfg: Config, deps: Dependencies, small: set<string>, large: set<string>)
    requires WellFormed(cfg) && small <= large
    ensures BuildsFor(cfg, deps, small) <= BuildsFor(cfg, deps, large)
       <==> !Decide(cfg, deps, false, small).FailedOpen? || RunsAll(cfg, deps, large) || AllBuilt(cfg, Hits(deps, large))
    ensures StagesFor(cfg, deps, small) <= StagesFor(cfg, deps, large)
       <==> !Decide(cfg, deps, false, small).FailedOpen? || RunsAll(cfg, deps, large) || AllStaged(cfg, Hits(deps, large))
  {
    var v, w := Decide(cfg, deps, false, small), Decide(cfg, deps, false, large);
    HitsGrow(deps, small, large);
    if !v.FailedOpen? {
      assert forall g :: g in Chosen(cfg, v) && g in cfg.groups ==> g in Chosen(cfg, w);
      OutputsGrow(cfg, Chosen(cfg, v), Chosen(cfg, w));
    } else {
      EverythingRuns(cfg);
      if !RunsAll(cfg, deps, large) {
        assert w == Selected(Hits(deps, large));
        LosesNothingExactlyWhen(cfg, Hits(deps, large));
      }
    }
  }

  function StageNames(cfg: Config): set<string> { set i | 0 <= i < |cfg.stages| :: cfg.stages[i].name }

  lemma EverythingRuns(cfg: Config)
    requires WellFormed(cfg)
    ensures Builds(cfg, AllGroups(cfg)) == AllGroups(cfg)
    ensures Stages(cfg, AllGroups(cfg)) == StageNames(cfg)
  {
    forall i | 0 <= i < |cfg.stages| ensures Any(cfg.stages[i].required, AllGroups(cfg)) {
      assert cfg.stages[i] in cfg.stages;
      assert cfg.stages[i].required[0] in cfg.stages[i].required;
    }
  }

  lemma LosesNothingExactlyWhen(cfg: Config, hits: set<string>)
    requires WellFormed(cfg)
    ensures AllGroups(cfg) <= Builds(cfg, hits) <==> AllBuilt(cfg, hits)
    ensures StageNames(cfg) <= Stages(cfg, hits) <==> AllStaged(cfg, hits)
  {
    if AllGroups(cfg) <= Builds(cfg, hits) {
      forall g | g in cfg.groups ensures g in hits || (g == cfg.shared && Any(cfg.sharedTransitive, hits)) {
        assert g in AllGroups(cfg);
      }
    }
    if StageNames(cfg) <= Stages(cfg, hits) {
      forall st | st in cfg.stages ensures Any(st.required, hits) {
        var i :| 0 <= i < |cfg.stages| && cfg.stages[i] == st;
        assert st.name in StageNames(cfg);
      }
    }
  }

  /** A file that nothing depends on runs everything alone, and no longer does next to a file that
      one group depends on. */
  lemma FailingOpenIsNotMonotone(cfg: Config, deps: Dependencies, unknown: string, known: string, g: string, other: string)
    requires WellFormed(cfg) && g in cfg.groups && other in cfg.groups && other != cfg.shared
    requires g in deps && other !in Hits(deps, {unknown, known}) && g in Hits(deps, {unknown, known})
    requires Hits(deps, {unknown}) == {} && unknown !in cfg.safeSkip
    requires !IsBroad(cfg, unknown) && !IsBroad(cfg, known)
    ensures other in BuildsFor(cfg, deps, {unknown}) && other !in BuildsFor(cfg, deps, {unknown, known})
  {
    assert unknown in {unknown, known};
    assert Decide(cfg, deps, false, {unknown}).FailedOpen?;
  }

  // ----- the tables in use -----

  const SHARED := "build-shared-containers"
  const CCF := "build-ccf-containers"
  const CGS := "build-cgs-containers"
  const CCR := "build-ccr-containers"
  const CLUSTER := "build-cleanroom-cluster-containers"
  const ANALYTICS := "build-analytics-workload-containers"
  const INFERENCING := "build-kserve-inferencing-workload-containers"
  const FRONTEND := "build-frontend-service-containers"
  const AZCLIEXT := "build-azcliext-cleanroom"

  const GROUPS := [SHARED, CCF, CGS, CCR, CLUSTER, ANALYTICS, INFERENCING, FRONTEND, AZCLIEXT]

  const TEST_CGS := Stage("test-cgs", [SHARED, CGS, CCF])
  const TEST_CCF := Stage("test-ccf", [SHARED, CCF])
  const TEST_CLUSTER := Stage("test-cleanroom-cluster", [SHARED, CCR, CLUSTER, ANALYTICS, INFERENCING, FRONTEND])
  const TEST_COLLAB := Stage("test-multi-party-collab", [SHARED, CCR, ANALYTICS, AZCLIEXT])
  const TEST_WORKLOADS := Stage("test-workloads", [SHARED, CLUSTER, ANALYTICS, INFERENCING, FRONTEND, AZCLIEXT])

  const TABLES := Config(
    GROUPS,
    [TEST_CGS, TEST_CCF, TEST_CLUSTER, TEST_COLLAB, TEST_WORKLOADS],
    SHARED,
    [CCF, CCR, ANALYTICS, INFERENCING, FRONTEND],
    {"CODE_OF_CONDUCT.md", "LICENSE", "SECURITY.md", "SUPPORT.md"},
    {".github/", "build/", "docker/", "external/", "outdated/", "poc/", "samples/", "scripts/", "templates/",
     "test/", "workloads/", "Directory.Build.props", "Directory.Packages.props",
     "Menees.Analyzers.Settings.xml", "go.mod", "pyproject.toml", "stylecop.json"})

  lemma TablesAreWellFormed()
    ensures WellFormed(TABLES)
  {
  }
}
