/** Respawn decisions at startup (`buildOpenClawCompileCacheRespawnPlan`, `buildCliRespawnPlan`) and the chains
  * of processes they lead to, each started from its predecessor's plan. */
module RespawnPlan {
  import opened JsText

  type Env = map<string, string>

  const EXPERIMENTAL_WARNING_FLAG := "--disable-warning=ExperimentalWarning"
  const NO_WARNINGS := "--no-warnings"
  const NODE_OPTIONS := "NODE_OPTIONS"
  const NODE_EXTRA_CA_CERTS := "NODE_EXTRA_CA_CERTS"
  const NODE_COMPILE_CACHE := "NODE_COMPILE_CACHE"
  const NODE_DISABLE_COMPILE_CACHE := "NODE_DISABLE_COMPILE_CACHE"
  const OPENCLAW_NO_RESPAWN := "OPENCLAW_NO_RESPAWN"
  const OPENCLAW_NODE_OPTIONS_READY := "OPENCLAW_NODE_OPTIONS_READY"
  const OPENCLAW_NODE_EXTRA_CA_CERTS_READY := "OPENCLAW_NODE_EXTRA_CA_CERTS_READY"
  const OPENCLAW_SOURCE_COMPILE_CACHE_RESPAWNED := "OPENCLAW_SOURCE_COMPILE_CACHE_RESPAWNED"

  /** What a process starts with. `argv` holds the executable, the script and the arguments after it. */
  datatype Process = Process(env: Env, execPath: string, execArgv: seq<string>, argv: seq<string>)

  /** What stays the same from one process to the next: the platform, the install, and the argument policy. */
  datatype Machine = Machine(
    win32: bool,
    sourceCheckout: bool,
    currentFile: string,
    skipStartupEnvironment: seq<string> -> bool,
    skipRespawn: seq<string> -> bool)

  datatype Plan = Plan(command: string, argv: seq<string>, env: Env)

  function Drop<T>(s: seq<T>, n: nat): seq<T> {
    if n <= |s| then s[n..] else []
  }

  predicate IsTruthy(env: Env, name: string) {
    name in env && ToLowerCase(Trim(env[name])) in {"1", "on", "true", "yes"}
  }

  predicate Suppressed(env: Env, execArgv: seq<string>) {
    || (NODE_OPTIONS in env &&
        (Includes(env[NODE_OPTIONS], EXPERIMENTAL_WARNING_FLAG) || Includes(env[NODE_OPTIONS], NO_WARNINGS)))
    || EXPERIMENTAL_WARNING_FLAG in execArgv
    || NO_WARNINGS in execArgv
  }

  function Basename(path: string): string {
    if path == "" then ""
    else if path[|path| - 1] == '/' then Basename(path[..|path| - 1])
    else LastSegment(path)
  }

  function LastSegment(path: string): string {
    if path == "" || path[|path| - 1] == '/' then ""
    else LastSegment(path[..|path| - 1]) + [path[|path| - 1]]
  }

  function ResolveCommand(execPath: string): string {
    if ToLowerCase(Basename(execPath)) in {"volta-shim", "volta-shim.exe"} then "node" else execPath
  }

  // ----- the two plans -----

  /** `cacheDir` is what the runtime reports, "" for none. */
  function CachePlan(m: Machine, p: Process, cacheDir: string): Option<Plan> {
    var requested := NODE_COMPILE_CACHE in p.env && NODE_DISABLE_COMPILE_CACHE !in p.env;
    if !m.sourceCheckout then None
    else if OPENCLAW_SOURCE_COMPILE_CACHE_RESPAWNED in p.env && p.env[OPENCLAW_SOURCE_COMPILE_CACHE_RESPAWNED] == "1"
    then None
    else if cacheDir == "" && !requested then None
    else Some(Plan(
      p.execPath,
      p.execArgv + [m.currentFile] + Drop(p.argv, 2),
      p.env[NODE_DISABLE_COMPILE_CACHE := "1"][OPENCLAW_SOURCE_COMPILE_CACHE_RESPAWNED := "1"]
        - {NODE_COMPILE_CACHE}))
  }

  /** `detected` is the certificate file found on this machine, "" for none. */
  predicate WantsCerts(p: Process, detected: string) {
    && (if NODE_EXTRA_CA_CERTS in p.env then p.env[NODE_EXTRA_CA_CERTS] else detected) != ""
    && !IsTruthy(p.env, OPENCLAW_NODE_EXTRA_CA_CERTS_READY)
    && (NODE_EXTRA_CA_CERTS !in p.env || p.env[NODE_EXTRA_CA_CERTS] == "")
  }

  predicate WantsFlag(m: Machine, p: Process) {
    && !m.skipRespawn(p.argv)
    && !IsTruthy(p.env, OPENCLAW_NODE_OPTIONS_READY)
    && !Suppressed(p.env, p.execArgv)
  }

  predicate MayRespawn(m: Machine, p: Process) {
    !m.skipStartupEnvironment(p.argv) && !IsTruthy(p.env, OPENCLAW_NO_RESPAWN) && !m.win32
  }

  function CliPlan(m: Machine, p: Process, detected: string): Option<Plan> {
    var certs, flag := WantsCerts(p, detected), WantsFlag(m, p);
    if !MayRespawn(m, p) || !(certs || flag) then None
    else
      var env := if certs then p.env[NODE_EXTRA_CA_CERTS := detected][OPENCLAW_NODE_EXTRA_CA_CERTS_READY := "1"]
          else p.env;
      Some(Plan(
        ResolveCommand(p.execPath),
        (if flag then [EXPERIMENTAL_WARNING_FLAG] + p.execArgv else p.execArgv) + Drop(p.argv, 1),
        if flag then env[OPENCLAW_NODE_OPTIONS_READY := "1"] else env))
  }

  /** The builder with its edited copies and its flag. */
  method BuildCliRespawnPlan(m: Machine, p: Process, detected: string) returns (plan: Option<Plan>)
    ensures plan == CliPlan(m, p, detected)
  {
    if m.skipStartupEnvironment(p.argv) || IsTruthy(p.env, OPENCLAW_NO_RESPAWN) {
      return None;
    }
    if m.win32 {
      return None;
    }
    var childEnv := p.env;
    var childExecArgv := p.execArgv;
    var needsRespawn := false;
    var autoCerts := if NODE_EXTRA_CA_CERTS in p.env then p.env[NODE_EXTRA_CA_CERTS] else detected;
    if autoCerts != "" && !IsTruthy(p.env, OPENCLAW_NODE_EXTRA_CA_CERTS_READY)
       && (NODE_EXTRA_CA_CERTS !in p.env || p.env[NODE_EXTRA_CA_CERTS] == "") {
      childEnv := childEnv[NODE_EXTRA_CA_CERTS := autoCerts];
      childEnv := childEnv[OPENCLAW_NODE_EXTRA_CA_CERTS_READY := "1"];
      needsRespawn := true;
    }
    if !m.skipRespawn(p.argv) && !IsTruthy(p.env, OPENCLAW_NODE_OPTIONS_READY) && !Suppressed(p.env, p.execArgv) {
      childEnv := childEnv[OPENCLAW_NODE_OPTIONS_READY := "1"];
      childExecArgv := [EXPERIMENTAL_WARNING_FLAG] + childExecArgv;
      needsRespawn := true;
    }
    if !needsRespawn {
      return None;
    }
    return Some(Plan(ResolveCommand(p.execPath), childExecArgv + Drop(p.argv, 1), childEnv));
  }

  // ----- chains -----

  /** One process of a chain with what it observes: the cache directory and the certificates of this moment, and
    * its environment once the entry point has set its own variables. */
  datatype Link = Link(process: Process, cacheDir: string, detected: string, tidied: Env)

  datatype Decision = Stay | ForCache(plan: Plan) | ForCli(plan: Plan)

  function Decide(m: Machine, link: Link): Decision {
    var cache := CachePlan(m, link.process, link.cacheDir);
    var cli := CliPlan(m, link.process.(env := link.tidied), link.detected);
    if cache.Some? then ForCache(cache.value) else if cli.Some? then ForCli(cli.value) else Stay
  }

  predicate SameAt(a: Env, b: Env, name: string) {
    (name in a <==> name in b) && (name in a ==> a[name] == b[name])
  }

  /** The entry point sets variables of its own and leaves the three markers alone. */
  predicate Tidy(link: Link) {
    && SameAt(link.process.env, link.tidied, OPENCLAW_NODE_OPTIONS_READY)
    && SameAt(link.process.env, link.tidied, OPENCLAW_NODE_EXTRA_CA_CERTS_READY)
    && SameAt(link.process.env, link.tidied, OPENCLAW_SOURCE_COMPILE_CACHE_RESPAWNED)
  }

  /** The runtime hands the child the plan's arguments, split where the script begins. */
  predicate StartedFrom(plan: Plan, parent: Process, child: Process) {
    && child.env == plan.env
    && |child.argv| == |parent.argv| >= 2
    && child.execArgv + child.argv[1..] == plan.argv
  }

  predicate Follows(m: Machine, parent: Link, child: Link) {
    && Tidy(parent)
    && Decide(m, parent) != Stay
    && StartedFrom(Decide(m, parent).plan, parent.process, child.process)
  }

  predicate IsChain(m: Machine, chain: seq<Link>) {
    var last := |chain| - 1;
    chain != [] && (last > 0 ==> Follows(m, chain[last - 1], chain[last]) && IsChain(m, chain[..last]))
  }

  /** How many of the respawns along a chain are of each kind. */
  function CacheRespawns(m: Machine, chain: seq<Link>): nat {
    if |chain| < 2 then 0
    else CacheRespawns(m, chain[..|chain| - 1]) + if Decide(m, chain[|chain| - 2]).ForCache? then 1 else 0
  }

  function CliRespawns(m: Machine, chain: seq<Link>): nat {
    if |chain| < 2 then 0
    else CliRespawns(m, chain[..|chain| - 1]) + if Decide(m, chain[|chain| - 2]).ForCli? then 1 else 0
  }

  predicate CacheDone(env: Env) {
    OPENCLAW_SOURCE_COMPILE_CACHE_RESPAWNED in env && env[OPENCLAW_SOURCE_COMPILE_CACHE_RESPAWNED] == "1"
  }

  /** The markers of the two reasons for a CLI respawn that are still unset. */
  function CliMarkersUnset(env: Env): nat {
    (if IsTruthy(env, OPENCLAW_NODE_EXTRA_CA_CERTS_READY) then 0 else 1) +
    (if IsTruthy(env, OPENCLAW_NODE_OPTIONS_READY) then 0 else 1)
  }

  lemma OneIsTruthy(env: Env, name: string)
    requires name in env && env[name] == "1"
    ensures IsTruthy(env, name)
  {
    assert Trimmed("1");
    TrimFixesTrimmed("1");
    assert ToLowerCase("1") == "1";
  }

  /** The termination measure of a chain: each respawn sets a marker that was unset, and none is ever unset. */
  lemma RespawnSetsMarker(m: Machine, parent: Link, child: Link)
    requires Follows(m, parent, child)
    ensures var a, b := parent.process.env, child.process.env;
      && (CacheDone(a) ==> CacheDone(b))
      && CliMarkersUnset(b) <= CliMarkersUnset(a)
      && (Decide(m, parent).ForCache? ==> !CacheDone(a) && CacheDone(b))
      && (Decide(m, parent).ForCli? ==> CliMarkersUnset(b) < CliMarkersUnset(a))
  {
    var b := child.process.env;
    if Decide(m, parent).ForCli? {
      var p := parent.process.(env := parent.tidied);
      if WantsCerts(p, parent.detected) {
        OneIsTruthy(b, OPENCLAW_NODE_EXTRA_CA_CERTS_READY);
      }
      if WantsFlag(m, p) {
        OneIsTruthy(b, OPENCLAW_NODE_OPTIONS_READY);
      }
    }
  }

  /** However caches and certificates come and go between the processes, a chain holds at most one respawn away
    * from the compile cache and at most two for the CLI: no chain has more than four processes. */
  lemma {:induction false} ChainsAreShort(m: Machine, chain: seq<Link>)
    requires IsChain(m, chain)
    ensures var last := chain[|chain| - 1].process.env;
      && CacheRespawns(m, chain) <= (if CacheDone(last) then 1 else 0)
      && CliRespawns(m, chain) + CliMarkersUnset(last) <= 2
    ensures |chain| == 1 + CacheRespawns(m, chain) + CliRespawns(m, chain) <= 4
  {
    if |chain| > 1 {
      var front := chain[..|chain| - 1];
      ChainsAreShort(m, front);
      assert front[|front| - 1] == chain[|chain| - 2];
      RespawnSetsMarker(m, chain[|chain| - 2], chain[|chain| - 1]);
    }
  }

  lemma ChildArguments(m: Machine, parent: Link, child: Link)
    requires Follows(m, parent, child)
    ensures child.process.argv[2..] == parent.process.argv[2..]
    ensures var flag := Decide(m, parent).ForCli? && WantsFlag(m, parent.process.(env := parent.tidied));
      child.process.execArgv == (if flag then [EXPERIMENTAL_WARNING_FLAG] else []) + parent.process.execArgv
    ensures child.process.argv[1] == if Decide(m, parent).ForCache? then m.currentFile else parent.process.argv[1]
  {
    var p, c := parent.process, child.process;
    var flag := Decide(m, parent).ForCli? && WantsFlag(m, p.(env := parent.tidied));
    var options := (if flag then [EXPERIMENTAL_WARNING_FLAG] else []) + p.execArgv;
    var script := [if Decide(m, parent).ForCache? then m.currentFile else p.argv[1]] + p.argv[2..];
    assert Decide(m, parent).plan.argv == options + script by {
      assert p.argv[1..] == [p.argv[1]] + p.argv[2..];
      assert p.execArgv + [m.currentFile] + p.argv[2..] == p.execArgv + ([m.currentFile] + p.argv[2..]);
    }
    SplitAtScript(c.execArgv, c.argv[1..], options, script);
    assert c.argv[2..] == c.argv[1..][1..];
    assert script[1..] == p.argv[2..];
  }

  lemma SplitAtScript<T>(a: seq<T>, b: seq<T>, c: seq<T>, d: seq<T>)
    requires a + b == c + d && |b| == |d|
    ensures a == c && b == d
  {
    assert a == (a + b)[..|a|] && c == (c + d)[..|c|];
    assert b == (a + b)[|a|..] && d == (c + d)[|c|..];
  }

  /** Along a whole chain the arguments after the script are the original ones, and the runtime options are the
    * original ones or those with the warning flag put in front once; once the flag's marker is set, or when the
    * flag was among the options from the start, it is not added. */
  lemma {:induction false} ChainsKeepArguments(m: Machine, chain: seq<Link>)
    requires IsChain(m, chain)
    ensures var first, last := chain[0].process, chain[|chain| - 1].process;
      && Drop(last.argv, 2) == Drop(first.argv, 2)
      && (last.execArgv == first.execArgv || last.execArgv == [EXPERIMENTAL_WARNING_FLAG] + first.execArgv)
      && (last.execArgv != first.execArgv ==>
            IsTruthy(last.env, OPENCLAW_NODE_OPTIONS_READY) && EXPERIMENTAL_WARNING_FLAG !in first.execArgv)
  {
    if |chain| > 1 {
      var front := chain[..|chain| - 1];
      var parent, child := chain[|chain| - 2], chain[|chain| - 1];
      ChainsKeepArguments(m, front);
      assert front[|front| - 1] == parent && front[0] == chain[0];
      ChildArguments(m, parent, child);
      if Decide(m, parent).ForCli? && WantsFlag(m, parent.process.(env := parent.tidied)) {
        OneIsTruthy(child.process.env, OPENCLAW_NODE_OPTIONS_READY);
      } else {
        assert [] + parent.process.execArgv == parent.process.execArgv;
      }
    }
  }

  /** A child sees every variable as its parent's entry point left it, except the ones the plans set or remove. */
  lemma OtherVariablesPass(m: Machine, parent: Link, child: Link, name: string)
    requires Follows(m, parent, child) && Tidy(parent)
    requires name !in {NODE_EXTRA_CA_CERTS, OPENCLAW_NODE_EXTRA_CA_CERTS_READY, OPENCLAW_NODE_OPTIONS_READY,
                       NODE_COMPILE_CACHE, NODE_DISABLE_COMPILE_CACHE, OPENCLAW_SOURCE_COMPILE_CACHE_RESPAWNED}
    ensures SameAt(child.process.env, if Decide(m, parent).ForCache? then parent.process.env else parent.tidied, name)
  {
  }

  /** Along a whole chain a variable that no entry point touches, and no plan sets or removes, keeps its value. */
  lemma {:induction false} ChainsKeepVariables(m: Machine, chain: seq<Link>, name: string)
    requires IsChain(m, chain) && forall i | 0 <= i < |chain| :: SameAt(chain[i].process.env, chain[i].tidied, name)
    requires name !in {NODE_EXTRA_CA_CERTS, OPENCLAW_NODE_EXTRA_CA_CERTS_READY, OPENCLAW_NODE_OPTIONS_READY,
                       NODE_COMPILE_CACHE, NODE_DISABLE_COMPILE_CACHE, OPENCLAW_SOURCE_COMPILE_CACHE_RESPAWNED}
    ensures SameAt(chain[0].process.env, chain[|chain| - 1].process.env, name)
  {
    hide Decide, StartedFrom;
    if |chain| > 1 {
      var front := chain[..|chain| - 1];
      var parent := chain[|chain| - 2];
      assert front[|front| - 1] == parent && front[0] == chain[0];
      ChainsKeepVariables(m, front, name);
      OtherVariablesPass(m, parent, chain[|chain| - 1], name);
    }
  }

  /** A respawn serves its reason: a child respawned away from the cache neither has nor requests one, and a CLI
    * child has the certificates that were wanted and the warning suppressed if that was wanted. */
  lemma RespawnServesItsReason(m: Machine, parent: Link, child: Link)
    requires Follows(m, parent, child)
    ensures Decide(m, parent).ForCache? ==>
      NODE_COMPILE_CACHE !in child.process.env && NODE_DISABLE_COMPILE_CACHE in child.process.env
    ensures var p := parent.process.(env := parent.tidied);
      Decide(m, parent).ForCli? ==>
        && (WantsCerts(p, parent.detected) ==>
              parent.detected != ""
                && SameAt(child.process.env, map[NODE_EXTRA_CA_CERTS := parent.detected], NODE_EXTRA_CA_CERTS))
        && (!WantsCerts(p, parent.detected) ==> SameAt(child.process.env, p.env, NODE_EXTRA_CA_CERTS))
        && (WantsFlag(m, p) ==> Suppressed(child.process.env, child.process.execArgv))
  {
    ChildArguments(m, parent, child);
  }

  lemma {:induction false} SlashesGo(path: string, slashes: string)
    requires forall c | c in slashes :: c == '/'
    ensures Basename(path + slashes) == Basename(path)
  {
    if slashes == "" {
      assert path + slashes == path;
    } else {
      var n := |slashes| - 1;
      assert slashes[n] in slashes && forall c | c in slashes[..n] :: c in slashes;
      assert (path + slashes)[..|path + slashes| - 1] == path + slashes[..n];
      SlashesGo(path, slashes[..n]);
    }
  }

  lemma {:induction false} LastSegmentOfPath(dir: string, name: string)
    requires '/' !in name
    ensures LastSegment(dir + "/" + name) == name
  {
    var path := dir + "/" + name;
    if name != "" {
      var front := name[..|name| - 1];
      LastSegmentOfPath(dir, front);
      assert path[..|path| - 1] == dir + "/" + front;
      assert path[|path| - 1] == name[|name| - 1] && name[|name| - 1] in name;
    }
  }

  /** A plan runs the executable itself, unless that is a version manager's shim, whatever its directory and case. Every
    * path has this form. */
  lemma ShimIsReplaced(dir: string, name: string, slashes: string)
    requires '/' !in name && (dir == "" || (name != "" && dir[|dir| - 1] == '/'))
    requires forall c | c in slashes :: c == '/'
    ensures var path := dir + name + slashes;
      ResolveCommand(path) == if ToLowerCase(name) in {"volta-shim", "volta-shim.exe"} then "node" else path
  {
    SlashesGo(dir + name, slashes);
    if name == "" {
      assert dir + name == "";
    } else {
      assert name[|name| - 1] in name && (dir + name)[|dir + name| - 1] == name[|name| - 1];
      if dir == "" {
        assert dir + name == name;
        BareName(name);
      } else {
        assert dir == dir[..|dir| - 1] + "/";
        LastSegmentOfPath(dir[..|dir| - 1], name);
      }
    }
  }

  lemma {:induction false} BareName(name: string)
    requires '/' !in name
    ensures LastSegment(name) == name
  {
    if name != "" {
      assert name[|name| - 1] in name && name == name[..|name| - 1] + [name[|name| - 1]];
      BareName(name[..|name| - 1]);
    }
  }

  // ----- when the surroundings hold still -----

  /** The entry point also leaves the runtime's own two variables alone. */
  predicate Quiet(link: Link) {
    && Tidy(link)
    && SameAt(link.process.env, link.tidied, NODE_OPTIONS)
    && SameAt(link.process.env, link.tidied, NODE_EXTRA_CA_CERTS)
  }

  /** Every process sees the same certificates, and the argument policy answers alike for all of them. */
  predicate Steady(m: Machine, chain: seq<Link>) {
    forall i | 0 <= i < |chain| ::
      && Quiet(chain[i])
      && chain[i].detected == chain[0].detected
      && m.skipRespawn(chain[i].process.argv) == m.skipRespawn(chain[0].process.argv)
  }

  predicate Settled(m: Machine, link: Link) {
    var p := link.process.(env := link.tidied);
    !WantsCerts(p, link.detected) && !WantsFlag(m, p)
  }

  /** A CLI respawn answers both reasons at once, and a respawn away from the cache brings neither back. */
  lemma ChildSettles(m: Machine, parent: Link, child: Link)
    requires Follows(m, parent, child) && Quiet(parent) && Quiet(child)
    requires parent.detected == child.detected
    requires m.skipRespawn(parent.process.argv) == m.skipRespawn(child.process.argv)
    requires Decide(m, parent).ForCli? || Settled(m, parent)
    ensures Settled(m, child)
  {
    var p := parent.process.(env := parent.tidied);
    var c := child.process.(env := child.tidied);
    ChildArguments(m, parent, child);
    assert [] + p.execArgv == p.execArgv;
    if Decide(m, parent).ForCli? {
      if WantsCerts(p, parent.detected) {
        OneIsTruthy(c.env, OPENCLAW_NODE_EXTRA_CA_CERTS_READY);
      }
      if WantsFlag(m, p) {
        OneIsTruthy(c.env, OPENCLAW_NODE_OPTIONS_READY);
      }
    }
  }

  lemma SettledStays(m: Machine, link: Link)
    ensures Settled(m, link) ==> !Decide(m, link).ForCli?
  {
  }

  /** When the surroundings hold still, one CLI respawn is all there is: no chain has more than three processes. */
  lemma {:induction false} SteadyChainsAreShorter(m: Machine, chain: seq<Link>)
    requires IsChain(m, chain) && Steady(m, chain)
    ensures CliRespawns(m, chain) <= 1 && |chain| <= 3
    ensures CliRespawns(m, chain) == 1 ==> Settled(m, chain[|chain| - 1])
  {
    hide Decide, Settled, CliMarkersUnset, Follows;
    ChainsAreShort(m, chain);
    if |chain| > 1 {
      var front := chain[..|chain| - 1];
      var parent, child := chain[|chain| - 2], chain[|chain| - 1];
      assert front[|front| - 1] == parent && front[0] == chain[0];
      SteadyChainsAreShorter(m, front);
      SettledStays(m, parent);
      if Decide(m, parent).ForCli? || Settled(m, parent) {
        ChildSettles(m, parent, child);
      }
    }
  }

  // ----- the bound is met -----

  const BARE: Machine := Machine(false, true, "entry.js", _ => false, _ => false)

  /** Four processes: away from the cache, for the warning flag, and, once a certificate file has appeared, for
    * the certificates. */
  function Longest(): seq<Link> {
    var env1: Env := map[NODE_DISABLE_COMPILE_CACHE := "1", OPENCLAW_SOURCE_COMPILE_CACHE_RESPAWNED := "1"];
    var env2 := env1[OPENCLAW_NODE_OPTIONS_READY := "1"];
    var env3 := env2[NODE_EXTRA_CA_CERTS := "ca.pem"][OPENCLAW_NODE_EXTRA_CA_CERTS_READY := "1"];
    [ Link(Process(map[], "node", [], ["node", "entry.js"]), "cache", "", map[]),
      Link(Process(env1, "node", [], ["node", "entry.js"]), "", "", env1),
      Link(Process(env2, "node", [EXPERIMENTAL_WARNING_FLAG], ["node", "entry.js"]), "", "ca.pem", env2),
      Link(Process(env3, "node", [EXPERIMENTAL_WARNING_FLAG], ["node", "entry.js"]), "", "ca.pem", env3) ]
  }

  lemma BoundIsMet()
    ensures IsChain(BARE, Longest())
    ensures CacheRespawns(BARE, Longest()) == 1 && CliRespawns(BARE, Longest()) == 2
  {
    var c := Longest();
    LongestFirst();
    LongestSecond();
    LongestThird();
    assert IsChain(BARE, c[..1]);
    assert c[..2][..1] == c[..1] && IsChain(BARE, c[..2]);
    assert c[..3][..2] == c[..2] && IsChain(BARE, c[..3]);
    assert c[..4] == c && c[..4][..3] == c[..3];
    assert CacheRespawns(BARE, c[..2]) == 1 && CliRespawns(BARE, c[..2]) == 0;
    assert CacheRespawns(BARE, c[..3]) == 1 && CliRespawns(BARE, c[..3]) == 1;
  }

  lemma LongestFirst()
    ensures Follows(BARE, Longest()[0], Longest()[1]) && Decide(BARE, Longest()[0]).ForCache?
  {
    var parent, child := Longest()[0], Longest()[1];
    assert Decide(BARE, parent).ForCache?;
    assert Decide(BARE, parent).plan.env == child.process.env;
    assert Decide(BARE, parent).plan.argv == ["entry.js"];
  }

  lemma NothingSuppressed(env: Env)
    requires NODE_OPTIONS !in env
    ensures !Suppressed(env, [])
  {
  }

  lemma LongestSecond()
    ensures Follows(BARE, Longest()[1], Longest()[2]) && Decide(BARE, Longest()[1]).ForCli?
  {
    var parent, child := Longest()[1], Longest()[2];
    assert parent.process.env == parent.tidied;
    NothingSuppressed(parent.tidied);
    var p := parent.process.(env := parent.tidied);
    assert WantsFlag(BARE, p) && !WantsCerts(p, parent.detected);
    assert Decide(BARE, parent).ForCli?;
    assert Decide(BARE, parent).plan.argv == [EXPERIMENTAL_WARNING_FLAG] + ["entry.js"];
  }

  lemma LongestThird()
    ensures Follows(BARE, Longest()[2], Longest()[3]) && Decide(BARE, Longest()[2]).ForCli?
  {
    var parent, child := Longest()[2], Longest()[3];
    OneIsTruthy(parent.tidied, OPENCLAW_NODE_OPTIONS_READY);
    var p := parent.process.(env := parent.tidied);
    assert !WantsFlag(BARE, p) && WantsCerts(p, parent.detected);
    assert Decide(BARE, parent).ForCli?;
    assert Decide(BARE, parent).plan.argv == [EXPERIMENTAL_WARNING_FLAG] + ["entry.js"];
  }
}
