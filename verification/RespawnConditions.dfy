/** When a startup process respawns and with what, on the variables, options and arguments themselves. */
module RespawnConditions {
  import opened JsText
  import opened RespawnPlan

  const TRUTHY := {"1", "on", "true", "yes"}

  /** One of four words in any case of its letters, with any white space around it. */
  ghost predicate Truthy(env: Env, name: string) {
    name in env && exists a, word, b ::
      env[name] == a + word + b && IsBlank(a) && IsBlank(b) && ToLowerCase(word) in TRUTHY
  }

  lemma TruthyIs(env: Env, name: string)
    ensures IsTruthy(env, name) <==> Truthy(env, name)
  {
    if name in env {
      var s := env[name];
      TrimTakesBlanks(s);
      if IsTruthy(env, name) {
        var a, b :| s == a + Trim(s) + b && IsBlank(a) && IsBlank(b);
        assert ToLowerCase(Trim(s)) in TRUTHY;
      }
      if a, word, b :| s == a + word + b && IsBlank(a) && IsBlank(b) && ToLowerCase(word) in TRUTHY {
        assert word != "" && !IsSpace(word[0]) && !IsSpace(word[|word| - 1]) by {
          WordsAreTrimmed(word);
        }
        TrimUncovers(a, word, b);
      }
    }
  }

  lemma WordsAreTrimmed(word: string)
    requires ToLowerCase(word) in TRUTHY
    ensures word != "" && !IsSpace(word[0]) && !IsSpace(word[|word| - 1])
  {
    var lower := ToLowerCase(word);
    assert |lower| == |word| && lower != "";
    assert !IsSpace(lower[0]) && !IsSpace(lower[|word| - 1]);
  }

  // ----- the two plans -----

  /** A certificate file was found and no variable names one, not even an empty one, nor says that this is done. */
  ghost predicate NeedsCerts(p: Process, detected: string) {
    detected != "" && "NODE_EXTRA_CA_CERTS" !in p.env && !Truthy(p.env, "OPENCLAW_NODE_EXTRA_CA_CERTS_READY")
  }

  /** No option turns the warning off, and no variable says that this is done. */
  ghost predicate NeedsFlag(m: Machine, p: Process) {
    && !m.skipRespawn(p.argv) && !Truthy(p.env, "OPENCLAW_NODE_OPTIONS_READY")
    && forall option | option in {"--disable-warning=ExperimentalWarning", "--no-warnings"} ::
         option !in p.execArgv && ("NODE_OPTIONS" in p.env ==> !Holds(p.env["NODE_OPTIONS"], option))
  }

  lemma CertsAre(p: Process, detected: string)
    ensures WantsCerts(p, detected) <==> NeedsCerts(p, detected)
  {
    hide IsTruthy;
    TruthyIs(p.env, OPENCLAW_NODE_EXTRA_CA_CERTS_READY);
  }

  lemma FlagIs(m: Machine, p: Process)
    ensures WantsFlag(m, p) <==> NeedsFlag(m, p)
  {
    hide IsTruthy, Includes, Holds;
    TruthyIs(p.env, OPENCLAW_NODE_OPTIONS_READY);
    if NODE_OPTIONS in p.env {
      IncludesHolds(p.env[NODE_OPTIONS], "--disable-warning=ExperimentalWarning");
      IncludesHolds(p.env[NODE_OPTIONS], "--no-warnings");
    }
  }

  /** Exactly when the CLI is respawned: not for an argument list that is exempt, not if respawning is switched off, not
    * on Windows, and otherwise for missing certificates or for the warning. The child gets both remedies at once, each
    * with its marker, and keeps every other variable, its options and its arguments. */
  lemma CliPlanIff(m: Machine, p: Process, detected: string)
    ensures var plan := CliPlan(m, p, detected);
      var certs, flag := NeedsCerts(p, detected), NeedsFlag(m, p);
      && (plan.Some? <==>
            && !m.skipStartupEnvironment(p.argv) && !m.win32 && !Truthy(p.env, "OPENCLAW_NO_RESPAWN")
            && (certs || flag))
      && (plan.Some? ==>
            && plan.value.command == ResolveCommand(p.execPath)
            && plan.value.argv == (if flag then ["--disable-warning=ExperimentalWarning"] else [])
                                  + p.execArgv + (if p.argv == [] then [] else p.argv[1..])
            && (certs ==> SameAt(plan.value.env, map["NODE_EXTRA_CA_CERTS" := detected], "NODE_EXTRA_CA_CERTS")
                          && SameAt(plan.value.env, map["OPENCLAW_NODE_EXTRA_CA_CERTS_READY" := "1"],
                                    "OPENCLAW_NODE_EXTRA_CA_CERTS_READY"))
            && (flag ==> SameAt(plan.value.env, map["OPENCLAW_NODE_OPTIONS_READY" := "1"],
                                "OPENCLAW_NODE_OPTIONS_READY"))
            && forall name |
                 && (certs ==> name !in {"NODE_EXTRA_CA_CERTS", "OPENCLAW_NODE_EXTRA_CA_CERTS_READY"})
                 && (flag ==> name != "OPENCLAW_NODE_OPTIONS_READY") :: SameAt(plan.value.env, p.env, name))
  {
    hide NeedsCerts, NeedsFlag, WantsCerts, WantsFlag, Truthy, IsTruthy, ResolveCommand;
    CertsAre(p, detected);
    FlagIs(m, p);
    TruthyIs(p.env, OPENCLAW_NO_RESPAWN);
    assert [] + p.execArgv == p.execArgv && (p.argv == [] ==> Drop(p.argv, 1) == []);
  }

  /** A child's variables: the cache is asked for no more, it is disabled, and the marker says so. */
  ghost predicate IsCacheEnv(child: Env, parent: Env) {
    && "NODE_COMPILE_CACHE" !in child
    && SameAt(child, map["NODE_DISABLE_COMPILE_CACHE" := "1"], "NODE_DISABLE_COMPILE_CACHE")
    && SameAt(child, map["OPENCLAW_SOURCE_COMPILE_CACHE_RESPAWNED" := "1"], "OPENCLAW_SOURCE_COMPILE_CACHE_RESPAWNED")
    && forall name |
         name !in {"NODE_COMPILE_CACHE", "NODE_DISABLE_COMPILE_CACHE", "OPENCLAW_SOURCE_COMPILE_CACHE_RESPAWNED"} ::
         SameAt(child, parent, name)
  }

  /** Exactly when a source checkout is respawned away from the compile cache: once, and only if there is a cache
    * directory or one is asked for and not disabled. */
  lemma CachePlanIff(m: Machine, p: Process, cacheDir: string)
    ensures var plan := CachePlan(m, p, cacheDir);
      && (plan.Some? <==>
            && m.sourceCheckout
            && !SameAt(p.env, map["OPENCLAW_SOURCE_COMPILE_CACHE_RESPAWNED" := "1"],
                       "OPENCLAW_SOURCE_COMPILE_CACHE_RESPAWNED")
            && (cacheDir != "" || ("NODE_COMPILE_CACHE" in p.env && "NODE_DISABLE_COMPILE_CACHE" !in p.env)))
      && (plan.Some? ==>
            && plan.value.command == p.execPath
            && plan.value.argv == p.execArgv + [m.currentFile] + (if |p.argv| <= 2 then [] else p.argv[2..])
            && IsCacheEnv(plan.value.env, p.env))
  {
    assert |p.argv| <= 2 ==> Drop(p.argv, 2) == [];
  }

  // ----- chains -----

  /** The cache comes first: only a process that need not leave it is respawned for the CLI. */
  lemma DecisionIs(m: Machine, link: Link)
    ensures Decide(m, link).ForCache? <==> CachePlan(m, link.process, link.cacheDir).Some?
    ensures Decide(m, link).ForCli? <==>
      CachePlan(m, link.process, link.cacheDir).None?
      && CliPlan(m, link.process.(env := link.tidied), link.detected).Some?
  {
    hide CachePlan, CliPlan;
  }

  /** A process that has opted out, or runs on Windows, starts no CLI child. */
  lemma OptedOutStartsNoCli(m: Machine, link: Link)
    requires m.win32 || Truthy(link.tidied, "OPENCLAW_NO_RESPAWN") || m.skipStartupEnvironment(link.process.argv)
    ensures !Decide(m, link).ForCli?
  {
    hide CliPlan, CachePlan, Truthy;
    DecisionIs(m, link);
    CliPlanIff(m, link.process.(env := link.tidied), link.detected);
  }

  /** If respawning is switched off at the start and no entry point touches the switch, or on Windows, a chain has no
    * CLI respawn at all, so at most two processes. */
  lemma {:induction false} OptedOutChains(m: Machine, chain: seq<Link>)
    requires IsChain(m, chain)
    requires m.win32 ||
      (Truthy(chain[0].process.env, "OPENCLAW_NO_RESPAWN")
       && forall i | 0 <= i < |chain| :: SameAt(chain[i].process.env, chain[i].tidied, "OPENCLAW_NO_RESPAWN"))
    ensures CliRespawns(m, chain) == 0 && |chain| <= 2
  {
    hide Decide, StartedFrom, Truthy, CliMarkersUnset, CacheDone;
    ChainsAreShort(m, chain);
    if |chain| > 1 {
      var front, parent := chain[..|chain| - 1], chain[|chain| - 2];
      assert front[|front| - 1] == parent && front[0] == chain[0];
      OptedOutChains(m, front);
      if !m.win32 {
        ChainsKeepVariables(m, front, OPENCLAW_NO_RESPAWN);
        TruthyAlike(chain[0].process.env, parent.process.env, OPENCLAW_NO_RESPAWN);
        TruthyAlike(parent.process.env, parent.tidied, OPENCLAW_NO_RESPAWN);
      }
      OptedOutStartsNoCli(m, parent);
    }
  }

  lemma TruthyAlike(a: Env, b: Env, name: string)
    requires SameAt(a, b, name)
    ensures Truthy(a, name) <==> Truthy(b, name)
  {
  }
}
