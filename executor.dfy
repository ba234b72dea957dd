/** Running a yt-dlp command line through the proxy pool with retries
    (index.js, `executeWithProxy`). The command runner is an input: it is
    asked for the output of the `n`-th run of a command line with a timeout,
    and answers with the output or the error message. */
module Executor {
  import opened Common
  import opened Strings
  import opened ProxyPool
  import ProxyList

  /** Proxied attempts before the final direct run. */
  const MaxRetries := 3
  /** Timeout of a run without a proxy, in milliseconds. */
  const DirectTimeout := 120000
  /** Timeout of a run through a proxy, in milliseconds. */
  const ProxyTimeout := 60000
  /** Working proxies sought when the pool runs low. */
  const SearchCount := 5

  /** One run of a command line: what was run, with which timeout, and
      through which proxy (none for a direct run). */
  datatype Run = Run(command: string, timeout: int, proxy: Option<string>)

  /** The answer of a whole execution, every run made, and the pool after. */
  datatype Outcome = Outcome(result: Result<string>, state: PoolState, runs: seq<Run>)

  type Runner = (nat, string, int) -> Result<string>

  /** What the runner answered for run `k` of `runs`. */
  function Answer(exec: Runner, runs: seq<Run>, k: nat): Result<string>
    requires k < |runs|
  {
    exec(k, runs[k].command, runs[k].timeout)
  }

  /** The command line of a run through `proxy`: the first `yt-dlp` gets the
      `--proxy` option after it. */
  function Proxied(command: string, proxy: string): string {
    ReplaceFirst(command, "yt-dlp", "yt-dlp " + ProxyOption(proxy))
  }

  /** A run is direct (the command as given, two minutes) or through a
      proxy (the command with the option inserted, one minute). */
  predicate WellFormed(command: string, r: Run) {
    if r.proxy.None? then r.command == command && r.timeout == DirectTimeout
    else r.command == Proxied(command, r.proxy.value) && r.timeout == ProxyTimeout
  }

  /** When the command names `yt-dlp`, the proxied command is the command
      with its first `yt-dlp`, at position `i`, followed by a space and the
      option: the text before `i` and after that `yt-dlp` is kept as it was.
      A command without `yt-dlp` runs unchanged. */
  lemma ProxiedHasOption(command: string, proxy: string)
    ensures Includes(command, "yt-dlp") ==>
              var i := IndexOf(command, "yt-dlp").value;
              var inserted := "yt-dlp " + ProxyOption(proxy);
              var r := Proxied(command, proxy);
              (forall j :: 0 <= j < i ==> !OccursAt(command, "yt-dlp", j))
              && command[i..i + 6] == "yt-dlp"
              && |r| == |command| + |ProxyOption(proxy)| + 1
              && r[..i] == command[..i]
              && r[i..i + |inserted|] == inserted
              && r[i + |inserted|..] == command[i + 6..]
    ensures !Includes(command, "yt-dlp") ==> Proxied(command, proxy) == command
  {
    ReplaceFirstSpec(command, "yt-dlp", "yt-dlp " + ProxyOption(proxy));
  }

  // ---------------------------------------------------------------------------
  // one pass of the retry loop

  /** What one pass of the retry loop ends in: an answer, leaving the loop
      after a failed direct run, or the next pass after a failed proxied
      run. Each carries the run the pass made and the pool after it. */
  datatype Step =
    | Done(result: Result<string>, state: PoolState, run: Run)
    | Leave(state: PoolState, error: string, run: Run)
    | Retry(state: PoolState, error: string, run: Run, searches: nat)

  /** A pass made run number `n`, well formed, and the runner's answer to
      it decides the step: success ends the execution, a failed direct run
      leaves the loop, a failed proxied run leads to the next pass. */
  predicate StepOk(command: string, exec: Runner, n: nat, st: Step) {
    WellFormed(command, st.run)
    && exec(n, st.run.command, st.run.timeout) == (if st.Done? then st.result else Err(st.error))
    && (st.Done? ==> st.result.Ok?)
    && (st.Leave? ==> st.run.proxy.None?)
    && (st.Retry? ==> st.run.proxy.Some?)
  }

  /** A search for working proxies when fewer than two are left; `searches`
      counts the searches so far and picks the world the next one sees. */
  function Replenish(s: PoolState, envs: nat -> Env, searches: nat): (r: (PoolState, nat))
    ensures r.1 == searches + (if |s.working| < 2 then 1 else 0)
    ensures |s.working| >= 2 ==> r.0 == s
    ensures |s.working| < 2 ==> r.0 == FindWorking(s, SearchCount, envs(searches)).1
  {
    if |s.working| < 2 then (FindWorking(s, SearchCount, envs(searches)).1, searches + 1) else (s, searches)
  }

  /** One pass of the retry loop, as run number `n`. Without a proxy to use,
      one direct run is made and, when it fails, the loop is left. A failed
      proxied run demotes its proxy and replenishes the pool. */
  function Attempt(s: PoolState, command: string, exec: Runner, envs: nat -> Env, n: nat, searches: nat): (st: Step)
    ensures StepOk(command, exec, n, st)
  {
    var (option, s1) := ProxyArgOf(s);
    var (arg, proxy) := option;
    ProxyArgEmptyIff(s);
    if arg == "" then
      var run := Run(command, DirectTimeout, None);
      var out := exec(n, command, DirectTimeout);
      if out.Ok? then Done(out, s1, run) else Leave(s1, out.error, run)
    else
      var run := Run(Proxied(command, proxy.value), ProxyTimeout, proxy);
      var out := exec(n, run.command, ProxyTimeout);
      if out.Ok? then Done(out, s1, run)
      else
        var (s2, searches') := Replenish(MarkBad(s1, proxy.value), envs, searches);
        Retry(s2, out.error, run, searches')
  }

  type StepFn = (PoolState, nat, nat) -> Step

  /** The pass as a function of the pool, the run number and the number of
      searches so far. */
  function Pass(command: string, exec: Runner, envs: nat -> Env): StepFn {
    (s: PoolState, n: nat, searches: nat) => Attempt(s, command, exec, envs, n, searches)
  }

  /** Every pass of `step` behaves as `StepOk` says. */
  ghost predicate StepSound(step: StepFn, command: string, exec: Runner) {
    forall s, n, k :: StepOk(command, exec, n, step(s, n, k))
  }

  lemma PassSound(command: string, exec: Runner, envs: nat -> Env)
    ensures StepSound(Pass(command, exec, envs), command, exec)
  {
    forall s, n, k ensures StepOk(command, exec, n, Pass(command, exec, envs)(s, n, k)) {
      var st := Attempt(s, command, exec, envs, n, k);
    }
  }

  /** `step` computes what `Attempt` does. The equation is only brought in
      where an `Attempt` term is already present. */
  ghost predicate Implements(step: StepFn, command: string, exec: Runner, envs: nat -> Env) {
    forall s, n, k {:trigger Attempt(s, command, exec, envs, n, k)} :: step(s, n, k) == Attempt(s, command, exec, envs, n, k)
  }

  lemma PassImplements(command: string, exec: Runner, envs: nat -> Env)
    ensures Implements(Pass(command, exec, envs), command, exec, envs)
  {
  }

  /** A pass runs through the proxy `getProxyArg` hands out, or directly
      when it hands out none. */
  lemma AttemptProxy(s: PoolState, command: string, exec: Runner, envs: nat -> Env, n: nat, searches: nat)
    ensures Attempt(s, command, exec, envs, n, searches).run.proxy == ProxyArgOf(s).0.1
  {
    ProxyArgEmptyIff(s);
  }

  /** On a pool that keeps its invariant, every proxy a pass runs through is
      a harvested `ipv4:port` address, so the option inserted into the
      command cannot leave its double quotes. */
  lemma AttemptProxyIsAddress(s: PoolState, command: string, exec: Runner, envs: nat -> Env, n: nat, searches: nat)
    requires Inv(s)
    ensures var p := Attempt(s, command, exec, envs, n, searches).run.proxy;
            p.Some? ==> ProxyList.IsProxyAddress(p.value)
                        && forall c :: c in p.value ==> c != '"' && c != '$' && c != '`' && c != '\\'
  {
    AttemptProxy(s, command, exec, envs, n, searches);
    var p := ProxyArgOf(s).0.1;
    if p.Some? {
      assert p.value == s.working[s.index] && p.value in s.proxies;
      forall c | c in p.value ensures c != '"' && c != '$' && c != '`' && c != '\\' {
        ProxyOptionIsShellSafe(p.value, c);
      }
    }
  }

  /** A failed proxied run demotes the proxy it used, which was a working
      one; a search follows exactly when fewer than two working proxies
      remain, and otherwise the demoted proxy is gone and the cursor is
      left where `getNextProxy` put it. */
  lemma FailedProxyDemoted(s: PoolState, command: string, exec: Runner, envs: nat -> Env, n: nat, searches: nat)
    requires NoDups(s.working)
    ensures var st := Attempt(s, command, exec, envs, n, searches);
            st.Retry? ==>
              st.run.proxy.value in s.working
              && (st.searches == searches + 1 <==> |s.working| < 3)
              && (|s.working| >= 3 ==>
                    st.state.working == RemoveFirst(s.working, st.run.proxy.value)
                    && st.run.proxy.value !in st.state.working
                    && st.state.index == NextProxy(s).1.index)
  {
    var st := Attempt(s, command, exec, envs, n, searches);
    if st.Retry? {
      var s1 := NextProxy(s).1;
      var p := ProxyArgOf(s).0.1;
      AttemptProxy(s, command, exec, envs, n, searches);
      assert p.Some? && p.value == s.working[s.index] && s1.working == s.working;
      assert st.run.proxy == p;
      RemoveFirstNoDups(s.working, p.value);
      assert |MarkBad(s1, p.value).working| == |s.working| - 1;
    }
  }

  // ---------------------------------------------------------------------------
  // the whole execution

  /** The direct run after the proxied attempts; when it fails too, the
      error of the run before it is the one reported. */
  function Fallback(s: PoolState, command: string, exec: Runner, lastError: Option<string>, runs: seq<Run>): Outcome {
    var out := exec(|runs|, command, DirectTimeout);
    var runs' := runs + [Run(command, DirectTimeout, None)];
    if out.Ok? then Outcome(out, s, runs')
    else Outcome(Err(if lastError.Some? then lastError.value else out.error), s, runs')
  }

  /** The passes of the retry loop from `attempt` on, then the direct run. */
  function Attempts(step: StepFn, command: string, exec: Runner, s: PoolState,
                    attempt: nat, lastError: Option<string>, runs: seq<Run>, searches: nat): Outcome
    decreases MaxRetries - attempt
  {
    if attempt >= MaxRetries then Fallback(s, command, exec, lastError, runs)
    else
      match step(s, |runs|, searches)
      case Done(result, s1, run) => Outcome(result, s1, runs + [run])
      case Leave(s1, e, run) => Fallback(s1, command, exec, Some(e), runs + [run])
      case Retry(s2, e, run, searches') => Attempts(step, command, exec, s2, attempt + 1, Some(e), runs + [run], searches')
  }

  /** `executeWithProxy`: a single direct run when proxies are off;
      otherwise the pool is replenished if it holds fewer than two working
      proxies, then the attempts are made. */
  function Execute(useProxy: bool, s: PoolState, command: string, exec: Runner, envs: nat -> Env): Outcome {
    if !useProxy then Outcome(exec(0, command, DirectTimeout), s, [Run(command, DirectTimeout, None)])
    else
      var (s1, searches) := Replenish(s, envs, 0);
      Attempts(Pass(command, exec, envs), command, exec, s1, 0, None, [], searches)
  }

  /** One pass of the attempts: what is left to do after it. */
  lemma AttemptsNext(step: StepFn, command: string, exec: Runner, s: PoolState,
                     attempt: nat, lastError: Option<string>, runs: seq<Run>, searches: nat)
    requires attempt < MaxRetries
    ensures var st := step(s, |runs|, searches);
            var o := Attempts(step, command, exec, s, attempt, lastError, runs, searches);
            (st.Done? ==> o == Outcome(st.result, st.state, runs + [st.run]))
            && (st.Leave? ==> o == Fallback(st.state, command, exec, Some(st.error), runs + [st.run]))
            && (st.Retry? ==> o == Attempts(step, command, exec, st.state, attempt + 1, Some(st.error), runs + [st.run], st.searches))
  {
  }

  // ---------------------------------------------------------------------------
  // properties of the runs

  /** What the runs of the attempts look like: the earlier runs are kept,
      at least one run is added and no more than the remaining attempts
      plus one, every added run is well formed, all but the last added run
      failed, all but the last two went through a proxy, and when the
      outcome is a failure the last run was the direct fallback. */
  predicate RunsShape(command: string, exec: Runner, attempt: nat, runs: seq<Run>, o: Outcome)
    requires attempt <= MaxRetries
  {
    |runs| < |o.runs| <= |runs| + MaxRetries - attempt + 1
    && o.runs[..|runs|] == runs
    && (forall k :: |runs| <= k < |o.runs| ==> WellFormed(command, o.runs[k]))
    && (forall k :: |runs| <= k < |o.runs| - 1 ==> Answer(exec, o.runs, k).Err?)
    && (forall k :: |runs| <= k < |o.runs| - 2 ==> o.runs[k].proxy.Some?)
    && (o.result.Ok? <==> Answer(exec, o.runs, |o.runs| - 1).Ok?)
    && (o.result.Ok? ==> o.result == Answer(exec, o.runs, |o.runs| - 1))
    && (o.result.Err? ==> o.runs[|o.runs| - 1] == Run(command, DirectTimeout, None))
  }

  lemma FallbackShape(s: PoolState, command: string, exec: Runner, lastError: Option<string>, runs: seq<Run>)
    ensures RunsShape(command, exec, MaxRetries, runs, Fallback(s, command, exec, lastError, runs))
  {
    var o := Fallback(s, command, exec, lastError, runs);
    assert o.runs[..|runs|] == runs;
    assert Answer(exec, o.runs, |runs|) == exec(|runs|, command, DirectTimeout);
  }

  /** The answer to the run appended last. */
  lemma AnswerLast(exec: Runner, runs: seq<Run>, run: Run)
    ensures Answer(exec, runs + [run], |runs|) == exec(|runs|, run.command, run.timeout)
  {
  }

  /** A successful pass ends the attempts with its own run. */
  lemma DoneShape(command: string, exec: Runner, attempt: nat, runs: seq<Run>, st: Step)
    requires attempt < MaxRetries && st.Done? && StepOk(command, exec, |runs|, st)
    ensures RunsShape(command, exec, attempt, runs, Outcome(st.result, st.state, runs + [st.run]))
  {
    var o := Outcome(st.result, st.state, runs + [st.run]);
    assert o.runs[..|runs|] == runs;
    AnswerLast(exec, runs, st.run);
  }

  /** A failed proxied run in front of the runs of the later passes. */
  lemma RetryShape(command: string, exec: Runner, attempt: nat, runs: seq<Run>, run: Run, o: Outcome)
    requires attempt < MaxRetries && WellFormed(command, run) && exec(|runs|, run.command, run.timeout).Err?
    requires run.proxy.Some? && RunsShape(command, exec, attempt + 1, runs + [run], o)
    ensures RunsShape(command, exec, attempt, runs, o)
  {
    var runs' := runs + [run];
    assert o.runs[..|runs'|][..|runs|] == o.runs[..|runs|];
    assert o.runs[|runs|] == run;
    assert Answer(exec, o.runs, |runs|).Err?;
    forall k | |runs| <= k < |o.runs| - 2 ensures o.runs[k].proxy.Some? {
      if k > |runs| {
        assert |runs'| <= k;
      }
    }
  }

  /** A failed direct run inside the loop is only ever followed by the
      fallback, so it is one of the last two runs. */
  lemma LeaveShape(command: string, exec: Runner, attempt: nat, runs: seq<Run>, run: Run, o: Outcome)
    requires attempt < MaxRetries && WellFormed(command, run) && exec(|runs|, run.command, run.timeout).Err?
    requires RunsShape(command, exec, MaxRetries, runs + [run], o)
    ensures RunsShape(command, exec, attempt, runs, o)
  {
    var runs' := runs + [run];
    assert o.runs[..|runs'|][..|runs|] == o.runs[..|runs|];
    assert o.runs[|runs|] == run;
  }

  lemma {:induction false} AttemptsShape(step: StepFn, command: string, exec: Runner, s: PoolState,
                                         attempt: nat, lastError: Option<string>, runs: seq<Run>, searches: nat)
    requires attempt <= MaxRetries && StepSound(step, command, exec)
    ensures RunsShape(command, exec, attempt, runs, Attempts(step, command, exec, s, attempt, lastError, runs, searches))
    decreases MaxRetries - attempt
  {
    if attempt >= MaxRetries {
      FallbackShape(s, command, exec, lastError, runs);
    } else {
      var st := step(s, |runs|, searches);
      assert StepOk(command, exec, |runs|, st);
      var o := Attempts(step, command, exec, s, attempt, lastError, runs, searches);
      var runs' := runs + [st.run];
      match st
      case Done(_, _, _) =>
        DoneShape(command, exec, attempt, runs, st);
      case Leave(s1, e, run) =>
        FallbackShape(s1, command, exec, Some(e), runs');
        LeaveShape(command, exec, attempt, runs, run, o);
      case Retry(s2, e, run, searches') =>
        AttemptsShape(step, command, exec, s2, attempt + 1, Some(e), runs', searches');
        RetryShape(command, exec, attempt, runs, run, o);
    }
  }

  /** What the runs of a whole execution look like: between one and
      `maxRuns` runs, every one well formed, every one but the last failed,
      only the last two direct, and the result the last run's answer when
      that succeeded. */
  predicate Shaped(command: string, exec: Runner, maxRuns: nat, o: Outcome) {
    1 <= |o.runs| <= maxRuns
    && (forall k :: 0 <= k < |o.runs| ==> WellFormed(command, o.runs[k]))
    && (forall k :: 0 <= k < |o.runs| - 1 ==> Answer(exec, o.runs, k).Err?)
    && (forall k :: 0 <= k < |o.runs| - 2 ==> o.runs[k].proxy.Some?)
    && (o.result.Ok? <==> Answer(exec, o.runs, |o.runs| - 1).Ok?)
    && (o.result.Ok? ==> o.result == Answer(exec, o.runs, |o.runs| - 1))
  }

  lemma AttemptsFromStart(step: StepFn, command: string, exec: Runner, s: PoolState, searches: nat)
    requires StepSound(step, command, exec)
    ensures Shaped(command, exec, MaxRetries + 1, Attempts(step, command, exec, s, 0, None, [], searches))
  {
    AttemptsShape(step, command, exec, s, 0, None, [], searches);
  }

  /** An execution makes one run when proxies are off, and otherwise at
      most four (three proxied attempts and the final direct run), shaped
      as `Shaped` says. */
  lemma ExecuteRuns(useProxy: bool, s: PoolState, command: string, exec: Runner, envs: nat -> Env)
    ensures Shaped(command, exec, if useProxy then MaxRetries + 1 else 1, Execute(useProxy, s, command, exec, envs))
  {
    if useProxy {
      var (s1, searches) := Replenish(s, envs, 0);
      PassSound(command, exec, envs);
      AttemptsFromStart(Pass(command, exec, envs), command, exec, s1, searches);
    } else {
      var o := Execute(useProxy, s, command, exec, envs);
      assert Answer(exec, o.runs, 0) == exec(0, command, DirectTimeout);
    }
  }

  /** With proxies off the command runs once, directly, with the two-minute
      timeout, its answer is the result and the pool is not touched. */
  lemma DisabledRunsOnce(s: PoolState, command: string, exec: Runner, envs: nat -> Env)
    ensures Execute(false, s, command, exec, envs) ==
            Outcome(exec(0, command, DirectTimeout), s, [Run(command, DirectTimeout, None)])
  {
  }

  /** The attempts only ever add runs after the earlier ones. */
  lemma {:induction false} AttemptsExtend(step: StepFn, command: string, exec: Runner, s: PoolState,
                                          attempt: nat, lastError: Option<string>, runs: seq<Run>, searches: nat)
    ensures var o := Attempts(step, command, exec, s, attempt, lastError, runs, searches);
            |runs| < |o.runs| && o.runs[..|runs|] == runs
    decreases MaxRetries - attempt
  {
    var o := Attempts(step, command, exec, s, attempt, lastError, runs, searches);
    if attempt >= MaxRetries {
      assert o.runs[..|runs|] == runs;
    } else {
      var st := step(s, |runs|, searches);
      var runs' := runs + [st.run];
      if st.Retry? {
        AttemptsExtend(step, command, exec, st.state, attempt + 1, Some(st.error), runs', st.searches);
        assert o.runs[..|runs'|][..|runs|] == o.runs[..|runs|];
      } else {
        assert o.runs[..|runs'|] == runs';
        assert runs'[..|runs|] == runs;
      }
    }
  }

  /** The first pass of the attempts makes the first run. */
  lemma AttemptsFirst(step: StepFn, command: string, exec: Runner, s: PoolState, searches: nat)
    ensures var o := Attempts(step, command, exec, s, 0, None, [], searches);
            |o.runs| > 0 && o.runs[0] == step(s, 0, searches).run
  {
    var st := step(s, 0, searches);
    if st.Retry? {
      AttemptsExtend(step, command, exec, st.state, 1, Some(st.error), [st.run], st.searches);
      var o := Attempts(step, command, exec, st.state, 1, Some(st.error), [st.run], st.searches);
      assert o.runs[0] == o.runs[..1][0];
    } else {
      AttemptsExtend(step, command, exec, s, 0, None, [], searches);
    }
  }

  /** With proxies on, the pool is replenished before anything runs: the
      first run goes through the proxy the replenished pool hands out. */
  lemma FirstRunAfterReplenish(s: PoolState, command: string, exec: Runner, envs: nat -> Env)
    ensures var o := Execute(true, s, command, exec, envs);
            |o.runs| > 0 && o.runs[0].proxy == ProxyArgOf(Replenish(s, envs, 0).0).0.1
  {
    var (s1, searches) := Replenish(s, envs, 0);
    AttemptsFirst(Pass(command, exec, envs), command, exec, s1, searches);
    AttemptProxy(s1, command, exec, envs, 0, searches);
  }

  /** The direct command can run twice in one call: on a fresh, enabled
      pool whose sources all fail, the search finds nothing, the loop makes
      a direct run and leaves, and the fallback runs the same command again;
      the first failure is reported. */
  lemma DirectRunTwice(command: string)
    ensures var s := PoolState([], [], 0, 0, true);
            var exec: Runner := (n: nat, c: string, t: int) => Err("failed");
            var envs := (n: nat) => Env(0, (src: ProxyList.Source) => Err(""), (l: seq<string>) => l, (p: string) => true);
            var o := Execute(true, s, command, exec, envs);
            o.runs == [Run(command, DirectTimeout, None), Run(command, DirectTimeout, None)]
            && o.result == Err("failed")
  {
    var s := PoolState([], [], 0, 0, true);
    var e := Env(0, (src: ProxyList.Source) => Err(""), (l: seq<string>) => l, (p: string) => true);
    var envs := (n: nat) => e;
    SearchWithoutSources(s, e);
    assert Replenish(s, envs, 0).0.working == [];
  }

  /** A search that downloads while every source fails finds no proxy. */
  lemma SearchWithoutSources(s: PoolState, e: Env)
    requires s.enabled && s.proxies == []
    requires forall src :: e.fetch(src).Err?
    requires forall l: seq<string> :: |e.shuffle(l)| <= |l|
    ensures FindWorking(s, SearchCount, e).1.working == []
  {
    ProxyList.HarvestSkipsFailures(e.fetch, ProxyList.Sources);
    assert Fetched(s, e.fetch, e.now).proxies == [];
    assert ToTest(e.shuffle([])) == [];
  }

  /** The cursor left past the end by a demotion reaches the executor: with
      three working proxies and the cursor on the second, a failed proxied
      run demotes it and no search follows, since two remain; the next pass
      then finds the cursor past the end and runs directly although two
      working proxies are left. */
  lemma StrandedCursorRunsDirect(a: string, b: string, c: string, command: string, envs: nat -> Env)
    requires a != b && b != c && a != c && a != "" && b != "" && c != ""
    ensures var s := PoolState([a, b, c], [a, b, c], 1, 0, true);
            var exec: Runner := (n: nat, cmd: string, t: int) => Err("failed");
            var o := Execute(true, s, command, exec, envs);
            |o.runs| == 3
            && o.runs[0] == Run(Proxied(command, b), ProxyTimeout, Some(b))
            && o.runs[1] == Run(command, DirectTimeout, None)
            && o.runs[2] == Run(command, DirectTimeout, None)
            && o.state.working == [a, c]
  {
    var s := PoolState([a, b, c], [a, b, c], 1, 0, true);
    var exec: Runner := (n: nat, cmd: string, t: int) => Err("failed");
    var s1 := NextProxy(s).1;
    assert s1.index == 2;
    assert FirstIndex(s1.working, b) == 1;
    var s2 := MarkBad(s1, b);
    assert s2.working == [a, c] && s2.index == 2;
    var st0 := Attempt(s, command, exec, envs, 0, 0);
    assert st0 == Retry(s2, "failed", Run(Proxied(command, b), ProxyTimeout, Some(b)), 0);
    var st1 := Attempt(s2, command, exec, envs, 1, 0);
    assert NextProxy(s2).0 == None;
    assert st1 == Leave(s2.(index := 1), "failed", Run(command, DirectTimeout, None));
  }

  // ---------------------------------------------------------------------------
  // the reported error

  /** `lastError` holds the error of the latest run once an attempt has
      been made. */
  predicate LastErrorIsLatest(exec: Runner, attempt: nat, lastError: Option<string>, runs: seq<Run>) {
    if attempt == 0 then lastError.None?
    else |runs| > 0 && Answer(exec, runs, |runs| - 1).Err? && lastError == Some(Answer(exec, runs, |runs| - 1).error)
  }

  /** A failure reports the error of the run before the last one. */
  predicate ErrorOfPrevious(exec: Runner, o: Outcome) {
    o.result.Err? ==> |o.runs| >= 2 && Answer(exec, o.runs, |o.runs| - 2).Err?
                      && o.result.error == Answer(exec, o.runs, |o.runs| - 2).error
  }

  lemma FallbackError(s: PoolState, command: string, exec: Runner, lastError: Option<string>, runs: seq<Run>)
    requires |runs| > 0 && Answer(exec, runs, |runs| - 1).Err? && lastError == Some(Answer(exec, runs, |runs| - 1).error)
    ensures ErrorOfPrevious(exec, Fallback(s, command, exec, lastError, runs))
  {
    var o := Fallback(s, command, exec, lastError, runs);
    assert o.runs[|runs| - 1] == runs[|runs| - 1];
    assert Answer(exec, o.runs, |runs| - 1) == Answer(exec, runs, |runs| - 1);
  }

  lemma {:induction false} AttemptsError(step: StepFn, command: string, exec: Runner, s: PoolState,
                                         attempt: nat, lastError: Option<string>, runs: seq<Run>, searches: nat)
    requires attempt <= MaxRetries && StepSound(step, command, exec)
    requires LastErrorIsLatest(exec, attempt, lastError, runs)
    ensures ErrorOfPrevious(exec, Attempts(step, command, exec, s, attempt, lastError, runs, searches))
    decreases MaxRetries - attempt
  {
    if attempt >= MaxRetries {
      FallbackError(s, command, exec, lastError, runs);
    } else {
      var st := step(s, |runs|, searches);
      assert StepOk(command, exec, |runs|, st);
      AnswerLast(exec, runs, st.run);
      match st
      case Done(_, _, _) =>
      case Leave(s1, e, run) =>
        FallbackError(s1, command, exec, Some(e), runs + [run]);
      case Retry(s2, e, run, searches') =>
        AttemptsError(step, command, exec, s2, attempt + 1, Some(e), runs + [run], searches');
    }
  }

  /** A failed execution with proxies on reports the error of the run
      before the final direct run, never the final run's own error. */
  lemma ExecuteError(s: PoolState, command: string, exec: Runner, envs: nat -> Env)
    ensures ErrorOfPrevious(exec, Execute(true, s, command, exec, envs))
  {
    var (s1, searches) := Replenish(s, envs, 0);
    PassSound(command, exec, envs);
    AttemptsError(Pass(command, exec, envs), command, exec, s1, 0, None, [], searches);
  }

  // ---------------------------------------------------------------------------
  // the pool invariant

  /** Every pass of `step` keeps the pool invariant. */
  ghost predicate StepKeepsInv(step: StepFn) {
    forall s, n, k :: Inv(s) ==> Inv(step(s, n, k).state)
  }

  lemma ReplenishKeepsInv(s: PoolState, envs: nat -> Env, searches: nat)
    requires Inv(s) && forall n :: ShuffleIsPermutation(envs(n))
    ensures Inv(Replenish(s, envs, searches).0)
  {
    if |s.working| < 2 {
      InvFindWorking(s, SearchCount, envs(searches));
    }
  }

  lemma AttemptKeepsInv(s: PoolState, command: string, exec: Runner, envs: nat -> Env, n: nat, searches: nat)
    requires Inv(s) && forall n :: ShuffleIsPermutation(envs(n))
    ensures Inv(Attempt(s, command, exec, envs, n, searches).state)
  {
    var (option, s1) := ProxyArgOf(s);
    var (arg, proxy) := option;
    ProxyArgEmptyIff(s);
    InvNext(s);
    if arg != "" {
      InvMarkBad(s1, proxy.value);
      ReplenishKeepsInv(MarkBad(s1, proxy.value), envs, searches);
    }
  }

  lemma PassKeepsInv(command: string, exec: Runner, envs: nat -> Env)
    requires forall n :: ShuffleIsPermutation(envs(n))
    ensures StepKeepsInv(Pass(command, exec, envs))
  {
    forall s, n, k | Inv(s) ensures Inv(Pass(command, exec, envs)(s, n, k).state) {
      AttemptKeepsInv(s, command, exec, envs, n, k);
    }
  }

  lemma {:induction false} AttemptsKeepInv(step: StepFn, command: string, exec: Runner, s: PoolState,
                                           attempt: nat, lastError: Option<string>, runs: seq<Run>, searches: nat)
    requires Inv(s) && StepKeepsInv(step)
    ensures Inv(Attempts(step, command, exec, s, attempt, lastError, runs, searches).state)
    decreases MaxRetries - attempt
  {
    if attempt < MaxRetries {
      var st := step(s, |runs|, searches);
      assert Inv(st.state);
      if st.Retry? {
        AttemptsKeepInv(step, command, exec, st.state, attempt + 1, Some(st.error), runs + [st.run], st.searches);
      }
    }
  }

  /** An execution keeps the pool invariant: candidates distinct, working
      proxies distinct and drawn from the candidates. */
  lemma ExecuteKeepsInv(useProxy: bool, s: PoolState, command: string, exec: Runner, envs: nat -> Env)
    requires Inv(s) && forall n :: ShuffleIsPermutation(envs(n))
    ensures Inv(Execute(useProxy, s, command, exec, envs).state)
  {
    if useProxy {
      ReplenishKeepsInv(s, envs, 0);
      var (s1, searches) := Replenish(s, envs, 0);
      PassKeepsInv(command, exec, envs);
      AttemptsKeepInv(Pass(command, exec, envs), command, exec, s1, 0, None, [], searches);
    }
  }

  // ---------------------------------------------------------------------------
  // the procedure

  /** One pass of the retry loop on the pool `manager`. */
  method TryOnce(manager: ProxyManager, command: string, exec: Runner, envs: nat -> Env, n: nat, searches: nat)
    returns (st: Step)
    modifies manager
    ensures st == Attempt(old(manager.State()), command, exec, envs, n, searches)
    ensures manager.State() == st.state
  {
    ghost var s := manager.State();
    ProxyArgEmptyIff(s);
    var arg, proxy := manager.GetProxyArg();
    if arg == "" {
      var out := exec(n, command, DirectTimeout);
      var run := Run(command, DirectTimeout, None);
      if out.Ok? {
        return Done(out, manager.State(), run);
      }
      return Leave(manager.State(), out.error, run);
    }
    var cmd := ReplaceFirst(command, "yt-dlp", "yt-dlp " + arg);
    var out := exec(n, cmd, ProxyTimeout);
    var run := Run(cmd, ProxyTimeout, proxy);
    if out.Ok? {
      return Done(out, manager.State(), run);
    }
    manager.MarkProxyBad(proxy.value);
    var searches' := searches;
    if |manager.workingProxies| < 2 {
      var _ := manager.FindWorkingProxies(SearchCount, envs(searches));
      searches' := searches + 1;
    }
    st := Retry(manager.State(), out.error, run, searches');
  }

  /** `TryOnce` seen through a step function that implements the pass. */
  method TryStep(manager: ProxyManager, command: string, exec: Runner, envs: nat -> Env, n: nat, searches: nat,
                 ghost step: StepFn)
    returns (st: Step)
    requires Implements(step, command, exec, envs)
    modifies manager
    ensures st == step(old(manager.State()), n, searches)
    ensures manager.State() == st.state
  {
    st := TryOnce(manager, command, exec, envs, n, searches);
  }

  /** The retry loop of `executeWithProxy` and the direct run after it,
      starting after `searches0` searches. */
  method RetryLoop(manager: ProxyManager, command: string, exec: Runner, envs: nat -> Env, searches0: nat,
                   ghost step: StepFn)
    returns (result: Result<string>, runs: seq<Run>)
    requires Implements(step, command, exec, envs)
    modifies manager
    ensures var o := Attempts(step, command, exec, old(manager.State()), 0, None, [], searches0);
            result == o.result && runs == o.runs && manager.State() == o.state
  {
    ghost var goal := Attempts(step, command, exec, manager.State(), 0, None, [], searches0);
    var searches := searches0;
    var lastError: Option<string> := None;
    runs := [];
    var attempt := 0;
    while attempt < MaxRetries
      invariant attempt <= MaxRetries
      invariant Attempts(step, command, exec, manager.State(), attempt, lastError, runs, searches) == goal
    {
      AttemptsNext(step, command, exec, manager.State(), attempt, lastError, runs, searches);
      var st := TryStep(manager, command, exec, envs, |runs|, searches, step);
      runs := runs + [st.run];
      if st.Done? {
        return st.result, runs;
      }
      lastError := Some(st.error);
      if st.Leave? {
        break;
      }
      searches := st.searches;
      attempt := attempt + 1;
    }
    assert Fallback(manager.State(), command, exec, lastError, runs) == goal;
    var out := exec(|runs|, command, DirectTimeout);
    runs := runs + [Run(command, DirectTimeout, None)];
    if out.Ok? {
      return out, runs;
    }
    result := Err(if lastError.Some? then lastError.value else out.error);
  }

  /** `executeWithProxy(command, url)` on the pool `manager`. */
  method ExecuteWithProxy(useProxy: bool, manager: ProxyManager, command: string, exec: Runner, envs: nat -> Env)
    returns (result: Result<string>, runs: seq<Run>)
    modifies manager
    ensures var o := Execute(useProxy, old(manager.State()), command, exec, envs);
            result == o.result && runs == o.runs && manager.State() == o.state
  {
    if !useProxy {
      result := exec(0, command, DirectTimeout);
      runs := [Run(command, DirectTimeout, None)];
      return;
    }
    var searches := 0;
    if |manager.workingProxies| < 2 {
      var _ := manager.FindWorkingProxies(SearchCount, envs(searches));
      searches := 1;
    }
    PassImplements(command, exec, envs);
    result, runs := RetryLoop(manager, command, exec, envs, searches, Pass(command, exec, envs));
  }
}
