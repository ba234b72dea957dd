/** The proxy pool (proxy-manager.js): a candidate list refreshed from public
    sources, a list of candidates that passed a probe, and a round-robin
    cursor over that list. The pure functions on `PoolState` say what each
    operation does; the class `ProxyManager` performs the operations in
    place and is proved to agree with them. Downloads, probes, the clock and
    the shuffle are inputs (`Env`). */
module ProxyPool {
  import opened Common
  import opened Strings
  import opened ProxyList

  /** Ten minutes in milliseconds: the age after which the candidates are
      downloaded again. */
  const FetchInterval := 10 * 60 * 1000
  /** At most this many candidates are probed per search. */
  const MaxProbes := 100

  /** The fields of a `ProxyManager`. */
  datatype PoolState = PoolState(proxies: seq<string>, working: seq<string>, index: nat, lastFetch: int, enabled: bool)

  /** What the outside world answers during a search: the clock, the body
      (or failure) of each source, the order the shuffle produces for a
      list, and whether a probe through a proxy succeeds. */
  datatype Env = Env(now: int, fetch: Source -> Result<string>,
                     shuffle: seq<string> -> seq<string>, works: string -> bool)

  /** Sorting with a random comparator reorders a list without adding or
      losing elements. */
  ghost predicate ShuffleIsPermutation(env: Env) {
    forall l: seq<string> {:trigger env.shuffle(l)} :: multiset(env.shuffle(l)) == multiset(l)
  }

  // ---------------------------------------------------------------------------
  // rotation

  /** `getNextProxy`: nothing on an empty list; otherwise the entry under the
      cursor, which is `undefined` when the cursor lies past the end, and the
      cursor advances modulo the length. */
  function NextProxy(s: PoolState): (res: (Option<string>, PoolState))
    ensures |s.working| == 0 ==> res == (None, s)
    ensures |s.working| > 0 ==> res.1 == s.(index := (s.index + 1) % |s.working|)
    ensures res.1.index < |s.working| || |s.working| == 0
    ensures res.0.Some? <==> s.index < |s.working|
    ensures res.0.Some? ==> res.0.value == s.working[s.index]
  {
    if |s.working| == 0 then (None, s)
    else
      var p := if s.index < |s.working| then Some(s.working[s.index]) else None;
      (p, s.(index := (s.index + 1) % |s.working|))
  }

  /** The state after `n` calls of `getNextProxy` with nothing in between. */
  function After(s: PoolState, n: nat): PoolState
    decreases n
  {
    if n == 0 then s else After(NextProxy(s).1, n - 1)
  }

  /** The answers of `n` calls of `getNextProxy` with nothing in between. */
  function Rotation(s: PoolState, n: nat): (r: seq<Option<string>>)
    ensures |r| == n
    decreases n
  {
    if n == 0 then [] else [NextProxy(s).0] + Rotation(NextProxy(s).1, n - 1)
  }

  lemma ModBelow(x: int, m: int)
    requires 0 <= x < m
    ensures x % m == x
  {
  }

  /** One call on a cursor inside the list returns the entry under it and
      moves to the next entry, or to 0 after the last. */
  lemma NextStep(s: PoolState)
    requires s.index < |s.working|
    ensures NextProxy(s).0 == Some(s.working[s.index])
    ensures NextProxy(s).1 == s.(index := if s.index + 1 == |s.working| then 0 else s.index + 1)
  {
    if s.index + 1 < |s.working| {
      ModBelow(s.index + 1, |s.working|);
    }
  }

  /** Calls that do not reach the end of the list return consecutive
      entries, and the cursor wraps to 0 after the last one. */
  lemma {:induction false} RotationNoWrap(s: PoolState, n: nat)
    requires s.index < |s.working| && s.index + n <= |s.working|
    ensures forall k :: 0 <= k < n ==> Rotation(s, n)[k] == Some(s.working[s.index + k])
    ensures After(s, n) == s.(index := if s.index + n == |s.working| then 0 else s.index + n)
    decreases n
  {
    if n > 0 {
      NextStep(s);
      var t := NextProxy(s).1;
      assert After(s, n) == After(t, n - 1);
      var r := Rotation(s, n);
      assert r == [Some(s.working[s.index])] + Rotation(t, n - 1);
      if n == 1 {
        assert After(t, 0) == t;
      } else {
        assert t.index == s.index + 1 && t.working == s.working;
        RotationNoWrap(t, n - 1);
        assert After(t, n - 1) == t.(index := if t.index + (n - 1) == |s.working| then 0 else t.index + (n - 1));
        forall k | 0 <= k < n ensures r[k] == Some(s.working[s.index + k]) {
          if k > 0 {
            assert r[k] == Rotation(t, n - 1)[k - 1];
          }
        }
      }
    }
  }

  /** From cursor 0, as many calls as there are entries return every entry
      once, in list order, and the next call starts over with the first. */
  lemma RotationCycle(s: PoolState)
    requires |s.working| > 0 && s.index == 0
    ensures forall k :: 0 <= k < |s.working| ==> Rotation(s, |s.working|)[k] == Some(s.working[k])
    ensures NextProxy(After(s, |s.working|)).0 == Some(s.working[0])
  {
    RotationNoWrap(s, |s.working|);
  }

  // ---------------------------------------------------------------------------
  // demotion

  /** `markProxyBad`: the first occurrence is spliced out; the cursor is left
      where it was. */
  function MarkBad(s: PoolState, proxy: string): (t: PoolState)
    ensures t.working == RemoveFirst(s.working, proxy)
    ensures t == s.(working := t.working)
  {
    s.(working := RemoveFirst(s.working, proxy))
  }

  /** Because the cursor is not adjusted, demoting the entry under the cursor
      of a two-entry list strands it past the end: the next call returns
      nothing although a working proxy remains, and the argument is empty. */
  lemma StrandedCursor(a: string, b: string)
    requires a != b
    ensures var s := MarkBad(PoolState([a, b], [a, b], 1, 0, true), b);
            s.working == [a] && NextProxy(s).0 == None && ProxyArgOf(s).0 == ("", None)
  {
    var w := [a, b];
    assert FirstIndex(w, b) == 1 by {
      FirstIndexUnique(w, b, 1);
    }
    assert w[..1] + w[2..] == [a];
  }

  // ---------------------------------------------------------------------------
  // the `--proxy` argument

  /** The quoted option for yt-dlp's command line. */
  function ProxyOption(proxy: string): string {
    "--proxy \"http://" + proxy + "\""
  }

  /** `getProxyArg`: the option and the proxy when `getNextProxy` yields a
      non-empty string, otherwise an empty option and no proxy. */
  function ProxyArgOf(s: PoolState): (res: ((string, Option<string>), PoolState))
    ensures res.1 == NextProxy(s).1
    ensures res.0.1.Some? <==> NextProxy(s).0.Some? && NextProxy(s).0.value != ""
    ensures res.0.1.Some? ==> res.0 == (ProxyOption(res.0.1.value), NextProxy(s).0)
    ensures res.0.1.None? ==> res.0.0 == ""
  {
    var (p, t) := NextProxy(s);
    if p.Some? && p.value != "" then ((ProxyOption(p.value), p), t) else (("", None), t)
  }

  /** An empty option is exactly the absence of a proxy. */
  lemma ProxyArgEmptyIff(s: PoolState)
    ensures ProxyArgOf(s).0.0 == "" <==> ProxyArgOf(s).0.1.None?
  {
    var (arg, p) := ProxyArgOf(s).0;
    if p.Some? {
      assert |arg| > 0;
    }
  }

  /** The proxy inside the quotes of the option is made only of digits, dots
      and a colon, so the option cannot end the quoted word early or pass
      anything to the shell. */
  lemma ProxyOptionIsShellSafe(proxy: string, c: char)
    requires IsProxyAddress(proxy) && c in proxy
    ensures c != '"' && c != '$' && c != '`' && c != '\\' && c != ' ' && c != '\n'
  {
    AddressCharacters(proxy, c);
  }

  // ---------------------------------------------------------------------------
  // fetching and probing

  /** `fetchProxies`: the addresses of all sources in order, without
      repeats, stamped with the current time. */
  function Fetched(s: PoolState, fetch: Source -> Result<string>, now: int): (t: PoolState)
    ensures t.proxies == Dedupe(Harvest(fetch, Sources)) && t.lastFetch == now
    ensures t == s.(proxies := t.proxies, lastFetch := now)
  {
    s.(proxies := Dedupe(Harvest(fetch, Sources)), lastFetch := now)
  }

  /** After a fetch the candidates are distinct addresses, each from a
      source that answered, and every address of every answering source is
      among them, even when every source failed and the list is empty. */
  lemma FetchedCandidates(s: PoolState, fetch: Source -> Result<string>, now: int, x: string)
    ensures NoDups(Fetched(s, fetch, now).proxies)
    ensures x in Fetched(s, fetch, now).proxies ==> IsProxyAddress(x)
    ensures x in Fetched(s, fetch, now).proxies <==>
              exists k :: 0 <= k < |Sources| && fetch(Sources[k]).Ok? && x in ParseProxyList(fetch(Sources[k]).value)
  {
    var h := Harvest(fetch, Sources);
    if x in h {
      HarvestSound(fetch, Sources, x);
    }
    if exists k :: 0 <= k < |Sources| && fetch(Sources[k]).Ok? && x in ParseProxyList(fetch(Sources[k]).value) {
      var k :| 0 <= k < |Sources| && fetch(Sources[k]).Ok? && x in ParseProxyList(fetch(Sources[k]).value);
      HarvestComplete(fetch, Sources, k, x);
    }
  }

  /** The candidates are downloaded again when they are older than the
      interval or when there are none. */
  predicate NeedsFetch(s: PoolState, now: int) {
    now - s.lastFetch > FetchInterval || |s.proxies| == 0
  }

  /** The probing loop: candidates are probed in order until `count` have
      passed; `found` holds those found so far. */
  function Probe(candidates: seq<string>, count: int, works: string -> bool, found: seq<string>): seq<string>
    decreases |candidates|
  {
    if |candidates| == 0 || |found| >= count then found
    else Probe(candidates[1..], count, works, if works(candidates[0]) then found + [candidates[0]] else found)
  }

  /** The candidates whose probe succeeds, in order. */
  function Passing(candidates: seq<string>, works: string -> bool): (r: seq<string>)
    ensures |r| <= |candidates|
    ensures forall x :: x in r ==> x in candidates && works(x)
    decreases |candidates|
  {
    if |candidates| == 0 then []
    else (if works(candidates[0]) then [candidates[0]] else []) + Passing(candidates[1..], works)
  }

  /** The first `n` elements, or all of them when there are fewer. */
  function Take(s: seq<string>, n: int): (r: seq<string>)
    ensures |r| <= |s| && (n >= 0 ==> |r| <= n) && r == s[..|r|]
  {
    if n <= 0 then [] else if n >= |s| then s else s[..n]
  }

  /** The probing loop finds exactly the first `count` candidates that pass,
      in the order they were probed. */
  lemma {:induction false} ProbeIsFirstPassing(candidates: seq<string>, count: int, works: string -> bool, found: seq<string>)
    requires |found| <= count || |found| == 0
    ensures Probe(candidates, count, works, found) == found + Take(Passing(candidates, works), count - |found|)
    decreases |candidates|
  {
    if |candidates| > 0 && |found| < count {
      var c := candidates[0];
      ProbeIsFirstPassing(candidates[1..], count, works, if works(c) then found + [c] else found);
      ProbeStep(candidates, count, works, found);
    } else if |candidates| == 0 {
      assert found + Take([], count - |found|) == found;
    } else {
      assert found + Take(Passing(candidates, works), count - |found|) == found;
    }
  }

  /** One probe: the first candidate joins the found ones when it passes. */
  lemma ProbeStep(candidates: seq<string>, count: int, works: string -> bool, found: seq<string>)
    requires |candidates| > 0 && |found| < count
    requires var c := candidates[0];
             var next := if works(c) then found + [c] else found;
             Probe(candidates[1..], count, works, next) == next + Take(Passing(candidates[1..], works), count - |next|)
    ensures Probe(candidates, count, works, found) == found + Take(Passing(candidates, works), count - |found|)
  {
    var c, rest := candidates[0], candidates[1..];
    var head: seq<string> := if works(c) then [c] else [];
    var next := if works(c) then found + [c] else found;
    var passing := Passing(rest, works);
    assert next == found + head;
    assert Passing(candidates, works) == head + passing;
    TakeCons(head, passing, count - |found|);
    Regroup(found, head, Take(passing, count - |next|));
  }

  lemma Regroup(a: seq<string>, b: seq<string>, c: seq<string>)
    ensures (a + b) + c == a + (b + c)
  {
  }

  /** Taking `n` from a list with at most one element in front. */
  lemma TakeCons(head: seq<string>, rest: seq<string>, n: int)
    requires n > 0 && |head| <= 1
    ensures head + Take(rest, n - |head|) == Take(head + rest, n)
  {
    if |head| == 1 {
      if n - 1 >= |rest| {
      } else if n - 1 > 0 {
        assert (head + rest)[..n] == head + rest[..n - 1];
      }
    } else {
      assert head + rest == rest;
    }
  }

  /** A sublist of a list without repeats has none either. */
  lemma {:induction false} PassingNoDups(candidates: seq<string>, works: string -> bool)
    requires NoDups(candidates)
    ensures NoDups(Passing(candidates, works))
    decreases |candidates|
  {
    if |candidates| > 0 {
      var c := candidates[0];
      var rest := Passing(candidates[1..], works);
      assert NoDups(candidates[1..]);
      PassingNoDups(candidates[1..], works);
      assert c !in candidates[1..];
      var head := if works(c) then [c] else [];
      forall i, j | 0 <= i < j < |head + rest| ensures (head + rest)[i] != (head + rest)[j] {
        if i < |head| {
          assert (head + rest)[j] in rest;
        }
      }
    }
  }

  lemma TakeNoDups(s: seq<string>, n: int)
    requires NoDups(s)
    ensures NoDups(Take(s, n))
  {
  }

  /** `shuffled.slice(0, 100)`. */
  function ToTest(shuffled: seq<string>): (r: seq<string>)
    ensures |r| <= MaxProbes && |r| <= |shuffled| && r == shuffled[..|r|]
    ensures |shuffled| <= MaxProbes ==> r == shuffled
  {
    if |shuffled| <= MaxProbes then shuffled else shuffled[..MaxProbes]
  }

  /** `findWorkingProxies(count)`: nothing at all when disabled; otherwise a
      refetch when due, then the working list replaced by the result of
      probing the first hundred shuffled candidates. The cursor is not
      reset. */
  function FindWorking(s: PoolState, count: int, env: Env): (res: (seq<string>, PoolState))
    ensures !s.enabled ==> res == ([], s)
    ensures s.enabled ==> res.1.working == res.0 && res.1.index == s.index && res.1.enabled
  {
    if !s.enabled then ([], s)
    else
      var s1 := if NeedsFetch(s, env.now) then Fetched(s, env.fetch, env.now) else s;
      var found := Probe(ToTest(env.shuffle(s1.proxies)), count, env.works, []);
      (found, s1.(working := found))
  }

  /** Probing a list without repeats keeps the first `count` that pass:
      at most `count`, no more than were probed, each a probed candidate
      whose probe succeeded, none twice. */
  lemma ProbeResult(toTest: seq<string>, count: int, works: string -> bool)
    requires NoDups(toTest)
    ensures var r := Probe(toTest, count, works, []);
            r == Take(Passing(toTest, works), count)
            && |r| <= |toTest| && (count >= 0 ==> |r| <= count) && NoDups(r)
            && forall x :: x in r ==> x in toTest && works(x)
  {
    var passing := Passing(toTest, works);
    ProbeIsFirstPassing(toTest, count, works, []);
    assert [] + Take(passing, count) == Take(passing, count);
    FirstPassing(toTest, count, works);
  }

  lemma FirstPassing(toTest: seq<string>, count: int, works: string -> bool)
    requires NoDups(toTest)
    ensures var r := Take(Passing(toTest, works), count);
            |r| <= |toTest| && (count >= 0 ==> |r| <= count) && NoDups(r)
            && forall x :: x in r ==> x in toTest && works(x)
  {
    var passing := Passing(toTest, works);
    PassingNoDups(toTest, works);
    TakeNoDups(passing, count);
    var r := Take(passing, count);
    forall x | x in r ensures x in passing {
      var k :| 0 <= k < |r| && r[k] == x;
      assert passing[k] == x;
    }
  }

  /** What an enabled search keeps: the first `count` of the probed
      candidates that pass, so no more than `count` and no more than a
      hundred, every one of them a candidate whose probe succeeded, and no
      entry twice when the shuffle is a permutation. */
  lemma FindWorkingResult(s: PoolState, count: int, env: Env)
    requires s.enabled && NoDups(s.proxies) && ShuffleIsPermutation(env)
    ensures var s1 := if NeedsFetch(s, env.now) then Fetched(s, env.fetch, env.now) else s;
            var r := FindWorking(s, count, env).0;
            r == Take(Passing(ToTest(env.shuffle(s1.proxies)), env.works), count)
            && |r| <= MaxProbes && (count >= 0 ==> |r| <= count) && NoDups(r)
            && forall x :: x in r ==> x in s1.proxies && env.works(x)
  {
    var s1 := if NeedsFetch(s, env.now) then Fetched(s, env.fetch, env.now) else s;
    var shuffled := env.shuffle(s1.proxies);
    var toTest := ToTest(shuffled);
    assert NoDups(s1.proxies);
    assert multiset(shuffled) == multiset(s1.proxies);
    PermutationNoDups(s1.proxies, shuffled);
    PrefixNoDups(shuffled, |toTest|);
    ProbeResult(toTest, count, env.works);
    var r := Probe(toTest, count, env.works, []);
    forall x | x in r ensures x in s1.proxies {
      assert x in shuffled;
      assert x in multiset(shuffled);
    }
  }

  lemma PrefixNoDups(s: seq<string>, n: nat)
    requires NoDups(s) && n <= |s|
    ensures NoDups(s[..n])
  {
  }

  /** A reordering of a list without repeats has none. */
  lemma PermutationNoDups(a: seq<string>, b: seq<string>)
    requires NoDups(a) && multiset(a) == multiset(b)
    ensures NoDups(b)
  {
    forall i, j | 0 <= i < j < |b| ensures b[i] != b[j] {
      if b[i] == b[j] {
        var x := b[i];
        MultisetAtLeastTwo(b, i, j);
        MultisetAtMostOne(a, x);
        assert false;
      }
    }
  }

  lemma MultisetAtLeastTwo(b: seq<string>, i: nat, j: nat)
    requires i < j < |b| && b[i] == b[j]
    ensures multiset(b)[b[i]] >= 2
  {
    assert b == b[..i] + [b[i]] + b[i + 1..j] + [b[j]] + b[j + 1..];
  }

  lemma {:induction false} MultisetAtMostOne(a: seq<string>, x: string)
    requires NoDups(a)
    ensures multiset(a)[x] <= 1
    decreases |a|
  {
    if |a| > 0 {
      assert NoDups(a[1..]);
      MultisetAtMostOne(a[1..], x);
      assert a == [a[0]] + a[1..];
      if a[0] == x {
        assert x !in a[1..];
      }
    }
  }

  /** A disabled pool answers a search with nothing and keeps its state. */
  lemma DisabledSearch(s: PoolState, count: int, env: Env)
    requires !s.enabled
    ensures FindWorking(s, count, env) == ([], s)
  {
  }

  /** A search downloads the candidates again exactly when they are too old
      or missing. */
  lemma SearchRefetchesWhenDue(s: PoolState, count: int, env: Env)
    requires s.enabled
    ensures FindWorking(s, count, env).1.lastFetch == (if NeedsFetch(s, env.now) then env.now else s.lastFetch)
    ensures !NeedsFetch(s, env.now) ==> FindWorking(s, count, env).1.proxies == s.proxies
  {
  }

  // ---------------------------------------------------------------------------
  // the pool invariant

  /** Candidates are distinct proxy addresses; the working list is distinct
      and drawn from the candidates. */
  predicate Inv(s: PoolState) {
    NoDups(s.proxies) && (forall x :: x in s.proxies ==> IsProxyAddress(x))
    && NoDups(s.working) && (forall x :: x in s.working ==> x in s.proxies)
  }

  /** Every operation keeps the invariant. */
  lemma InvMarkBad(s: PoolState, proxy: string)
    requires Inv(s)
    ensures Inv(MarkBad(s, proxy)) && proxy !in MarkBad(s, proxy).working
  {
    RemoveFirstNoDups(s.working, proxy);
  }

  lemma InvNext(s: PoolState)
    requires Inv(s)
    ensures Inv(NextProxy(s).1) && Inv(ProxyArgOf(s).1)
  {
  }

  lemma InvFindWorking(s: PoolState, count: int, env: Env)
    requires Inv(s) && ShuffleIsPermutation(env)
    ensures Inv(FindWorking(s, count, env).1)
  {
    if s.enabled {
      var s1 := if NeedsFetch(s, env.now) then Fetched(s, env.fetch, env.now) else s;
      forall x | x in s1.proxies ensures IsProxyAddress(x) {
        if NeedsFetch(s, env.now) {
          FetchedCandidates(s, env.fetch, env.now, x);
        }
      }
      assert NoDups(s1.proxies);
      FindWorkingResult(s, count, env);
    }
  }

  // ---------------------------------------------------------------------------
  // the object

  class ProxyManager {
    var proxies: seq<string>
    var workingProxies: seq<string>
    var currentIndex: nat
    var lastFetch: int
    const fetchInterval := FetchInterval
    const isEnabled: bool

    function State(): PoolState
      reads this
    {
      PoolState(proxies, workingProxies, currentIndex, lastFetch, isEnabled)
    }

    /** A fresh pool, enabled when the `USE_PROXY` variable is `"true"`. */
    constructor(useProxy: Option<string>)
      ensures State() == PoolState([], [], 0, 0, useProxy == Some("true"))
    {
      proxies := [];
      workingProxies := [];
      currentIndex := 0;
      lastFetch := 0;
      isEnabled := useProxy == Some("true");
    }

    method GetNextProxy() returns (proxy: Option<string>)
      modifies this
      ensures (proxy, State()) == NextProxy(old(State()))
    {
      if |workingProxies| == 0 {
        return None;
      }
      proxy := if currentIndex < |workingProxies| then Some(workingProxies[currentIndex]) else None;
      currentIndex := (currentIndex + 1) % |workingProxies|;
    }

    method MarkProxyBad(proxy: string)
      modifies this
      ensures State() == MarkBad(old(State()), proxy)
    {
      var index := FirstIndex(workingProxies, proxy);
      if index < |workingProxies| {
        workingProxies := workingProxies[..index] + workingProxies[index + 1..];
      }
    }

    method GetProxyArg() returns (arg: string, proxy: Option<string>)
      modifies this
      ensures ((arg, proxy), State()) == ProxyArgOf(old(State()))
    {
      var p := GetNextProxy();
      if p.Some? && p.value != "" {
        return ProxyOption(p.value), p;
      }
      return "", None;
    }

    /** Downloads every source in turn, skipping those that fail. */
    method FetchProxies(fetch: Source -> Result<string>, now: int) returns (result: seq<string>)
      modifies this
      ensures State() == Fetched(old(State()), fetch, now)
      ensures result == proxies
    {
      var sources := Sources;
      var all: seq<string> := [];
      var i := 0;
      while i < |sources|
        invariant 0 <= i <= |sources|
        invariant all == Harvest(fetch, sources[..i])
        invariant State() == old(State())
      {
        var response := fetch(sources[i]);
        HarvestStep(fetch, sources, i);
        all := all + Contribution(response);
        i := i + 1;
      }
      assert sources[..i] == sources;
      assert all == Harvest(fetch, Sources);
      proxies := Dedupe(all);
      lastFetch := now;
      result := proxies;
    }

    /** The probing loop of `findWorkingProxies`: each candidate in turn
        is probed and pushed onto the working list when it passes, until
        `count` are there. */
    method ProbeInto(toTest: seq<string>, count: int, works: string -> bool)
      modifies this
      ensures workingProxies == Probe(toTest, count, works, old(workingProxies))
      ensures proxies == old(proxies) && lastFetch == old(lastFetch) && currentIndex == old(currentIndex)
    {
      var i := 0;
      while i < |toTest|
        invariant 0 <= i <= |toTest|
        invariant proxies == old(proxies) && lastFetch == old(lastFetch) && currentIndex == old(currentIndex)
        invariant Probe(toTest[i..], count, works, workingProxies) == Probe(toTest, count, works, old(workingProxies))
      {
        if |workingProxies| >= count {
          break;
        }
        if works(toTest[i]) {
          workingProxies := workingProxies + [toTest[i]];
        }
        assert toTest[i..][1..] == toTest[i + 1..];
        i := i + 1;
      }
      assert Probe(toTest[i..], count, works, workingProxies) == workingProxies;
    }

    method FindWorkingProxies(count: int, env: Env) returns (result: seq<string>)
      modifies this
      ensures (result, State()) == FindWorking(old(State()), count, env)
    {
      if !isEnabled {
        return [];
      }
      ghost var s0 := State();
      if env.now - lastFetch > fetchInterval || |proxies| == 0 {
        var _ := FetchProxies(env.fetch, env.now);
      }
      ghost var s1 := State();
      assert s1 == if NeedsFetch(s0, env.now) then Fetched(s0, env.fetch, env.now) else s0;
      workingProxies := [];
      var toTest := ToTest(env.shuffle(proxies));
      ProbeInto(toTest, count, env.works);
      result := workingProxies;
    }
  }
}
