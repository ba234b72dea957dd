/** The candidate list of the proxy pool (proxy-manager.js, `fetchProxies`):
    the lines of each source that look like `a.b.c.d:port`, gathered over
    the sources in order and stripped of repeats. */
module ProxyList {
  import opened Common
  import opened Strings

  /** The lists the pool downloads. A source is named by its site; `Url`
      gives the address the pool asks. */
  datatype Source = ProxyScrape | TheSpeedX | ShiftyTR | Monosans | Hookzof

  function Url(source: Source): string {
    match source
    case ProxyScrape => "https://api.proxyscrape.com/v2/?request=displayproxies&protocol=http&timeout=10000&country=all&ssl=all&anonymity=all"
    case TheSpeedX => "https://raw.githubusercontent.com/TheSpeedX/PROXY-List/master/http.txt"
    case ShiftyTR => "https://raw.githubusercontent.com/ShiftyTR/Proxy-List/master/http.txt"
    case Monosans => "https://raw.githubusercontent.com/monosans/proxy-list/main/proxies/http.txt"
    case Hookzof => "https://raw.githubusercontent.com/hookzof/socks5_list/master/proxy.txt"
  }

  /** The order in which the sources are asked. */
  const Sources: seq<Source> := [ProxyScrape, TheSpeedX, ShiftyTR, Monosans, Hookzof]

  /** `\d+`: one or more ASCII digits. */
  predicate DigitRun(s: string) {
    |s| >= 1 && AllDigits(s)
  }

  /** `^\d+\.\d+\.\d+\.\d+:\d+$`: exactly one colon with a digit run after
      it, and before it exactly four digit runs separated by dots. */
  predicate IsProxyAddress(s: string) {
    var halves := Split(s, ':');
    |halves| == 2 && DigitRun(halves[1])
    && var groups := Split(halves[0], '.');
       |groups| == 4 && forall k :: 0 <= k < 4 ==> DigitRun(groups[k])
  }

  /** The text `a.b.c.d:port`. */
  function Address(a: string, b: string, c: string, d: string, port: string): string {
    Join([a, b, c, d], ".") + ":" + port
  }

  lemma DigitRunAvoids(s: string, c: char)
    requires DigitRun(s) && !IsDigit(c)
    ensures c !in s
  {
  }

  /** Four digit runs and a port always form an address. */
  lemma AddressMatches(a: string, b: string, c: string, d: string, port: string)
    requires DigitRun(a) && DigitRun(b) && DigitRun(c) && DigitRun(d) && DigitRun(port)
    ensures IsProxyAddress(Address(a, b, c, d, port))
  {
    var host := Join([a, b, c, d], ".");
    HostSplits(a, b, c, d);
    DigitRunAvoids(port, ':');
    AddressSplits(host, port);
    AddressFromParts(Address(a, b, c, d, port), host, port, [a, b, c, d]);
  }

  lemma HostSplits(a: string, b: string, c: string, d: string)
    requires DigitRun(a) && DigitRun(b) && DigitRun(c) && DigitRun(d)
    ensures Split(Join([a, b, c, d], "."), '.') == [a, b, c, d]
    ensures ':' !in Join([a, b, c, d], ".")
  {
    var groups := [a, b, c, d];
    forall k | 0 <= k < 4 ensures '.' !in groups[k] && ':' !in groups[k] {
      DigitRunAvoids(groups[k], '.');
      DigitRunAvoids(groups[k], ':');
    }
    SplitJoin(groups, '.');
    JoinAvoids(groups, ".", ':');
  }

  lemma AddressSplits(host: string, port: string)
    requires ':' !in host && ':' !in port
    ensures Split(host + ":" + port, ':') == [host, port]
  {
    SplitConcat(host, ':', port);
    SplitNone(port, ':');
    assert host + ":" + port == host + [':'] + port;
  }

  lemma AddressFromParts(s: string, host: string, port: string, groups: seq<string>)
    requires Split(s, ':') == [host, port] && Split(host, '.') == groups
    requires |groups| == 4 && DigitRun(port) && forall k :: 0 <= k < 4 ==> DigitRun(groups[k])
    ensures IsProxyAddress(s)
  {
  }

  /** Every address is of that form. */
  lemma AddressShape(s: string)
    requires IsProxyAddress(s)
    ensures var g := Split(Split(s, ':')[0], '.');
            s == Address(g[0], g[1], g[2], g[3], Split(s, ':')[1])
  {
    var halves := Split(s, ':');
    var g := Split(halves[0], '.');
    JoinSplit(s, ':');
    JoinSplit(halves[0], '.');
    assert halves == [halves[0]] + [halves[1]];
    JoinCons(halves[0], [halves[1]], ":");
    assert g == [g[0], g[1], g[2], g[3]];
  }

  /** An address holds only digits, dots and a colon: no white space, no
      quote and nothing else a shell would interpret. */
  lemma AddressCharacters(s: string, c: char)
    requires IsProxyAddress(s) && c in s
    ensures IsDigit(c) || c == '.' || c == ':'
  {
    var halves := Split(s, ':');
    JoinSplit(s, ':');
    JoinChars(halves, ":", c);
    if c != ':' {
      var h :| 0 <= h < |halves| && c in halves[h];
      if h == 0 {
        var groups := Split(halves[0], '.');
        JoinSplit(halves[0], '.');
        JoinChars(groups, ".", c);
      }
    }
  }

  /** One line of a source: trimmed, and kept only when it is an address. */
  function ProxyLine(line: string): (r: Option<string>)
    ensures r.Some? <==> IsProxyAddress(Trim(line))
    ensures r.Some? ==> r.value == Trim(line)
  {
    var t := Trim(line);
    if IsProxyAddress(t) then Some(t) else None
  }

  /** `data.split('\n').map(trim).filter(isAddress)`. */
  function ParseProxyList(data: string): (r: seq<string>)
    ensures forall k :: 0 <= k < |r| ==> IsProxyAddress(r[k])
  {
    var lines := Split(data, '\n');
    AllAddresses(lines);
    FilterMap(ProxyLine, lines)
  }

  lemma {:induction false} AllAddresses(lines: seq<string>)
    ensures forall k :: 0 <= k < |FilterMap(ProxyLine, lines)| ==> IsProxyAddress(FilterMap(ProxyLine, lines)[k])
    decreases |lines|
  {
    if |lines| > 0 {
      AllAddresses(lines[1..]);
    }
  }

  /** A parsed address is exactly a line of the source that is an address
      once trimmed: nothing is invented and nothing that matches is lost. */
  lemma ParseProxyListIff(data: string, x: string)
    ensures x in ParseProxyList(data) <==>
              exists k :: 0 <= k < |Split(data, '\n')| && Trim(Split(data, '\n')[k]) == x && IsProxyAddress(x)
  {
    var lines := Split(data, '\n');
    FilterMapIn(ProxyLine, lines, x);
    forall k | 0 <= k < |lines|
      ensures ProxyLine(lines[k]) == Some(x) <==> Trim(lines[k]) == x && IsProxyAddress(x)
    {
    }
  }

  /** The value a fetched source contributes: its addresses, or nothing when
      the download failed. */
  function Contribution(response: Result<string>): seq<string> {
    if response.Ok? then ParseProxyList(response.value) else []
  }

  /** `allProxies` after the sources have been visited: each source's
      addresses appended in source order. */
  function Harvest(fetch: Source -> Result<string>, sources: seq<Source>): (r: seq<string>)
    ensures forall k :: 0 <= k < |r| ==> IsProxyAddress(r[k])
    decreases |sources|
  {
    if |sources| == 0 then []
    else Harvest(fetch, sources[..|sources| - 1]) + Contribution(fetch(sources[|sources| - 1]))
  }

  /** Visiting one more source appends its contribution. */
  lemma HarvestStep(fetch: Source -> Result<string>, sources: seq<Source>, i: nat)
    requires i < |sources|
    ensures Harvest(fetch, sources[..i + 1]) == Harvest(fetch, sources[..i]) + Contribution(fetch(sources[i]))
  {
    assert sources[..i + 1][..i] == sources[..i];
  }

  /** Every address of a source that answered is gathered. */
  lemma {:induction false} HarvestComplete(fetch: Source -> Result<string>, sources: seq<Source>, i: nat, x: string)
    requires i < |sources| && fetch(sources[i]).Ok? && x in ParseProxyList(fetch(sources[i]).value)
    ensures x in Harvest(fetch, sources)
    decreases |sources|
  {
    if i < |sources| - 1 {
      HarvestComplete(fetch, sources[..|sources| - 1], i, x);
    }
  }

  /** A source that fails contributes nothing: the result is what the other
      sources give. */
  lemma {:induction false} HarvestSkipsFailures(fetch: Source -> Result<string>, sources: seq<Source>)
    requires forall k :: 0 <= k < |sources| ==> fetch(sources[k]).Err?
    ensures Harvest(fetch, sources) == []
    decreases |sources|
  {
    if |sources| > 0 {
      HarvestSkipsFailures(fetch, sources[..|sources| - 1]);
    }
  }

  /** Each gathered address comes from a source that answered. */
  lemma {:induction false} HarvestSound(fetch: Source -> Result<string>, sources: seq<Source>, x: string)
    requires x in Harvest(fetch, sources)
    ensures exists k :: 0 <= k < |sources| && fetch(sources[k]).Ok? && x in ParseProxyList(fetch(sources[k]).value)
    decreases |sources|
  {
    var n := |sources| - 1;
    if x in Harvest(fetch, sources[..n]) {
      HarvestSound(fetch, sources[..n], x);
      var k :| 0 <= k < n && fetch(sources[..n][k]).Ok? && x in ParseProxyList(fetch(sources[..n][k]).value);
      assert sources[..n][k] == sources[k];
    } else {
      assert fetch(sources[n]).Ok? && x in ParseProxyList(fetch(sources[n]).value);
    }
  }

  // ---------------------------------------------------------------------------
  // [...new Set(list)]

  /** The distinct elements of `s` in the order of their first occurrence:
      an element is appended when it has not been seen before. */
  function Dedupe(s: seq<string>): (r: seq<string>)
    ensures NoDups(r)
    ensures forall x :: x in r <==> x in s
    decreases |s|
  {
    if |s| == 0 then []
    else
      var prefix := s[..|s| - 1];
      var r := Dedupe(prefix);
      var x := s[|s| - 1];
      assert s == prefix + [x];
      if x in r then r else r + [x]
  }

  /** The position of the first `y` is the one where `y` occurs with no `y`
      before it. */
  lemma FirstIndexUnique<T>(s: seq<T>, y: T, i: nat)
    requires i < |s| && s[i] == y && y !in s[..i]
    ensures FirstIndex(s, y) == i
  {
  }

  /** Extending a list does not move the first occurrence of an element it
      already holds. */
  lemma FirstIndexExtend<T>(p: seq<T>, x: T, y: T)
    requires y in p
    ensures FirstIndex(p + [x], y) == FirstIndex(p, y)
  {
    var i := FirstIndex(p, y);
    assert (p + [x])[..i] == p[..i];
    FirstIndexUnique(p + [x], y, i);
  }

  /** The elements of `r` come in the order of their first occurrence in
      `s`. */
  predicate FirstOrdered(s: seq<string>, r: seq<string>) {
    forall i, j :: 0 <= i < j < |r| ==> FirstIndex(s, r[i]) < FirstIndex(s, r[j])
  }

  /** The distinct elements come in the order in which they first occur. */
  lemma {:induction false} DedupeKeepsFirstOrder(s: seq<string>)
    ensures FirstOrdered(s, Dedupe(s))
    decreases |s|
  {
    if |s| > 0 {
      var prefix := s[..|s| - 1];
      var x := s[|s| - 1];
      var r := Dedupe(prefix);
      DedupeKeepsFirstOrder(prefix);
      assert s == prefix + [x];
      AppendKeepsOrder(prefix, x, r);
    }
  }

  /** Appending an unseen element to a list ordered by first occurrence in
      `prefix` keeps it ordered by first occurrence in `prefix + [x]`. */
  lemma AppendKeepsOrder(prefix: seq<string>, x: string, r: seq<string>)
    requires forall y :: y in r <==> y in prefix
    requires FirstOrdered(prefix, r)
    ensures FirstOrdered(prefix + [x], if x in r then r else r + [x])
  {
    var s := prefix + [x];
    forall y | y in r ensures FirstIndex(s, y) == FirstIndex(prefix, y) {
      FirstIndexExtend(prefix, x, y);
    }
    if x !in r {
      assert s[..|prefix|] == prefix;
      FirstIndexUnique(s, x, |prefix|);
      var r' := r + [x];
      forall i, j | 0 <= i < j < |r'| ensures FirstIndex(s, r'[i]) < FirstIndex(s, r'[j]) {
        assert r'[i] == r[i] && r[i] in r;
        if j < |r| {
          assert r'[j] == r[j] && r[j] in r;
        }
      }
    } else {
      forall i, j | 0 <= i < j < |r| ensures FirstIndex(s, r[i]) < FirstIndex(s, r[j]) {
        assert r[i] in r && r[j] in r;
      }
    }
  }

  /** A list without repeats is its own set. */
  lemma {:induction false} DedupeNoDups(s: seq<string>)
    requires NoDups(s)
    ensures Dedupe(s) == s
    decreases |s|
  {
    if |s| > 0 {
      var prefix := s[..|s| - 1];
      assert NoDups(prefix);
      DedupeNoDups(prefix);
      assert s[|s| - 1] !in prefix;
      assert s == prefix + [s[|s| - 1]];
    }
  }
}
