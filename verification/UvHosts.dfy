/** One quoted field of a uv.lock through all the commands, lent and handed back: exactly when it
    is what it was, for every address of the cache, listed hosts included. */
module UvHosts {
  import opened Types
  import opened Sed
  import opened UvScripts
  import opened UvFields
  import opened UvPasses

  const SUFFIX: string := "+files/"

  predicate EndsWith(s: string, suffix: string) {
    |s| >= |suffix| && s[|s| - |suffix|..] == suffix
  }

  /** What the wrapper needs of the cache's address: nothing in it that sed or the shell reads
      as more than itself. It ends in `+files/` as the wrapper builds it. */
  ghost predicate Fit(files: string) {
    PlainForSed(files) && EndsWith(files, SUFFIX)
  }

  // ---- addresses --------------------------------------------------------------------------------

  lemma HostFacts(h: string)
    requires h in HOSTS
    ensures HostName(h)
  {
    var i :| 0 <= i < |HOSTS| && HOSTS[i] == h;
    HostsNamed(i);
  }

  lemma FromChars(h: string)
    requires HostName(h)
    ensures '+' !in From(h) && ' ' !in From(h) && Quoteless(From(h)) && '?' !in From(h)
  {
    var f := From(h);
    forall i | 0 <= i < |f| ensures f[i] != '+' && f[i] != ' ' && f[i] != '"' && f[i] != '?' {
      if 8 <= i < |f| - 1 {
        assert f[i] == h[i - 8];
      }
    }
  }

  lemma PlusIn(files: string)
    requires EndsWith(files, SUFFIX)
    ensures '+' in files
  {
    assert files[|files| - |SUFFIX|..][0] == '+';
    assert files[|files| - |SUFFIX|] == '+';
  }

  lemma PlusCarries(a: string, b: string)
    requires a <= b && '+' in a
    ensures '+' in b
  {
    var i :| 0 <= i < |a| && a[i] == '+';
    assert b[i] == '+';
  }

  /** Two prefixes of one text: the shorter is a prefix of the longer. */
  lemma Comparable(a: string, b: string, s: string)
    requires a <= s && b <= s && |a| <= |b|
    ensures a <= b
  {
    assert a == s[..|a|] && b[..|a|] == s[..|a|];
  }

  /** What begins with the cache's address and with a listed host's: the cache is on that host. */
  lemma AtHome(files: string, h: string, s: string)
    requires Fit(files) && h in HOSTS && files <= s && From(h) <= s
    ensures From(h) <= files
  {
    if |files| <= |From(h)| {
      Comparable(files, From(h), s);
      PlusIn(files);
      HostFacts(h);
      FromChars(h);
      PlusCarries(files, From(h));
    } else {
      Comparable(From(h), files, s);
    }
  }

  lemma NameEnds(a: string, b: string, s: string)
    requires HostName(a) && HostName(b) && a + "/" <= s && b + "/" <= s
    ensures a == b
  {
    assert forall i :: 0 <= i < |a| ==> s[i] == (a + "/")[i] == a[i] != '/';
    assert forall i :: 0 <= i < |b| ==> s[i] == (b + "/")[i] == b[i] != '/';
    assert s[|a|] == (a + "/")[|a|] == '/' && s[|b|] == (b + "/")[|b|] == '/';
    assert |a| == |b|;
    assert a == s[..|a|] == b;
  }

  /** The cache's address tells which host it stands for. */
  lemma SameHost(files: string, h: string, h': string, s: string)
    requires h in HOSTS && h' in HOSTS && To(files, h) <= s && To(files, h') <= s
    ensures h == h'
  {
    HostFacts(h);
    HostFacts(h');
    var rest := s[|files|..];
    assert h + "/" == To(files, h)[|files|..] && h' + "/" == To(files, h')[|files|..];
    assert To(files, h)[|files|..] <= rest && To(files, h')[|files|..] <= rest;
    NameEnds(h, h', rest);
  }

  lemma SameFrom(x: string, h: string, f: string)
    requires HostName(x) && HostName(h) && From(x) <= f && From(h) <= f
    ensures x == h
  {
    var rest := f[8..];
    assert From(x)[8..] == x + "/" && From(h)[8..] == h + "/";
    assert From(x)[8..] <= rest && From(h)[8..] <= rest;
    NameEnds(x, h, rest);
  }

  lemma HostLength(i: nat)
    requires i < |HOSTS|
    ensures |HOSTS[i]| == [22, 20, 23, 15, 13][i]
  {
    match i
    case 0 => assert HOSTS[i] == "files.pythonhosted.org";
    case 1 => assert HOSTS[i] == "download.pytorch.org";
    case 2 => assert HOSTS[i] == "download-r2.pytorch.org";
    case 3 => assert HOSTS[i] == "pypi.nvidia.com";
    case _ => assert HOSTS[i] == "flashinfer.ai";
  }

  lemma HostsDiffer(a: nat, b: nat)
    requires a < |HOSTS| && b < |HOSTS| && HOSTS[a] == HOSTS[b]
    ensures a == b
  {
    HostLength(a);
    HostLength(b);
  }

  /** The text starts with the address of the a-th listed host. */
  predicate On(f: string, a: nat) {
    a < |HOSTS| && From(HOSTS[a]) <= f
  }

  /** The text starts with the cache's address for the a-th listed host. */
  predicate Cached(files: string, f: string, a: nat) {
    a < |HOSTS| && To(files, HOSTS[a]) <= f
  }

  lemma OneHost(f: string, a: nat, b: nat)
    requires On(f, a) && On(f, b)
    ensures a == b
  {
    HostFacts(HOSTS[a]);
    HostFacts(HOSTS[b]);
    SameFrom(HOSTS[a], HOSTS[b], f);
    HostsDiffer(a, b);
  }

  lemma OneCached(files: string, f: string, a: nat, b: nat)
    requires Cached(files, f, a) && Cached(files, f, b)
    ensures a == b
  {
    SameHost(files, HOSTS[a], HOSTS[b], f);
    HostsDiffer(a, b);
  }

  /** An address of the cache that is on a listed host too: the cache is on that host. */
  lemma CachedAtHome(files: string, f: string, a: nat, b: nat)
    requires Fit(files) && Cached(files, f, a) && On(f, b)
    ensures On(files, b)
  {
    assert files <= To(files, HOSTS[a]);
    AtHome(files, HOSTS[b], f);
  }

  lemma HomeIsOn(files: string, f: string, a: nat, b: nat)
    requires Cached(files, f, a) && On(files, b)
    ensures On(f, b)
  {
    assert files <= To(files, HOSTS[a]);
  }

  // ---- one field through any passes ---------------------------------------------------------------

  /** A field with fixed surroundings, after the passes. */
  function Through(files: string, passes: seq<Pass>, c: Context, f: string): string {
    if passes == [] then f
    else Rewrite(files, passes[|passes| - 1], c, Through(files, passes[..|passes| - 1], c, f))
  }

  function LendPasses(hosts: seq<string>): seq<Pass> {
    if hosts == [] then []
    else LendPasses(hosts[..|hosts| - 1]) + [LendH(hosts[|hosts| - 1]), LendP(hosts[|hosts| - 1])]
  }

  function BackPasses(hosts: seq<string>): seq<Pass> {
    if hosts == [] then []
    else BackPasses(hosts[..|hosts| - 1]) + [BackH(hosts[|hosts| - 1]), BackP(hosts[|hosts| - 1])]
  }

  lemma ThroughTwo(files: string, passes: seq<Pass>, p: Pass, q: Pass, c: Context, f: string)
    ensures Through(files, passes + [p, q], c, f) ==
      Rewrite(files, q, c, Rewrite(files, p, c, Through(files, passes, c, f)))
  {
    var all := passes + [p, q];
    assert all[..|all| - 1] == passes + [p];
    assert (passes + [p])[..|passes|] == passes;
  }

  lemma {:induction false} ThroughAppend(files: string, a: seq<Pass>, b: seq<Pass>, c: Context, f: string)
    ensures Through(files, a + b, c, f) == Through(files, b, c, Through(files, a, c, f))
    decreases |b|
  {
    if b == [] {
      assert a + b == a;
    } else {
      assert (a + b)[..|a + b| - 1] == a + b[..|b| - 1];
      ThroughAppend(files, a, b[..|b| - 1], c, f);
    }
  }

  lemma {:induction false} InactiveThrough(files: string, passes: seq<Pass>, c: Context, f: string)
    requires !c.active
    ensures Through(files, passes, c, f) == f
  {
    if passes != [] {
      InactiveThrough(files, passes[..|passes| - 1], c, f);
    }
  }

  const ALL: seq<Pass> := LendPasses(HOSTS) + BackPasses(HOSTS)

  /** Both commands of a host that lend. */
  function LendBoth(files: string, c: Context, h: string, f: string): string {
    Rewrite(files, LendP(h), c, Rewrite(files, LendH(h), c, f))
  }

  function BackBoth(files: string, c: Context, h: string, f: string): string {
    Rewrite(files, BackP(h), c, Rewrite(files, BackH(h), c, f))
  }

  /** After the commands that lend the hosts a to b. */
  function Lending(files: string, c: Context, a: nat, b: nat, f: string): string
    requires a <= b <= |HOSTS|
  {
    Through(files, LendPasses(HOSTS[a..b]), c, f)
  }

  function Backing(files: string, c: Context, a: nat, b: nat, f: string): string
    requires a <= b <= |HOSTS|
  {
    Through(files, BackPasses(HOSTS[a..b]), c, f)
  }

  lemma LendingNext(files: string, c: Context, a: nat, b: nat, f: string)
    requires a <= b < |HOSTS|
    ensures Lending(files, c, a, b + 1, f) == LendBoth(files, c, HOSTS[b], Lending(files, c, a, b, f))
  {
    var hosts := HOSTS[a..b + 1];
    assert hosts[..|hosts| - 1] == HOSTS[a..b] && hosts[|hosts| - 1] == HOSTS[b];
    ThroughTwo(files, LendPasses(HOSTS[a..b]), LendH(HOSTS[b]), LendP(HOSTS[b]), c, f);
  }

  lemma BackingNext(files: string, c: Context, a: nat, b: nat, f: string)
    requires a <= b < |HOSTS|
    ensures Backing(files, c, a, b + 1, f) == BackBoth(files, c, HOSTS[b], Backing(files, c, a, b, f))
  {
    var hosts := HOSTS[a..b + 1];
    assert hosts[..|hosts| - 1] == HOSTS[a..b] && hosts[|hosts| - 1] == HOSTS[b];
    ThroughTwo(files, BackPasses(HOSTS[a..b]), BackH(HOSTS[b]), BackP(HOSTS[b]), c, f);
  }

  lemma {:induction false} PassesJoin(x: seq<string>, y: seq<string>)
    ensures LendPasses(x + y) == LendPasses(x) + LendPasses(y)
    ensures BackPasses(x + y) == BackPasses(x) + BackPasses(y)
    decreases |y|
  {
    if y == [] {
      assert x + y == x;
    } else {
      assert (x + y)[..|x + y| - 1] == x + y[..|y| - 1];
      PassesJoin(x, y[..|y| - 1]);
    }
  }

  lemma LendingSplits(files: string, c: Context, a: nat, m: nat, b: nat, f: string)
    requires a <= m <= b <= |HOSTS|
    ensures Lending(files, c, a, b, f) == Lending(files, c, m, b, Lending(files, c, a, m, f))
  {
    var x, y := HOSTS[a..m], HOSTS[m..b];
    assert HOSTS[a..b] == x + y;
    PassesJoin(x, y);
    ThroughAppend(files, LendPasses(x), LendPasses(y), c, f);
  }

  lemma BackingSplits(files: string, c: Context, a: nat, m: nat, b: nat, f: string)
    requires a <= m <= b <= |HOSTS|
    ensures Backing(files, c, a, b, f) == Backing(files, c, m, b, Backing(files, c, a, m, f))
  {
    var x, y := HOSTS[a..m], HOSTS[m..b];
    assert HOSTS[a..b] == x + y;
    PassesJoin(x, y);
    ThroughAppend(files, BackPasses(x), BackPasses(y), c, f);
  }

  /** A text on none of these hosts is not lent. */
  lemma {:induction false} LendQuiet(files: string, hosts: seq<string>, c: Context, f: string)
    requires forall i :: 0 <= i < |hosts| ==> !(From(hosts[i]) <= f)
    ensures Through(files, LendPasses(hosts), c, f) == f
  {
    if hosts != [] {
      var n := |hosts| - 1;
      LendQuiet(files, hosts[..n], c, f);
      ThroughTwo(files, LendPasses(hosts[..n]), LendH(hosts[n]), LendP(hosts[n]), c, f);
    }
  }

  lemma {:induction false} BackQuiet(files: string, hosts: seq<string>, c: Context, f: string)
    requires forall i :: 0 <= i < |hosts| ==> !(To(files, hosts[i]) <= f)
    ensures Through(files, BackPasses(hosts), c, f) == f
  {
    if hosts != [] {
      var n := |hosts| - 1;
      BackQuiet(files, hosts[..n], c, f);
      ThroughTwo(files, BackPasses(hosts[..n]), BackH(hosts[n]), BackP(hosts[n]), c, f);
    }
  }

  lemma LendingQuiet(files: string, c: Context, a: nat, b: nat, f: string)
    requires a <= b <= |HOSTS| && forall i: nat :: a <= i < b ==> !On(f, i)
    ensures Lending(files, c, a, b, f) == f
  {
    forall i | 0 <= i < b - a ensures !(From(HOSTS[a..b][i]) <= f) {
      assert !On(f, a + i);
    }
    LendQuiet(files, HOSTS[a..b], c, f);
  }

  lemma BackingQuiet(files: string, c: Context, a: nat, b: nat, f: string)
    requires a <= b <= |HOSTS| && forall i: nat :: a <= i < b ==> !Cached(files, f, i)
    ensures Backing(files, c, a, b, f) == f
  {
    forall i | 0 <= i < b - a ensures !(To(files, HOSTS[a..b][i]) <= f) {
      assert !Cached(files, f, a + i);
    }
    BackQuiet(files, HOSTS[a..b], c, f);
  }

  /** Only the a-th host's commands find anything to lend before the others have had their turn. */
  lemma LendingAt(files: string, c: Context, a: nat, b: nat, f: string)
    requires On(f, a) && a < b <= |HOSTS|
    ensures Lending(files, c, 0, b, f) == Lending(files, c, a + 1, b, LendBoth(files, c, HOSTS[a], f))
  {
    LendingSplits(files, c, 0, a + 1, b, f);
    LendingNext(files, c, 0, a, f);
    forall i | 0 <= i < a ensures !On(f, i) {
      if On(f, i) {
        OneHost(f, a, i);
      }
    }
    LendingQuiet(files, c, 0, a, f);
  }

  lemma BackingAt(files: string, c: Context, a: nat, g: string)
    requires Cached(files, g, a)
    ensures Backing(files, c, 0, |HOSTS|, g) == Backing(files, c, a + 1, |HOSTS|, BackBoth(files, c, HOSTS[a], g))
  {
    BackingSplits(files, c, 0, a + 1, |HOSTS|, g);
    BackingNext(files, c, 0, a, g);
    forall i | 0 <= i < a ensures !Cached(files, g, i) {
      if Cached(files, g, i) {
        OneCached(files, g, a, i);
      }
    }
    BackingQuiet(files, c, 0, a, g);
  }

  lemma AllIs(files: string, c: Context, f: string)
    ensures Through(files, ALL, c, f) == Backing(files, c, 0, |HOSTS|, Lending(files, c, 0, |HOSTS|, f))
  {
    assert HOSTS[0..|HOSTS|] == HOSTS;
    ThroughAppend(files, LendPasses(HOSTS), BackPasses(HOSTS), c, f);
  }

  // ---- when a field comes back -------------------------------------------------------------------

  /** What surrounds a field of some line. */
  predicate Possible(c: Context) {
    c.hash.Some? ==> c.closed && AllHex(c.hash.value)
  }

  /** The query that lending puts on the address r is the only one, and without a hash beside
      the address there is none that the hand-back would take off. */
  predicate QueryOk(c: Context, r: string) {
    if c.hash.Some? then '?' !in r else c.closed ==> BeforeQuery(r).None?
  }

  /** What must hold of the address of the a-th host. If the cache is itself on a listed host:
      not on a later one, which would lend the address again; and if on this one, without a
      query of its own, and the address is not one of the cache's for a later host. */
  ghost predicate HostComesBack(files: string, c: Context, f: string, a: nat)
    requires On(f, a)
  {
    && QueryOk(c, f[|From(HOSTS[a])|..])
    && (forall k: nat :: On(files, k) ==> k <= a)
    && (On(files, a) ==> (c.hash.Some? ==> '?' !in files) && forall k: nat :: a < k ==> !Cached(files, f, k))
  }

  /** What must hold of a field for the lock to come back as it was. */
  ghost predicate Clean(files: string, c: Context, f: string) {
    c.active ==>
      && ((forall a: nat :: !On(f, a)) ==> forall a: nat :: !Cached(files, f, a))
      && (forall a: nat :: On(f, a) ==> HostComesBack(files, c, f, a))
  }

  /** The address as the cache's. */
  function Lent(files: string, c: Context, h: string, f: string): string
    requires From(h) <= f
  {
    To(files, h) + f[|From(h)|..] + if c.hash.Some? then QUERY + c.hash.value else ""
  }

  /** The cache's address as the host's again. */
  function Returned(files: string, c: Context, h: string, g: string): string
    requires To(files, h) <= g
  {
    var r := g[|To(files, h)|..];
    From(h) + if c.closed && BeforeQuery(r).Some? then BeforeQuery(r).value else r
  }

  lemma SpanAppend(r: string, tail: string)
    requires Quoteless(r) && '?' !in r
    ensures Span(NOT_QUERY, r + tail) == |r| + Span(NOT_QUERY, tail)
  {
    var n := Span(NOT_QUERY, tail);
    forall i | 0 <= i < |r| + n ensures Member(NOT_QUERY, (r + tail)[i]) {
      if i < |r| {
        SetsAre(r[i]);
      }
    }
    SpanIs(NOT_QUERY, r + tail, |r| + n);
  }

  lemma SpanAtQuery(q: string, tail: string)
    requires q == "?" + tail
    ensures Span(NOT_QUERY, q) == 0
  {
    SetsAre('?');
  }

  /** The query that lending added comes off again. */
  lemma QueryComesOff(r: string, hex: string)
    requires Quoteless(r) && '?' !in r && AllHex(hex)
    ensures BeforeQuery(r + (QUERY + hex)) == Some(r)
  {
    var x := r + (QUERY + hex);
    SpanAppend(r, QUERY + hex);
    assert QUERY == "?" + QUERY_REST;
    assert QUERY + hex == "?" + (QUERY_REST + hex);
    SpanAtQuery(QUERY + hex, QUERY_REST + hex);
    assert x[|r|..] == QUERY + hex && x[|r| + |QUERY|..] == hex && x[..|r|] == r;
  }

  /** Behind a query of its own it does not. */
  lemma QueryStays(r: string, hex: string)
    requires Quoteless(r) && '?' in r
    ensures BeforeQuery(r + (QUERY + hex)).None?
  {
    var x := r + (QUERY + hex);
    var k :| 0 <= k < |r| && r[k] == '?';
    var n := Span(NOT_QUERY, x);
    SetsAre('?');
    SpanStops(NOT_QUERY, x, k);
    assert x[|r|] == '?' && n < |r|;
    if QUERY <= x[n..] && AllHex(x[n + |QUERY|..]) {
      SecondQuery(x, n, |r|);
    }
  }

  /** One `?sha256=` and hex have one question mark. */
  lemma SecondQuery(x: string, n: nat, m: nat)
    requires n < m < |x| && QUERY <= x[n..] && AllHex(x[n + |QUERY|..])
    ensures x[m] != '?'
  {
    if m < n + |QUERY| {
      assert x[m] == x[n..][m - n] == QUERY[m - n];
    } else {
      assert x[m] == x[n + |QUERY|..][m - n - |QUERY|];
    }
  }

  lemma BeforeShorter(r: string)
    requires BeforeQuery(r).Some?
    ensures |BeforeQuery(r).value| < |r| && '?' in r
  {
    var n := Span(NOT_QUERY, r);
    QueryPrefix(r[n..]);
    assert r[n] == r[n..][0] == '?';
  }

  /** What a lent address comes back as. */
  lemma LentReturns(files: string, c: Context, h: string, f: string)
    requires Fit(files) && Possible(c) && c.active && h in HOSTS && From(h) <= f && Quoteless(f)
    ensures To(files, h) <= Lent(files, c, h, f)
    ensures var r := f[|From(h)|..];
      Returned(files, c, h, Lent(files, c, h, f)) == f <==>
      QueryOk(c, r)
  {
    var r := f[|From(h)|..];
    assert f == From(h) + r;
    var tail := if c.hash.Some? then QUERY + c.hash.value else "";
    var g := Lent(files, c, h, f);
    assert g == To(files, h) + (r + tail);
    assert g[|To(files, h)|..] == r + tail;
    if c.hash.Some? {
      if '?' in r {
        QueryStays(r, c.hash.value);
        assert |From(h) + (r + tail)| > |f|;
      } else {
        QueryComesOff(r, c.hash.value);
      }
    } else {
      assert r + tail == r;
      if c.closed && BeforeQuery(r).Some? {
        BeforeShorter(r);
        assert |From(h) + BeforeQuery(r).value| < |f|;
      }
    }
  }

  // ---- the cache is elsewhere, or on an earlier host ------------------------------------------------

  lemma LentBoth(files: string, c: Context, h: string, f: string)
    requires c.active && From(h) <= f && !(From(h) <= Lent(files, c, h, f))
    ensures LendBoth(files, c, h, f) == Lent(files, c, h, f)
  {
    var r := f[|From(h)|..];
    if c.hash.Some? {
      assert To(files, h) + r + QUERY + c.hash.value == To(files, h) + r + (QUERY + c.hash.value);
    } else {
      assert To(files, h) + r + "" == To(files, h) + r;
    }
  }

  /** Where the cache is not on this host, its commands lend once and take back once. */
  lemma LendOnce(files: string, c: Context, a: nat, f: string)
    requires Fit(files) && c.active && On(f, a) && !On(files, a)
    ensures LendBoth(files, c, HOSTS[a], f) == Lent(files, c, HOSTS[a], f)
  {
    var lent := Lent(files, c, HOSTS[a], f);
    assert Cached(files, lent, a);
    if On(lent, a) {
      CachedAtHome(files, lent, a, a);
    }
    LentBoth(files, c, HOSTS[a], f);
  }

  lemma BackOnce(files: string, c: Context, a: nat, g: string)
    requires Fit(files) && c.active && Cached(files, g, a) && !On(files, a)
    ensures BackBoth(files, c, HOSTS[a], g) == Returned(files, c, HOSTS[a], g)
  {
    var h := HOSTS[a];
    var r := g[|To(files, h)|..];
    if c.closed && BeforeQuery(r).Some? {
      var back := From(h) + BeforeQuery(r).value;
      assert On(back, a);
      if Cached(files, back, a) {
        CachedAtHome(files, back, a, a);
      }
    }
  }

  /** A cached address is not lent by hosts the cache is not on. */
  lemma CachedNotLent(files: string, c: Context, g: string, a: nat, m: nat, b: nat)
    requires Fit(files) && Cached(files, g, a) && m <= b <= |HOSTS| && forall i: nat :: m <= i < b ==> !On(files, i)
    ensures Lending(files, c, m, b, g) == g
  {
    forall i | m <= i < b ensures !On(g, i) {
      if On(g, i) {
        CachedAtHome(files, g, a, i);
      }
    }
    LendingQuiet(files, c, m, b, g);
  }

  /** A returned address is no other host's at the cache. */
  lemma ReturnedStays(files: string, c: Context, g: string, a: nat, m: nat)
    requires Fit(files) && On(g, a) && !On(files, a) && m <= |HOSTS|
    ensures Backing(files, c, m, |HOSTS|, g) == g
  {
    forall i | m <= i < |HOSTS| ensures !Cached(files, g, i) {
      if Cached(files, g, i) {
        CachedAtHome(files, g, i, a);
      }
    }
    BackingQuiet(files, c, m, |HOSTS|, g);
  }

  lemma CachedReturns(files: string, c: Context, g: string, a: nat)
    requires Fit(files) && c.active && Cached(files, g, a) && !On(files, a)
    ensures Backing(files, c, 0, |HOSTS|, g) == Returned(files, c, HOSTS[a], g)
  {
    BackingAt(files, c, a, g);
    BackOnce(files, c, a, g);
    ReturnedStays(files, c, Returned(files, c, HOSTS[a], g), a, a + 1);
  }

  lemma AwayExactIff(files: string, c: Context, f: string, a: nat)
    requires Fit(files) && Possible(c) && Quoteless(f) && c.active && On(f, a)
    requires forall k: nat :: On(files, k) ==> k < a
    ensures Through(files, ALL, c, f) == f <==> QueryOk(c, f[|From(HOSTS[a])|..])
  {
    var g := Lent(files, c, HOSTS[a], f);
    AllIs(files, c, f);
    LendingAt(files, c, a, |HOSTS|, f);
    LendOnce(files, c, a, f);
    LentReturns(files, c, HOSTS[a], f);
    CachedNotLent(files, c, g, a, a + 1, |HOSTS|);
    CachedReturns(files, c, g, a);
  }

  /** A field on no listed host. */
  lemma OtherExactIff(files: string, c: Context, f: string)
    requires Fit(files) && c.active && forall a: nat :: !On(f, a)
    ensures Through(files, ALL, c, f) == f <==> forall a: nat :: !Cached(files, f, a)
  {
    AllIs(files, c, f);
    LendingQuiet(files, c, 0, |HOSTS|, f);
    if a: nat :| Cached(files, f, a) {
      if On(files, a) {
        HomeIsOn(files, f, a, a);
      }
      CachedReturns(files, c, f, a);
      assert On(Returned(files, c, HOSTS[a], f), a);
    } else {
      BackingQuiet(files, c, 0, |HOSTS|, f);
    }
  }

  // ---- the cache is on a later host -------------------------------------------------------------

  lemma BackBothHome(files: string, c: Context, g: string, b: nat, k: nat)
    requires On(g, b) && k < |HOSTS|
    ensures var g' := BackBoth(files, c, HOSTS[k], g); On(g', b) || On(g', k)
  {
  }

  /** The hand-back never leaves the hosts from the m-th on. */
  lemma {:induction false} BackingHome(files: string, c: Context, g: string, m: nat, n: nat) returns (b: nat)
    requires On(g, m) && m <= n <= |HOSTS|
    ensures m <= b && On(Backing(files, c, m, n, g), b)
    decreases n
  {
    b := m;
    if m < n {
      var k := n - 1;
      var before := BackingHome(files, c, g, m, k);
      BackingNext(files, c, m, k, g);
      BackBothHome(files, c, Backing(files, c, m, k, g), before, k);
      b := if On(Backing(files, c, m, n, g), before) then before else k;
    } else {
      assert HOSTS[m..m] == [];
    }
  }

  lemma LendBothCached(files: string, c: Context, m: nat, g: string)
    requires c.active && On(g, m) && On(files, m)
    ensures Cached(files, LendBoth(files, c, HOSTS[m], g), m)
  {
    assert From(HOSTS[m]) <= files <= To(files, HOSTS[m]);
  }

  /** An address lent for one host and then, because the cache is on a later one, again. */
  lemma LentAgain(files: string, c: Context, f: string, a: nat, m: nat)
    requires Fit(files) && c.active && On(f, a) && On(files, m) && a < m
    ensures Cached(files, Lending(files, c, 0, |HOSTS|, f), m)
  {
    var g := Lent(files, c, HOSTS[a], f);
    forall i: nat | On(files, i) ensures i == m {
      OneHost(files, i, m);
    }
    LendingAt(files, c, a, m, f);
    LendOnce(files, c, a, f);
    assert Cached(files, g, a);
    CachedNotLent(files, c, g, a, a + 1, m);
    HomeIsOn(files, g, a, m);
    LendingSplits(files, c, 0, m + 1, |HOSTS|, f);
    LendingNext(files, c, 0, m, f);
    LendBothCached(files, c, m, g);
    CachedNotLent(files, c, LendBoth(files, c, HOSTS[m], g), m, m + 1, |HOSTS|);
  }

  lemma EarlierNeverReturns(files: string, c: Context, f: string, a: nat, m: nat)
    requires Fit(files) && c.active && On(f, a) && On(files, m) && a < m
    ensures Through(files, ALL, c, f) != f
  {
    AllIs(files, c, f);
    var g := Lending(files, c, 0, |HOSTS|, f);
    LentAgain(files, c, f, a, m);
    BackingSplits(files, c, 0, m, |HOSTS|, g);
    forall i | 0 <= i < m ensures !Cached(files, g, i) {
      if Cached(files, g, i) {
        OneCached(files, g, i, m);
      }
    }
    BackingQuiet(files, c, 0, m, g);
    HomeIsOn(files, g, m, m);
    var b := BackingHome(files, c, g, m, |HOSTS|);
    if Through(files, ALL, c, f) == f {
      OneHost(f, a, b);
    }
  }

  // ---- the cache is on the same host --------------------------------------------------------------

  predicate Shrinks(f: string, g: string, changed: bool) {
    if changed then |g| < |f| else g == f
  }

  lemma BackBothShrinks(files: string, c: Context, h: string, f: string)
    requires c.active && |files| > 8
    ensures Shrinks(f, BackBoth(files, c, h, f), To(files, h) <= f)
  {
  }

  ghost predicate AtCache(files: string, hosts: seq<string>, f: string) {
    exists i :: 0 <= i < |hosts| && To(files, hosts[i]) <= f
  }

  lemma AtCacheNext(files: string, hosts: seq<string>, f: string)
    requires hosts != []
    ensures var n := |hosts| - 1;
      AtCache(files, hosts, f) <==> AtCache(files, hosts[..n], f) || To(files, hosts[n]) <= f
  {
    var n := |hosts| - 1;
    if AtCache(files, hosts[..n], f) {
      var i :| 0 <= i < n && To(files, hosts[..n][i]) <= f;
      assert To(files, hosts[i]) <= f;
    }
    if i :| 0 <= i < |hosts| && To(files, hosts[i]) <= f {
      assert i < n ==> To(files, hosts[..n][i]) <= f;
    }
  }

  lemma ShrinksOn(f: string, g: string, g': string, changed: bool, also: bool, later: bool)
    requires Shrinks(f, g, changed) && Shrinks(g, g', later) && (g == f ==> later == also)
    ensures Shrinks(f, g', changed || also)
  {
  }

  /** Handing back only shortens, and whatever is at the cache does not stay. */
  lemma {:induction false} BackShrinks(files: string, hosts: seq<string>, c: Context, f: string)
    requires c.active && |files| > 8
    ensures Shrinks(f, Through(files, BackPasses(hosts), c, f), AtCache(files, hosts, f))
  {
    if hosts != [] {
      var n := |hosts| - 1;
      var before := Through(files, BackPasses(hosts[..n]), c, f);
      BackShrinks(files, hosts[..n], c, f);
      ThroughTwo(files, BackPasses(hosts[..n]), BackH(hosts[n]), BackP(hosts[n]), c, f);
      BackBothShrinks(files, c, hosts[n], before);
      AtCacheNext(files, hosts, f);
      ShrinksOn(f, before, BackBoth(files, c, hosts[n], before),
                AtCache(files, hosts[..n], f), To(files, hosts[n]) <= f, To(files, hosts[n]) <= before);
    }
  }

  /** At the cache for a host after the a-th. */
  ghost predicate CachedLater(files: string, f: string, a: nat) {
    exists i: nat :: a < i && Cached(files, f, i)
  }

  lemma LaterIsAt(files: string, f: string, a: nat)
    requires a < |HOSTS|
    ensures AtCache(files, HOSTS[a + 1..|HOSTS|], f) <==> CachedLater(files, f, a)
  {
    var hosts := HOSTS[a + 1..|HOSTS|];
    if AtCache(files, hosts, f) {
      var k :| 0 <= k < |hosts| && To(files, hosts[k]) <= f;
      assert Cached(files, f, a + 1 + k);
    }
    if CachedLater(files, f, a) {
      var i: nat :| a < i && Cached(files, f, i);
      assert hosts[i - a - 1] == HOSTS[i];
    }
  }

  lemma ShrinkDecides(f: string, back: string, g: string, changed: bool)
    requires back == f || |back| < |f|
    requires Shrinks(back, g, changed)
    ensures g == f <==> back == f && !changed
  {
  }

  /** What is left to the hosts after the a-th. */
  lemma LaterDecides(files: string, c: Context, f: string, a: nat, back: string)
    requires c.active && |files| > 8 && a < |HOSTS| && (back == f || |back| < |f|)
    ensures Backing(files, c, a + 1, |HOSTS|, back) == f <==> back == f && !CachedLater(files, f, a)
  {
    var hosts := HOSTS[a + 1..|HOSTS|];
    BackShrinks(files, hosts, c, back);
    LaterIsAt(files, back, a);
    ShrinkDecides(f, back, Backing(files, c, a + 1, |HOSTS|, back), AtCache(files, hosts, back));
  }

  /** The rest of the cache's address for its own host. */
  function HomeRest(files: string, a: nat): string
    requires On(files, a)
  {
    files[|From(HOSTS[a])|..] + (HOSTS[a] + "/")
  }

  lemma InBoth(x: string, y: string, ch: char)
    ensures ch in x + y <==> ch in x || ch in y
  {
    if i :| 0 <= i < |x| && x[i] == ch {
      assert (x + y)[i] == ch;
    }
    if i :| 0 <= i < |y| && y[i] == ch {
      assert (x + y)[|x| + i] == ch;
    }
  }

  lemma RestMarks(h: string, rest: string, tail: string)
    requires '?' !in From(h) && '?' !in tail
    ensures '?' in rest + tail <==> '?' in From(h) + rest
  {
    InBoth(From(h), rest, '?');
    InBoth(rest, tail, '?');
  }

  lemma QuotelessParts(x: string, y: string, z: string)
    requires Quoteless(x + y) && Quoteless(z)
    ensures Quoteless(y + z)
  {
    forall i | 0 <= i < |y| ensures y[i] != '"' {
      assert y[i] == (x + y)[|x| + i];
    }
  }

  lemma HomeParts(files: string, h: string, rest: string)
    requires HostName(h) && files == From(h) + rest && Quoteless(files)
    ensures var s := rest + (h + "/");
      To(files, h) == From(h) + s && Quoteless(s) && ('?' in s <==> '?' in files)
  {
    FromChars(h);
    assert '?' !in h + "/" && Quoteless(h + "/");
    RestMarks(h, rest, h + "/");
    QuotelessParts(From(h), rest, h + "/");
  }

  lemma HomeRestIs(files: string, a: nat)
    requires Fit(files) && On(files, a)
    ensures To(files, HOSTS[a]) == From(HOSTS[a]) + HomeRest(files, a)
    ensures Quoteless(HomeRest(files, a)) && ('?' in HomeRest(files, a) <==> '?' in files) && |files| > 8
  {
    HostFacts(HOSTS[a]);
    HomeParts(files, HOSTS[a], files[|From(HOSTS[a])|..]);
  }

  /** Lent at home without a hash. */
  lemma HomePlain(files: string, c: Context, f: string, a: nat)
    requires Fit(files) && c.active && c.hash.None? && On(f, a) && On(files, a)
    ensures var r, back := f[|From(HOSTS[a])|..], BackBoth(files, c, HOSTS[a], LendBoth(files, c, HOSTS[a], f));
      if QueryOk(c, r) then back == f else |back| < |f|
  {
    var h := HOSTS[a];
    var r := f[|From(h)|..];
    HomeRestIs(files, a);
    assert f == From(h) + r;
    var g := To(files, h) + r;
    assert g[|To(files, h)|..] == r;
    if !QueryOk(c, r) {
      BeforeShorter(r);
    }
  }

  /** Lent at home with a hash: first by the hash's command, then by the plain one, for what
      the first wrote is on the host too. */
  lemma HomeTwice(files: string, c: Context, h: string, r: string, s: string, q: string)
    requires c.active && c.hash.Some? && q == QUERY + c.hash.value && To(files, h) == From(h) + s
    ensures LendBoth(files, c, h, From(h) + r) == To(files, h) + (s + r + q)
  {
    assert (From(h) + r)[|From(h)|..] == r;
    var once := To(files, h) + r + QUERY + c.hash.value;
    assert once == From(h) + (s + r + q);
    assert once[|From(h)|..] == s + r + q;
  }

  lemma HomeBack(files: string, c: Context, h: string, r: string, s: string, q: string)
    requires c.active && c.closed && To(files, h) == From(h) + s
    requires BeforeQuery(s + r + q) == Some(s + r) || BeforeQuery(s + r + q).None?
    ensures BackBoth(files, c, h, To(files, h) + (s + r + q)) ==
      if BeforeQuery(s + r + q).Some? then From(h) + r else To(files, h) + (r + q)
  {
    var twice := To(files, h) + (s + r + q);
    assert twice[|To(files, h)|..] == s + r + q;
    if BeforeQuery(s + r + q).Some? {
      assert From(h) + (s + r) == To(files, h) + r;
      assert (To(files, h) + r)[|To(files, h)|..] == r;
    } else {
      assert From(h) + (s + r + q) == To(files, h) + (r + q);
    }
  }

  lemma HomeHashed(files: string, c: Context, f: string, a: nat)
    requires Fit(files) && Possible(c) && Quoteless(f) && c.active && c.hash.Some? && On(f, a) && On(files, a)
    ensures var h := HOSTS[a];
      var r, q := f[|From(h)|..], QUERY + c.hash.value;
      BackBoth(files, c, h, LendBoth(files, c, h, f)) ==
        if '?' !in r && '?' !in files then f else To(files, h) + (r + q)
  {
    var h := HOSTS[a];
    var r, q, s := f[|From(h)|..], QUERY + c.hash.value, HomeRest(files, a);
    HomeRestIs(files, a);
    assert f == From(h) + r;
    HomeTwice(files, c, h, r, s, q);
    assert s + r + q == (s + r) + (QUERY + c.hash.value);
    if '?' !in r && '?' !in files {
      QueryComesOff(s + r, c.hash.value);
    } else {
      QueryStays(s + r, c.hash.value);
    }
    HomeBack(files, c, h, r, s, q);
  }

  /** What the cache's own host lends is taken back by its own commands, and then by those of
      later hosts if it was at the cache for one of them. */
  lemma HomeThrough(files: string, c: Context, f: string, a: nat)
    requires Fit(files) && c.active && On(f, a) && On(files, a)
    ensures Through(files, ALL, c, f) ==
      Backing(files, c, a + 1, |HOSTS|, BackBoth(files, c, HOSTS[a], LendBoth(files, c, HOSTS[a], f)))
  {
    var g := LendBoth(files, c, HOSTS[a], f);
    AllIs(files, c, f);
    LendingAt(files, c, a, |HOSTS|, f);
    LendBothCached(files, c, a, f);
    forall i: nat | On(files, i) ensures i == a {
      OneHost(files, i, a);
    }
    CachedNotLent(files, c, g, a, a + 1, |HOSTS|);
    BackingAt(files, c, a, g);
  }

  lemma HomeStays(files: string, c: Context, g: string, a: nat)
    requires Cached(files, g, a)
    ensures Backing(files, c, a + 1, |HOSTS|, g) == g
  {
    forall i: nat | a < i < |HOSTS| ensures !Cached(files, g, i) {
      if Cached(files, g, i) {
        OneCached(files, g, a, i);
      }
    }
    BackingQuiet(files, c, a + 1, |HOSTS|, g);
  }

  lemma HomePlainIff(files: string, c: Context, f: string, a: nat)
    requires Fit(files) && c.active && c.hash.None? && On(f, a) && On(files, a)
    ensures Through(files, ALL, c, f) == f <==> QueryOk(c, f[|From(HOSTS[a])|..]) && !CachedLater(files, f, a)
  {
    HomeThrough(files, c, f, a);
    HomePlain(files, c, f, a);
    HomeRestIs(files, a);
    LaterDecides(files, c, f, a, BackBoth(files, c, HOSTS[a], LendBoth(files, c, HOSTS[a], f)));
  }

  lemma HomeHashedIff(files: string, c: Context, f: string, a: nat)
    requires Fit(files) && Possible(c) && Quoteless(f) && c.active && c.hash.Some? && On(f, a) && On(files, a)
    ensures Through(files, ALL, c, f) == f <==>
      '?' !in f[|From(HOSTS[a])|..] && '?' !in files && !CachedLater(files, f, a)
  {
    var r := f[|From(HOSTS[a])|..];
    HomeThrough(files, c, f, a);
    HomeHashed(files, c, f, a);
    HomeRestIs(files, a);
    if '?' !in r && '?' !in files {
      LaterDecides(files, c, f, a, f);
    } else {
      LongerStays(files, c, f, a, To(files, HOSTS[a]) + (r + (QUERY + c.hash.value)));
    }
  }

  lemma LongerStays(files: string, c: Context, f: string, a: nat, g: string)
    requires Cached(files, g, a) && |g| > |f|
    ensures Backing(files, c, a + 1, |HOSTS|, g) != f
  {
    HomeStays(files, c, g, a);
  }

  lemma HomeExactIff(files: string, c: Context, f: string, a: nat)
    requires Fit(files) && Possible(c) && Quoteless(f) && c.active && On(f, a) && On(files, a)
    ensures Through(files, ALL, c, f) == f <==> HostComesBack(files, c, f, a)
  {
    forall i: nat | On(files, i) ensures i <= a {
      OneHost(files, i, a);
    }
    if c.hash.None? {
      HomePlainIff(files, c, f, a);
    } else {
      HomeHashedIff(files, c, f, a);
    }
  }

  /** Lending all hosts and handing all back leaves a field as it was exactly when it is
      clean. */
  lemma FieldExactIff(files: string, c: Context, f: string)
    requires Fit(files) && Possible(c) && Quoteless(f)
    ensures Through(files, ALL, c, f) == f <==> Clean(files, c, f)
  {
    if !c.active {
      InactiveThrough(files, ALL, c, f);
    } else if a: nat :| On(f, a) {
      forall b: nat | On(f, b) ensures a == b {
        OneHost(f, a, b);
      }
      HostExactIff(files, c, f, a);
    } else {
      OtherExactIff(files, c, f);
    }
  }

  lemma HostExactIff(files: string, c: Context, f: string, a: nat)
    requires Fit(files) && Possible(c) && Quoteless(f) && c.active && On(f, a)
    ensures Through(files, ALL, c, f) == f <==> HostComesBack(files, c, f, a)
  {
    if k: nat :| On(files, k) {
      forall i: nat | On(files, i) ensures i == k {
        OneHost(files, i, k);
      }
      if a < k {
        EarlierNeverReturns(files, c, f, a, k);
      } else if a == k {
        HomeExactIff(files, c, f, a);
      } else {
        AwayExactIff(files, c, f, a);
      }
    } else {
      AwayExactIff(files, c, f, a);
    }
  }

  // ---- a clean address on its way ------------------------------------------------------------------

  lemma {:induction false} PassesAt(hosts: seq<string>, i: nat)
    requires i < |hosts|
    ensures |LendPasses(hosts)| == |BackPasses(hosts)| == 2 * |hosts|
    ensures LendPasses(hosts)[2 * i] == LendH(hosts[i]) && LendPasses(hosts)[2 * i + 1] == LendP(hosts[i])
    ensures BackPasses(hosts)[2 * i] == BackH(hosts[i]) && BackPasses(hosts)[2 * i + 1] == BackP(hosts[i])
    decreases |hosts|
  {
    var n := |hosts| - 1;
    if n > 0 {
      PassesAt(hosts[..n], if i < n then i else 0);
    } else {
      assert hosts[..0] == [];
    }
  }

  /** The k-th host's commands are at these places. */
  predicate Turn(all: seq<Pass>, k: nat)
    requires |all| == 4 * |HOSTS| && k < |HOSTS|
  {
    var n := 2 * |HOSTS| + 2 * k;
    && all[2 * k] == LendH(HOSTS[k]) && all[2 * k + 1] == LendP(HOSTS[k])
    && all[n] == BackH(HOSTS[k]) && all[n + 1] == BackP(HOSTS[k])
  }

  ghost predicate InTurn(all: seq<Pass>) {
    |all| == 4 * |HOSTS| && forall k: nat :: k < |HOSTS| ==> Turn(all, k)
  }

  lemma AllInTurn()
    ensures InTurn(ALL)
  {
    PassesAt(HOSTS, 0);
    forall k: nat | k < |HOSTS| ensures Turn(ALL, k) {
      PassesAt(HOSTS, k);
    }
  }

  /** The address of h, or the cache's in its place. */
  predicate AsLent(files: string, h: string, f: string, g: string)
    requires From(h) <= f
  {
    g == f || g == To(files, h) + f[|From(h)|..]
  }

  /** A clean address without a hash is at the cache from its host's turn to lend to its host's
      turn to take back. */
  function Stage(files: string, f: string, a: nat, n: nat): string
    requires On(f, a)
  {
    if 2 * a + 2 <= n <= 2 * |HOSTS| + 2 * a + 1 then To(files, HOSTS[a]) + f[|From(HOSTS[a])|..] else f
  }

  lemma LendStage(files: string, c: Context, f: string, a: nat, k: nat)
    requires Fit(files) && c.active && c.hash.None? && On(f, a) && HostComesBack(files, c, f, a) && k < |HOSTS|
    ensures Rewrite(files, LendH(HOSTS[k]), c, Stage(files, f, a, 2 * k)) == Stage(files, f, a, 2 * k + 1)
    ensures Rewrite(files, LendP(HOSTS[k]), c, Stage(files, f, a, 2 * k + 1)) == Stage(files, f, a, 2 * k + 2)
  {
    var g := Stage(files, f, a, 2 * k + 1);
    if k <= a {
      if On(f, k) {
        OneHost(f, a, k);
      }
    } else if On(g, k) {
      assert Cached(files, g, a);
      CachedAtHome(files, g, a, k);
      assert false;
    }
  }

  lemma BackStage(files: string, c: Context, f: string, a: nat, k: nat)
    requires Fit(files) && c.active && c.hash.None? && On(f, a) && HostComesBack(files, c, f, a) && k < |HOSTS|
    ensures var n := 2 * |HOSTS| + 2 * k;
      && Rewrite(files, BackH(HOSTS[k]), c, Stage(files, f, a, n)) == Stage(files, f, a, n + 1)
      && Rewrite(files, BackP(HOSTS[k]), c, Stage(files, f, a, n + 1)) == Stage(files, f, a, n + 2)
  {
    var g := Stage(files, f, a, 2 * |HOSTS| + 2 * k);
    var r := f[|From(HOSTS[a])|..];
    assert f == From(HOSTS[a]) + r;
    if k <= a {
      assert Cached(files, g, a) && g[|To(files, HOSTS[a])|..] == r;
      if Cached(files, g, k) {
        OneCached(files, g, a, k);
      }
    } else if Cached(files, f, k) {
      CachedAtHome(files, f, k, a);
      assert false;
    }
  }

  lemma LendTurn(files: string, p: Pass, c: Context, f: string, a: nat, k: nat, n: nat)
    requires Fit(files) && c.active && c.hash.None? && On(f, a) && HostComesBack(files, c, f, a) && k < |HOSTS|
    requires (n == 2 * k && p == LendH(HOSTS[k])) || (n == 2 * k + 1 && p == LendP(HOSTS[k]))
    ensures Rewrite(files, p, c, Stage(files, f, a, n)) == Stage(files, f, a, n + 1)
  {
    LendStage(files, c, f, a, k);
  }

  lemma BackTurn(files: string, p: Pass, c: Context, f: string, a: nat, k: nat, n: nat)
    requires Fit(files) && c.active && c.hash.None? && On(f, a) && HostComesBack(files, c, f, a) && k < |HOSTS|
    requires
      || (n == 2 * |HOSTS| + 2 * k && p == BackH(HOSTS[k]))
      || (n == 2 * |HOSTS| + 2 * k + 1 && p == BackP(HOSTS[k]))
    ensures Rewrite(files, p, c, Stage(files, f, a, n)) == Stage(files, f, a, n + 1)
  {
    BackStage(files, c, f, a, k);
  }

  /** Whose turn it is. */
  lemma WhoseTurn(all: seq<Pass>, n: nat) returns (k: nat)
    requires InTurn(all) && n < |all|
    ensures k < |HOSTS|
    ensures n < 2 * |HOSTS| ==>
      (n == 2 * k && all[n] == LendH(HOSTS[k])) || (n == 2 * k + 1 && all[n] == LendP(HOSTS[k]))
    ensures n >= 2 * |HOSTS| ==>
      || (n == 2 * |HOSTS| + 2 * k && all[n] == BackH(HOSTS[k]))
      || (n == 2 * |HOSTS| + 2 * k + 1 && all[n] == BackP(HOSTS[k]))
  {
    k := if n < 2 * |HOSTS| then n / 2 else (n - 2 * |HOSTS|) / 2;
    assert Turn(all, k);
  }

  lemma StageStep(files: string, all: seq<Pass>, c: Context, f: string, a: nat, n: nat)
    requires Fit(files) && c.active && c.hash.None? && On(f, a) && HostComesBack(files, c, f, a)
    requires InTurn(all) && n < |all|
    ensures Rewrite(files, all[n], c, Stage(files, f, a, n)) == Stage(files, f, a, n + 1)
  {
    var k := WhoseTurn(all, n);
    if n < 2 * |HOSTS| {
      LendTurn(files, all[n], c, f, a, k, n);
    } else {
      BackTurn(files, all[n], c, f, a, k, n);
    }
  }

  lemma {:induction false} ThroughStages(files: string, all: seq<Pass>, c: Context, f: string, a: nat, n: nat)
    requires Fit(files) && c.active && c.hash.None? && On(f, a) && HostComesBack(files, c, f, a)
    requires InTurn(all) && n <= |all|
    ensures Through(files, all[..n], c, f) == Stage(files, f, a, n)
  {
    if n > 0 {
      ThroughStages(files, all, c, f, a, n - 1);
      StageStep(files, all, c, f, a, n - 1);
      assert all[..n][..n - 1] == all[..n - 1];
    }
  }

  /** At any point, a clean address without a hash is as it was or as the cache's. */
  lemma ThroughAsLent(files: string, all: seq<Pass>, c: Context, f: string, a: nat, n: nat)
    requires Fit(files) && c.active && c.hash.None? && Clean(files, c, f) && On(f, a)
    requires InTurn(all) && n <= |all|
    ensures AsLent(files, HOSTS[a], f, Through(files, all[..n], c, f))
  {
    ThroughStages(files, all, c, f, a, n);
  }
}
