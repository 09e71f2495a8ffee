/** Lending a uv.lock's files to the cache and handing them back: when the lock comes back byte
    for byte. */
module UvLock {
  import opened Types
  import opened Sed
  import opened UvScripts
  import opened UvFields
  import opened UvPasses
  import opened UvHosts

  predicate Listed(p: Pass) {
    p.host in HOSTS
  }

  ghost predicate AllListed(passes: seq<Pass>) {
    forall i :: 0 <= i < |passes| ==> Listed(passes[i])
  }

  // ---- the fields of a line, together -------------------------------------------------------------

  function FieldsAfter(files: string, passes: seq<Pass>, fs: seq<string>): (gs: seq<string>)
    ensures |gs| == |fs|
  {
    if passes == [] then fs
    else PassFields(files, passes[|passes| - 1], FieldsAfter(files, passes[..|passes| - 1], fs))
  }

  ghost predicate IsAddress(files: string, f: string) {
    exists a: nat :: On(f, a) || Cached(files, f, a)
  }

  lemma RewriteAddress(files: string, p: Pass, c: Context, f: string)
    requires Listed(p)
    ensures !IsAddress(files, f) ==> Rewrite(files, p, c, f) == f
    ensures IsAddress(files, f) ==> IsAddress(files, Rewrite(files, p, c, f))
  {
    var g := Rewrite(files, p, c, f);
    if g != f {
      var a :| 0 <= a < |HOSTS| && HOSTS[a] == p.host;
      assert On(f, a) || Cached(files, f, a);
      assert On(g, a) || Cached(files, g, a);
    }
  }

  lemma {:induction false} ThroughAddress(files: string, passes: seq<Pass>, c: Context, f: string)
    requires AllListed(passes)
    requires !IsAddress(files, f)
    ensures Through(files, passes, c, f) == f
  {
    if passes != [] {
      ThroughAddress(files, passes[..|passes| - 1], c, f);
      RewriteAddress(files, passes[|passes| - 1], c, f);
    }
  }

  /** A field that is no address never changes, and one that is stays one. */
  lemma {:induction false} AddressesStay(files: string, passes: seq<Pass>, fs: seq<string>, j: nat)
    requires AllListed(passes) && j < |fs|
    ensures var g := FieldsAfter(files, passes, fs)[j];
      if IsAddress(files, fs[j]) then IsAddress(files, g) else g == fs[j]
  {
    if passes != [] {
      var n := |passes| - 1;
      AddressesStay(files, passes[..n], fs, j);
      var gs := FieldsAfter(files, passes[..n], fs);
      PassAt(files, passes[n], gs, j);
      RewriteAddress(files, passes[n], ContextAt(gs, j), gs[j]);
    }
  }

  lemma NoSlashNoAddress(files: string, s: string)
    requires !HasSlash(s)
    ensures !IsAddress(files, s)
  {
    forall a: nat | a < |HOSTS| ensures !On(s, a) && !Cached(files, s, a) {
      var h := HOSTS[a];
      assert From(h)[|From(h)| - 1] == '/' && To(files, h)[|To(files, h)| - 1] == '/';
      NoAddressIn(From(h), s);
      NoAddressIn(To(files, h), s);
    }
  }

  predicate IsSha(s: string) {
    SHA <= s && AllHex(s[|SHA|..])
  }

  lemma ShaNoAddress(files: string, s: string)
    requires IsSha(s)
    ensures !IsAddress(files, s)
  {
    assert s == SHA + s[|SHA|..];
    HashHasNoSlash(s[|SHA|..]);
    NoSlashNoAddress(files, s);
  }

  /** What stands behind a field as its hash stays what it is. */
  lemma HashStays(files: string, passes: seq<Pass>, fs: seq<string>, j: nat)
    requires AllListed(passes) && j < |fs|
    ensures ContextAt(FieldsAfter(files, passes, fs), j).hash == ContextAt(fs, j).hash
    ensures ContextAt(FieldsAfter(files, passes, fs), j).closed == ContextAt(fs, j).closed
  {
    var gs := FieldsAfter(files, passes, fs);
    if j + 3 < |fs| {
      HashHasNoSlash("");
      NoSlashNoAddress(files, HASH);
      AddressesStay(files, passes, fs, j + 1);
      AddressesStay(files, passes, fs, j + 2);
      if IsSha(fs[j + 2]) {
        ShaNoAddress(files, fs[j + 2]);
      }
      if IsSha(gs[j + 2]) {
        ShaNoAddress(files, gs[j + 2]);
      }
    }
  }

  lemma AsLentEnds(files: string, h: string, f: string, g: string)
    requires From(h) <= f && AsLent(files, h, f, g)
    ensures EndsUrl(g) <==> EndsUrl(f)
  {
    AddressEnds(files, LendP(h));
    assert f == From(h) + f[|From(h)|..];
    EndsUrlPast(From(h), f[|From(h)|..]);
    EndsUrlPast(To(files, h), f[|From(h)|..]);
  }

  ghost predicate CleanBefore(files: string, fs: seq<string>, j: nat)
    requires j <= |fs|
  {
    forall i :: 0 <= i < j ==> Clean(files, ContextAt(fs, i), fs[i])
  }

  /** All the commands, each host's in its turn. */
  ghost predicate Commanded(all: seq<Pass>) {
    InTurn(all) && AllListed(all)
  }

  ghost predicate GoesAlone(files: string, all: seq<Pass>, n: nat, fs: seq<string>, j: nat)
    requires n <= |all| && j < |fs|
  {
    FieldsAfter(files, all[..n], fs)[j] == Through(files, all[..n], ContextAt(fs, j), fs[j])
  }

  lemma NoAddressAlone(files: string, all: seq<Pass>, n: nat, fs: seq<string>, j: nat)
    requires Commanded(all) && n <= |all| && j < |fs| && !IsAddress(files, fs[j])
    ensures GoesAlone(files, all, n, fs, j)
  {
    AddressesStay(files, all[..n], fs, j);
    ThroughAddress(files, all[..n], ContextAt(fs, j), fs[j]);
  }

  lemma OnePassMore(files: string, all: seq<Pass>, n: nat, fs: seq<string>, j: nat)
    requires Commanded(all) && n < |all| && j < |fs| && GoesAlone(files, all, n, fs, j)
    requires ContextAt(FieldsAfter(files, all[..n], fs), j) == ContextAt(fs, j)
    ensures GoesAlone(files, all, n + 1, fs, j)
  {
    var passes := all[..n + 1];
    assert passes[..|passes| - 1] == all[..n];
    LastPass(files, passes, fs, j);
  }

  lemma LastPass(files: string, passes: seq<Pass>, fs: seq<string>, j: nat)
    requires passes != [] && j < |fs|
    requires var before := passes[..|passes| - 1];
      && FieldsAfter(files, before, fs)[j] == Through(files, before, ContextAt(fs, j), fs[j])
      && ContextAt(FieldsAfter(files, before, fs), j) == ContextAt(fs, j)
    ensures FieldsAfter(files, passes, fs)[j] == Through(files, passes, ContextAt(fs, j), fs[j])
  {
    PassAt(files, passes[|passes| - 1], FieldsAfter(files, passes[..|passes| - 1], fs), j);
  }

  lemma ContextStays(files: string, all: seq<Pass>, n: nat, fs: seq<string>, j: nat)
    requires Fit(files) && Commanded(all) && n <= |all|
    requires j < |fs| && CleanBefore(files, fs, j) && IsAddress(files, fs[j])
    requires j > 0 ==> GoesAlone(files, all, n, fs, j - 1)
    ensures ContextAt(FieldsAfter(files, all[..n], fs), j) == ContextAt(fs, j)
  {
    HashStays(files, all[..n], fs, j);
    if j > 0 {
      EndStays(files, all, n, fs, j);
    }
  }

  lemma EndStays(files: string, all: seq<Pass>, n: nat, fs: seq<string>, j: nat)
    requires Fit(files) && Commanded(all) && n <= |all|
    requires 0 < j < |fs| && CleanBefore(files, fs, j) && IsAddress(files, fs[j])
    requires GoesAlone(files, all, n, fs, j - 1)
    ensures EndsUrl(FieldsAfter(files, all[..n], fs)[j - 1]) <==> EndsUrl(fs[j - 1])
  {
    var c, f := ContextAt(fs, j - 1), fs[j - 1];
    assert Clean(files, c, f);
    HashHasNoSlash("");
    NoSlashNoAddress(files, HASH);
    assert c.hash.None?;
    if !c.active {
      InactiveThrough(files, all[..n], c, f);
    } else if a: nat :| On(f, a) {
      ThroughAsLent(files, all, c, f, a, n);
      AsLentEnds(files, HOSTS[a], f, Through(files, all[..n], c, f));
    } else {
        ThroughAddress(files, all[..n], c, f);
    }
  }

  lemma AddressAlone(files: string, all: seq<Pass>, n: nat, fs: seq<string>, j: nat)
    requires Fit(files) && Commanded(all) && n < |all|
    requires j < |fs| && CleanBefore(files, fs, j) && IsAddress(files, fs[j])
    requires GoesAlone(files, all, n, fs, j) && (j > 0 ==> GoesAlone(files, all, n, fs, j - 1))
    ensures GoesAlone(files, all, n + 1, fs, j)
  {
    ContextStays(files, all, n, fs, j);
    OnePassMore(files, all, n, fs, j);
  }

  /** Behind clean fields, a field goes through the commands as if its surroundings never
      changed. */
  lemma {:induction false} FieldByField(files: string, all: seq<Pass>, n: nat, fs: seq<string>, j: nat)
    requires Fit(files) && Commanded(all) && n <= |all|
    requires j < |fs| && CleanBefore(files, fs, j)
    ensures GoesAlone(files, all, n, fs, j)
    decreases j, n
  {
    if !IsAddress(files, fs[j]) {
      NoAddressAlone(files, all, n, fs, j);
    } else if n > 0 {
      FieldByField(files, all, n - 1, fs, j);
      if j > 0 {
        FieldByField(files, all, n - 1, fs, j - 1);
      }
      AddressAlone(files, all, n - 1, fs, j);
    }
  }

  lemma ContextPossible(fs: seq<string>, j: nat)
    requires j < |fs|
    ensures Possible(ContextAt(fs, j))
  {
  }

  ghost predicate CleanLine(files: string, fs: seq<string>) {
    forall j :: 0 <= j < |fs| ==> Clean(files, ContextAt(fs, j), fs[j])
  }

  lemma {:induction false} PassesListed(hosts: seq<string>)
    requires forall h :: h in hosts ==> h in HOSTS
    ensures AllListed(LendPasses(hosts)) && AllListed(BackPasses(hosts))
  {
    if hosts != [] {
      var n := |hosts| - 1;
      assert hosts[n] in hosts;
      PassesListed(hosts[..n]);
    }
  }

  lemma FieldsExactIff(files: string, fs: seq<string>)
    requires Fit(files) && IsFields(fs)
    ensures FieldsAfter(files, ALL, fs) == fs <==> CleanLine(files, fs)
  {
    AllInTurn();
    PassesListed(HOSTS);
    assert ALL[..|ALL|] == ALL;
    if CleanLine(files, fs) {
      forall j | 0 <= j < |fs| ensures FieldsAfter(files, ALL, fs)[j] == fs[j] {
        FieldByField(files, ALL, |ALL|, fs, j);
        ContextPossible(fs, j);
        FieldExactIff(files, ContextAt(fs, j), fs[j]);
      }
    } else {
      var j := FirstDirty(files, fs, 0);
      FieldByField(files, ALL, |ALL|, fs, j);
      ContextPossible(fs, j);
      FieldExactIff(files, ContextAt(fs, j), fs[j]);
    }
  }

  lemma {:induction false} FirstDirty(files: string, fs: seq<string>, from: nat) returns (j: nat)
    requires from <= |fs| && CleanBefore(files, fs, from) && !CleanLine(files, fs)
    ensures j < |fs| && CleanBefore(files, fs, j) && !Clean(files, ContextAt(fs, j), fs[j])
    decreases |fs| - from
  {
    if from < |fs| && !Clean(files, ContextAt(fs, from), fs[from]) {
      j := from;
    } else {
      j := FirstDirty(files, fs, from + 1);
    }
  }

  // ---- lines and files ----------------------------------------------------------------------------

  /** No `source = ` in the cache's own address. */
  ghost predicate Tidy(files: string) {
    Fit(files) && !Contains(files, SOURCE)
  }

  lemma {:induction false} SourceInFields(fs: seq<string>)
    requires IsFields(fs)
    ensures Contains(JoinQ(fs), SOURCE) <==> exists j :: 0 <= j < |fs| && Contains(fs[j], SOURCE)
    decreases |fs|
  {
    if |fs| > 1 {
      SourceInFields(fs[1..]);
      ContainsAcross(fs[0], '"', JoinQ(fs[1..]), SOURCE);
      assert fs[0] + ['"'] + JoinQ(fs[1..]) == JoinQ(fs);
      if Contains(JoinQ(fs[1..]), SOURCE) {
        var j :| 0 <= j < |fs[1..]| && Contains(fs[1..][j], SOURCE);
        assert Contains(fs[j + 1], SOURCE);
      }
      if j :| 0 <= j < |fs| && Contains(fs[j], SOURCE) {
        if j > 0 {
          assert Contains(fs[1..][j - 1], SOURCE);
        }
      }
    }
  }

  lemma SourceHasSpace()
    ensures ' ' in SOURCE
  {
    assert SOURCE[6] == ' ';
  }

  lemma NoSpaceNoSource(s: string)
    requires ' ' !in s
    ensures !Contains(s, SOURCE)
  {
    SourceHasSpace();
    if Contains(s, SOURCE) {
      ContainsNeeds(s, SOURCE, ' ');
    }
  }

  /** An address and what follows it: only what follows can hold the word. */
  lemma AddressSource(files: string, h: string, r: string)
    requires Tidy(files) && h in HOSTS
    ensures Contains(From(h) + r, SOURCE) <==> Contains(r, SOURCE)
    ensures Contains(To(files, h) + r, SOURCE) <==> Contains(r, SOURCE)
  {
    HostFacts(h);
    assert ' ' !in h;
    ContainsAcross("https://" + h, '/', r, SOURCE);
    assert ' ' !in "https://" + h;
    NoSpaceNoSource("https://" + h);
    assert "https://" + h + ['/'] + r == From(h) + r;
    var head := files[..|files| - 1];
    assert files[|files| - 1] == SUFFIX[|SUFFIX| - 1] by {
      assert files[|files| - |SUFFIX|..][|SUFFIX| - 1] == files[|files| - 1];
    }
    assert files == head + ['/'];
    assert head + "/" == files;
    ContainsAround(head, ['/'], SOURCE);
    NoSpaceNoSource(h);
    ContainsAcross(head, '/', h, SOURCE);
    assert head + ['/'] + h == files + h;
    ContainsAcross(files + h, '/', r, SOURCE);
    assert files + h + ['/'] + r == To(files, h) + r;
  }

  lemma QuerySource(r: string, hex: string)
    requires AllHex(hex)
    ensures Contains(r + (QUERY + hex), SOURCE) <==> Contains(r, SOURCE)
  {
    assert QUERY == ['?'] + QUERY_REST;
    assert r + (QUERY + hex) == r + ['?'] + (QUERY_REST + hex);
    ContainsAcross(r, '?', QUERY_REST + hex, SOURCE);
    assert ' ' !in QUERY_REST + hex;
    NoSpaceNoSource(QUERY_REST + hex);
  }

  lemma LentNoSource(files: string, h: string, f: string, hex: string)
    requires Tidy(files) && h in HOSTS && AllHex(hex) && From(h) <= f && !Contains(f, SOURCE)
    ensures !Contains(To(files, h) + f[|From(h)|..] + QUERY + hex, SOURCE)
    ensures !Contains(To(files, h) + f[|From(h)|..], SOURCE)
  {
    var r := f[|From(h)|..];
    assert f == From(h) + r;
    AddressSource(files, h, r);
    QuerySource(r, hex);
    AddressSource(files, h, r + (QUERY + hex));
    assert To(files, h) + r + QUERY + hex == To(files, h) + (r + (QUERY + hex));
  }

  lemma BackNoSource(files: string, h: string, f: string)
    requires Tidy(files) && h in HOSTS && To(files, h) <= f && !Contains(f, SOURCE)
    ensures var r := f[|To(files, h)|..];
      && !Contains(From(h) + r, SOURCE)
      && (BeforeQuery(r).Some? ==> !Contains(From(h) + BeforeQuery(r).value, SOURCE))
  {
    var r := f[|To(files, h)|..];
    assert f == To(files, h) + r;
    AddressSource(files, h, r);
    if BeforeQuery(r).Some? {
      BeforeSource(r);
      AddressSource(files, h, BeforeQuery(r).value);
    }
  }

  /** A pass never brings `source = ` into a field. */
  lemma RewriteNoSource(files: string, p: Pass, c: Context, f: string)
    requires Tidy(files) && Listed(p) && Possible(c) && !Contains(f, SOURCE)
    ensures !Contains(Rewrite(files, p, c, f), SOURCE)
  {
    if From(p.host) <= f {
      LentNoSource(files, p.host, f, if c.hash.Some? then c.hash.value else "");
    }
    if To(files, p.host) <= f {
      BackNoSource(files, p.host, f);
    }
  }

  lemma BeforeSource(r: string)
    requires BeforeQuery(r).Some? && !Contains(r, SOURCE)
    ensures !Contains(BeforeQuery(r).value, SOURCE)
  {
    var n := Span(NOT_QUERY, r);
    assert r == r[..n] + r[n..];
    ContainsAround(r[..n], r[n..], SOURCE);
  }

  lemma RewriteQuoteless(files: string, p: Pass, c: Context, f: string)
    requires Fit(files) && Listed(p) && Possible(c) && Quoteless(f)
    ensures Quoteless(Rewrite(files, p, c, f))
  {
    HostFacts(p.host);
    FromChars(p.host);
    assert Quoteless(files);
    assert Quoteless(To(files, p.host));
    if c.hash.Some? {
      assert Quoteless(c.hash.value);
    }
  }

  ghost predicate Unsourced(fs: seq<string>) {
    forall j :: 0 <= j < |fs| ==> !Contains(fs[j], SOURCE)
  }

  lemma PassKeepsAt(files: string, p: Pass, gs: seq<string>, j: nat)
    requires Tidy(files) && Listed(p) && j < |gs| && Quoteless(gs[j]) && !Contains(gs[j], SOURCE)
    ensures Quoteless(PassFields(files, p, gs)[j]) && !Contains(PassFields(files, p, gs)[j], SOURCE)
  {
    PassAt(files, p, gs, j);
    ContextPossible(gs, j);
    RewriteQuoteless(files, p, ContextAt(gs, j), gs[j]);
    RewriteNoSource(files, p, ContextAt(gs, j), gs[j]);
  }

  lemma PassKeeps(files: string, p: Pass, gs: seq<string>)
    requires Tidy(files) && Listed(p) && IsFields(gs) && Unsourced(gs)
    ensures IsFields(PassFields(files, p, gs)) && Unsourced(PassFields(files, p, gs))
  {
    forall j | 0 <= j < |gs|
      ensures Quoteless(PassFields(files, p, gs)[j]) && !Contains(PassFields(files, p, gs)[j], SOURCE)
    {
      PassKeepsAt(files, p, gs, j);
    }
  }

  lemma {:induction false} FieldsAfterKeep(files: string, passes: seq<Pass>, fs: seq<string>)
    requires Tidy(files) && AllListed(passes)
    requires IsFields(fs) && Unsourced(fs)
    ensures IsFields(FieldsAfter(files, passes, fs)) && Unsourced(FieldsAfter(files, passes, fs))
  {
    if passes != [] {
      var n := |passes| - 1;
      FieldsAfterKeep(files, passes[..n], fs);
      PassKeeps(files, passes[n], FieldsAfter(files, passes[..n], fs));
    }
  }

  function Commands(files: string, passes: seq<Pass>): seq<Command> {
    seq(|passes|, i requires 0 <= i < |passes| => CommandOf(files, passes[i]))
  }

  lemma {:induction false} RunLineSnoc(cs: seq<Command>, c: Command, line: string)
    ensures RunLine(cs + [c], line) == Apply(c, RunLine(cs, line))
  {
    if cs == [] {
      assert cs + [c] == [c] && [c][1..] == [];
    } else {
      assert (cs + [c])[1..] == cs[1..] + [c];
      RunLineSnoc(cs[1..], c, Apply(cs[0], line));
    }
  }

  lemma {:induction false} RunLineAppend(a: seq<Command>, b: seq<Command>, line: string)
    ensures RunLine(a + b, line) == RunLine(b, RunLine(a, line))
  {
    if a == [] {
      assert a + b == b;
    } else {
      assert (a + b)[1..] == a[1..] + b;
      RunLineAppend(a[1..], b, Apply(a[0], line));
    }
  }

  /** sed runs the command on a line without `source = `, and so field by field. */
  lemma PassApplies(files: string, p: Pass, fs: seq<string>)
    requires Fit(files) && Listed(p) && IsFields(fs) && Unsourced(fs)
    ensures Apply(CommandOf(files, p), JoinQ(fs)) == JoinQ(PassFields(files, p, fs))
  {
    SourceInFields(fs);
    HostFacts(p.host);
    FromChars(p.host);
    assert Quoteless(p.host) && Quoteless(files);
    PassIsFieldwise(files, p, fs);
  }

  lemma CommandsSnoc(files: string, passes: seq<Pass>)
    requires passes != []
    ensures var n := |passes| - 1;
      Commands(files, passes) == Commands(files, passes[..n]) + [CommandOf(files, passes[n])]
  {
  }

  /** On a line without `source = `, sed does to the line what the passes do to its fields. */
  lemma {:induction false} LineByFields(files: string, passes: seq<Pass>, fs: seq<string>)
    requires Tidy(files) && AllListed(passes)
    requires IsFields(fs) && Unsourced(fs)
    ensures RunLine(Commands(files, passes), JoinQ(fs)) == JoinQ(FieldsAfter(files, passes, fs))
  {
    if passes != [] {
      var n := |passes| - 1;
      LineByFields(files, passes[..n], fs);
      FieldsAfterKeep(files, passes[..n], fs);
      CommandsSnoc(files, passes);
      RunLineSnoc(Commands(files, passes[..n]), CommandOf(files, passes[n]), JoinQ(fs));
      PassApplies(files, passes[n], FieldsAfter(files, passes[..n], fs));
    }
  }

  /** A line with `source = ` is left alone by every command. */
  lemma {:induction false} SourceLineStays(cs: seq<Command>, line: string)
    requires Contains(line, SOURCE) && forall i :: 0 <= i < |cs| ==> cs[i].guard == SOURCE
    ensures RunLine(cs, line) == line
  {
    if cs != [] {
      SourceLineStays(cs[1..], line);
    }
  }

  lemma {:induction false} CommandsAre(files: string, hosts: seq<string>)
    ensures Commands(files, LendPasses(hosts)) == LendCommands(files, hosts)
    ensures Commands(files, BackPasses(hosts)) == BackCommands(files, hosts)
  {
    if hosts != [] {
      CommandsAre(files, hosts[..|hosts| - 1]);
    }
  }

  lemma {:induction false} GuardsAre(files: string, passes: seq<Pass>)
    ensures forall i :: 0 <= i < |passes| ==> Commands(files, passes)[i].guard == SOURCE
  {
    forall i | 0 <= i < |passes| ensures CommandOf(files, passes[i]).guard == SOURCE {
      match passes[i]
      case LendH(_) => case LendP(_) => case BackH(_) => case BackP(_) =>
    }
  }

  /** No field of the line is an address that would be lent. */
  ghost predicate NoneToLend(fs: seq<string>) {
    forall j, a: nat :: 0 <= j < |fs| && ContextAt(fs, j).active ==> !On(fs[j], a)
  }

  /** A line that comes back: it holds `source = `, or every address in it is clean. If the
      cache's own address holds `source = `, every line lent to it is left there. */
  ghost predicate ComesBack(files: string, line: string) {
    || Contains(line, SOURCE)
    || (if Contains(files, SOURCE) then NoneToLend(SplitQ(line)) else CleanLine(files, SplitQ(line)))
  }

  /** Both sed calls on one line are one run of all the passes. */
  lemma BothRuns(files: string, line: string)
    ensures RunLine(BackCommands(files, HOSTS), RunLine(LendCommands(files, HOSTS), line)) ==
      RunLine(Commands(files, ALL), line)
  {
    CommandsAre(files, HOSTS);
    RunLineAppend(LendCommands(files, HOSTS), BackCommands(files, HOSTS), line);
    CommandsJoin(files, LendPasses(HOSTS), BackPasses(HOSTS));
  }

  lemma CommandsJoin(files: string, a: seq<Pass>, b: seq<Pass>)
    ensures Commands(files, a + b) == Commands(files, a) + Commands(files, b)
  {
  }

  lemma PlainLineExactIff(files: string, fs: seq<string>)
    requires Tidy(files) && IsFields(fs) && Unsourced(fs)
    ensures RunLine(Commands(files, ALL), JoinQ(fs)) == JoinQ(fs) <==> CleanLine(files, fs)
  {
    PassesListed(HOSTS);
    LineByFields(files, ALL, fs);
    FieldsAfterKeep(files, ALL, fs);
    FieldsExactIff(files, fs);
    SplitJoin(FieldsAfter(files, ALL, fs));
    SplitJoin(fs);
  }

  // ---- a cache whose own address holds `source = ` -------------------------------------------------

  lemma ToSourced(files: string, h: string, r: string)
    requires Contains(files, SOURCE)
    ensures Contains(To(files, h) + r, SOURCE)
  {
    assert To(files, h) + r == files + (h + "/" + r);
    ContainsAround(files, h + "/" + r, SOURCE);
  }

  lemma NotCached(files: string, h: string, f: string)
    requires Contains(files, SOURCE) && !Contains(f, SOURCE)
    ensures !(To(files, h) <= f)
  {
    if To(files, h) <= f {
      assert f == To(files, h) + f[|To(files, h)|..];
      ToSourced(files, h, f[|To(files, h)|..]);
      assert false;
    }
  }

  /** A field is left as it is, or lent and so marked. */
  lemma RewriteSourced(files: string, p: Pass, c: Context, f: string)
    requires Contains(files, SOURCE) && !Contains(f, SOURCE)
    ensures var g := Rewrite(files, p, c, f);
      && (g == f || (c.active && From(p.host) <= f && Contains(g, SOURCE)))
      && (p.LendP? && c.active && From(p.host) <= f ==> Contains(g, SOURCE))
  {
    var r := if From(p.host) <= f then f[|From(p.host)|..] else "";
    ToSourced(files, p.host, r);
    if c.hash.Some? {
      ToSourced(files, p.host, r + (QUERY + c.hash.value));
      assert To(files, p.host) + r + QUERY + c.hash.value == To(files, p.host) + (r + (QUERY + c.hash.value));
    }
    NotCached(files, p.host, f);
  }

  /** A line so far: as it was, or marked by what was lent. */
  ghost predicate Marked(fs: seq<string>, n: nat, after: string)
    requires fs != []
  {
    && (after == JoinQ(fs) || Contains(after, SOURCE))
    && (NoneToLend(fs) ==> after == JoinQ(fs))
    && forall j, a: nat ::
         0 <= j < |fs| && ContextAt(fs, j).active && On(fs[j], a) && 2 * a + 2 <= n ==> Contains(after, SOURCE)
  }

  ghost predicate FieldMarks(p: Pass, fs: seq<string>, gs: seq<string>, j: nat)
    requires j < |fs| == |gs|
  {
    var c := ContextAt(fs, j);
    && Quoteless(gs[j])
    && (gs[j] == fs[j] || (c.active && From(p.host) <= fs[j] && Contains(gs[j], SOURCE)))
    && (p.LendP? && c.active && From(p.host) <= fs[j] ==> Contains(gs[j], SOURCE))
  }

  lemma FieldMarksAt(files: string, p: Pass, fs: seq<string>, j: nat)
    requires Fit(files) && Contains(files, SOURCE) && Listed(p) && j < |fs|
    requires Quoteless(fs[j]) && !Contains(fs[j], SOURCE)
    ensures FieldMarks(p, fs, PassFields(files, p, fs), j)
  {
    PassAt(files, p, fs, j);
    ContextPossible(fs, j);
    RewriteQuoteless(files, p, ContextAt(fs, j), fs[j]);
    RewriteSourced(files, p, ContextAt(fs, j), fs[j]);
  }

  lemma ListedIsOn(p: Pass, f: string) returns (a: nat)
    requires Listed(p) && From(p.host) <= f
    ensures On(f, a)
  {
    a :| 0 <= a < |HOSTS| && HOSTS[a] == p.host;
  }

  ghost predicate AllMarks(p: Pass, fs: seq<string>, gs: seq<string>) {
    |gs| == |fs| && forall j :: 0 <= j < |fs| ==> FieldMarks(p, fs, gs, j)
  }

  lemma MarksDecide(p: Pass, fs: seq<string>, gs: seq<string>)
    requires Listed(p) && AllMarks(p, fs, gs)
    ensures gs == fs || ((exists j :: 0 <= j < |gs| && Contains(gs[j], SOURCE)) && !NoneToLend(fs))
  {
    if gs != fs {
      var j :| 0 <= j < |fs| && gs[j] != fs[j];
      assert FieldMarks(p, fs, gs, j);
      var a := ListedIsOn(p, fs[j]);
    }
  }

  /** The fields after one pass: as they were, or one of them marked. */
  lemma FieldsMark(files: string, p: Pass, fs: seq<string>) returns (gs: seq<string>)
    requires Fit(files) && Contains(files, SOURCE) && Listed(p) && IsFields(fs) && Unsourced(fs)
    ensures gs == PassFields(files, p, fs) && IsFields(gs) && AllMarks(p, fs, gs)
    ensures gs == fs || ((exists j :: 0 <= j < |gs| && Contains(gs[j], SOURCE)) && !NoneToLend(fs))
  {
    gs := PassFields(files, p, fs);
    forall j | 0 <= j < |fs| ensures FieldMarks(p, fs, gs, j) {
      FieldMarksAt(files, p, fs, j);
    }
    MarksDecide(p, fs, gs);
    forall j | 0 <= j < |gs| ensures Quoteless(gs[j]) {
      assert FieldMarks(p, fs, gs, j);
    }
  }

  /** One pass over an unmarked line. */
  lemma PassMarks(files: string, p: Pass, fs: seq<string>) returns (after: string)
    requires Fit(files) && Contains(files, SOURCE) && Listed(p) && IsFields(fs) && Unsourced(fs)
    ensures after == Apply(CommandOf(files, p), JoinQ(fs)) && (after == JoinQ(fs) || Contains(after, SOURCE))
    ensures NoneToLend(fs) ==> after == JoinQ(fs)
    ensures forall j :: 0 <= j < |fs| && p.LendP? && ContextAt(fs, j).active && From(p.host) <= fs[j] ==>
      Contains(after, SOURCE)
  {
    var gs := FieldsMark(files, p, fs);
    after := JoinQ(gs);
    SourceInFields(gs);
    PassApplies(files, p, fs);
    forall j | 0 <= j < |fs| && p.LendP? && ContextAt(fs, j).active && From(p.host) <= fs[j]
      ensures Contains(after, SOURCE)
    {
      assert FieldMarks(p, fs, gs, j);
    }
  }

  lemma MarkedOn(files: string, p: Pass, fs: seq<string>, n: nat, before: string, after: string)
    requires Fit(files) && Contains(files, SOURCE) && Listed(p) && IsFields(fs) && Unsourced(fs)
    requires Marked(fs, n, before) && after == Apply(CommandOf(files, p), before)
    requires CommandOf(files, p).guard == SOURCE
    requires forall a: nat :: a < |HOSTS| && n == 2 * a + 1 ==> p == LendP(HOSTS[a])
    ensures Marked(fs, n + 1, after)
  {
    if !Contains(before, SOURCE) {
      var marked := PassMarks(files, p, fs);
      forall j, a: nat | 0 <= j < |fs| && ContextAt(fs, j).active && On(fs[j], a) && 2 * a + 2 <= n + 1
        ensures Contains(after, SOURCE)
      {
        assert n == 2 * a + 1;
      }
    }
  }

  lemma {:induction false} RunMarks(files: string, all: seq<Pass>, fs: seq<string>, n: nat)
    requires Fit(files) && Contains(files, SOURCE) && IsFields(fs) && Unsourced(fs)
    requires AllListed(all) && InTurn(all) && n <= |all|
    ensures Marked(fs, n, RunLine(Commands(files, all[..n]), JoinQ(fs)))
  {
    if n > 0 {
      var k := n - 1;
      RunMarks(files, all, fs, k);
      GuardsAre(files, all);
      assert all[..n][..k] == all[..k];
      CommandsSnoc(files, all[..n]);
      RunLineSnoc(Commands(files, all[..k]), CommandOf(files, all[k]), JoinQ(fs));
      assert Commands(files, all)[k] == CommandOf(files, all[k]);
      forall a: nat | a < |HOSTS| && k == 2 * a + 1 ensures all[k] == LendP(HOSTS[a]) {
        assert Turn(all, a);
      }
      MarkedOn(files, all[k], fs, k, RunLine(Commands(files, all[..k]), JoinQ(fs)),
               RunLine(Commands(files, all[..n]), JoinQ(fs)));
    }
  }

  lemma SourcedBaseIff(files: string, fs: seq<string>)
    requires Fit(files) && Contains(files, SOURCE) && IsFields(fs) && Unsourced(fs)
    ensures RunLine(Commands(files, ALL), JoinQ(fs)) == JoinQ(fs) <==> NoneToLend(fs)
  {
    PassesListed(HOSTS);
    AllInTurn();
    RunMarks(files, ALL, fs, |ALL|);
    assert ALL[..|ALL|] == ALL;
    SourceInFields(fs);
  }

  // ---- the lock ------------------------------------------------------------------------------------

  lemma LineExactIff(files: string, line: string)
    requires Fit(files)
    ensures RunLine(BackCommands(files, HOSTS), RunLine(LendCommands(files, HOSTS), line)) == line <==>
      ComesBack(files, line)
  {
    BothRuns(files, line);
    if Contains(line, SOURCE) {
      GuardsAre(files, ALL);
      SourceLineStays(Commands(files, ALL), line);
    } else {
      JoinSplit(line);
      SourceInFields(SplitQ(line));
      if Contains(files, SOURCE) {
        SourcedBaseIff(files, SplitQ(line));
      } else {
        PlainLineExactIff(files, SplitQ(line));
      }
    }
  }

  /** A lock that is lent to the cache and handed back is the lock it was, byte for byte, if
      and only if each of its lines comes back. */
  lemma HandBackIsExactIff(files: string, lines: seq<string>)
    requires Fit(files)
    ensures Run(BackCommands(files, HOSTS), Run(LendCommands(files, HOSTS), lines)) == lines <==>
      forall i :: 0 <= i < |lines| ==> ComesBack(files, lines[i])
  {
    var there := Run(LendCommands(files, HOSTS), lines);
    var back := Run(BackCommands(files, HOSTS), there);
    forall i | 0 <= i < |lines| ensures back[i] == lines[i] <==> ComesBack(files, lines[i]) {
      LineExactIff(files, lines[i]);
    }
    if forall i :: 0 <= i < |lines| ==> ComesBack(files, lines[i]) {
      assert back == lines;
    } else {
      var i :| 0 <= i < |lines| && !ComesBack(files, lines[i]);
      assert back[i] != lines[i];
    }
  }

  /** A line with `source = ` is the same before, while lent and after. */
  lemma SourceLinesNeverChange(files: string, lines: seq<string>, i: nat)
    requires i < |lines| && Contains(lines[i], SOURCE)
    ensures Run(LendCommands(files, HOSTS), lines)[i] == lines[i]
    ensures Run(BackCommands(files, HOSTS), lines)[i] == lines[i]
  {
    CommandsAre(files, HOSTS);
    GuardsAre(files, LendPasses(HOSTS));
    GuardsAre(files, BackPasses(HOSTS));
    SourceLineStays(LendCommands(files, HOSTS), lines[i]);
    SourceLineStays(BackCommands(files, HOSTS), lines[i]);
  }

  /** No address at the cache already, and no query in an address of a listed host. */
  ghost predicate Ordinary(files: string, fs: seq<string>) {
    forall j, a: nat :: 0 <= j < |fs| && ContextAt(fs, j).active ==>
      !Cached(files, fs[j], a) && (On(fs[j], a) ==> '?' !in fs[j])
  }

  /** If the cache is on a listed host: no address on an earlier one, and if the cache's own
      address has a query, none with a hash on the same one. */
  ghost predicate KeptClear(files: string, fs: seq<string>) {
    forall j, a: nat, k: nat :: 0 <= j < |fs| && ContextAt(fs, j).active && On(fs[j], a) && On(files, k) ==>
      k < a || (k == a && (ContextAt(fs, j).hash.Some? ==> '?' !in files))
  }

  /** A lock that a package index serves plainly comes back if and only if each of its lines is
      kept clear of the cache's own host; always, if the cache is on none of the listed hosts. */
  lemma OrdinaryLockComesBackIff(files: string, lines: seq<string>)
    requires Fit(files)
    requires forall i :: 0 <= i < |lines| ==> Contains(lines[i], SOURCE) || Ordinary(files, SplitQ(lines[i]))
    ensures Run(BackCommands(files, HOSTS), Run(LendCommands(files, HOSTS), lines)) == lines <==>
      forall i :: 0 <= i < |lines| ==>
        || Contains(lines[i], SOURCE)
        || (if Contains(files, SOURCE) then NoneToLend(SplitQ(lines[i])) else KeptClear(files, SplitQ(lines[i])))
  {
    forall i | 0 <= i < |lines| && !Contains(lines[i], SOURCE)
      ensures CleanLine(files, SplitQ(lines[i])) <==> KeptClear(files, SplitQ(lines[i]))
    {
      OrdinaryIsClean(files, SplitQ(lines[i]));
    }
    HandBackIsExactIff(files, lines);
  }

  lemma QuerylessTail(h: string, f: string)
    requires From(h) <= f && '?' !in f
    ensures '?' !in f[|From(h)|..] && BeforeQuery(f[|From(h)|..]).None?
  {
    var r := f[|From(h)|..];
    assert f == From(h) + r;
    if BeforeQuery(r).Some? {
      BeforeShorter(r);
    }
  }

  /** Of an ordinary address, only where the cache is matters. */
  lemma OrdinaryHost(files: string, c: Context, f: string, a: nat)
    requires On(f, a) && '?' !in f && forall k: nat :: !Cached(files, f, k)
    ensures HostComesBack(files, c, f, a) <==>
      forall k: nat :: On(files, k) ==> k < a || (k == a && (c.hash.Some? ==> '?' !in files))
  {
    QuerylessTail(HOSTS[a], f);
  }

  lemma OrdinaryField(files: string, c: Context, f: string)
    requires c.active && forall a: nat :: !Cached(files, f, a) && (On(f, a) ==> '?' !in f)
    ensures Clean(files, c, f) <==>
      forall a: nat, k: nat :: On(f, a) && On(files, k) ==> k < a || (k == a && (c.hash.Some? ==> '?' !in files))
  {
    if a: nat :| On(f, a) {
      forall b: nat | On(f, b) ensures b == a {
        OneHost(f, a, b);
      }
      OrdinaryHost(files, c, f, a);
    }
  }

  lemma OrdinaryIsClean(files: string, fs: seq<string>)
    requires Ordinary(files, fs)
    ensures CleanLine(files, fs) <==> KeptClear(files, fs)
  {
    forall j | 0 <= j < |fs| && ContextAt(fs, j).active
      ensures Clean(files, ContextAt(fs, j), fs[j]) <==>
        forall a: nat, k: nat :: On(fs[j], a) && On(files, k) ==>
          k < a || (k == a && (ContextAt(fs, j).hash.Some? ==> '?' !in files))
    {
      OrdinaryField(files, ContextAt(fs, j), fs[j]);
    }
  }

  // ---- a cache on a listed host ---------------------------------------------------------------------

  /** https://flashinfer.ai/p/pypi/+files/ */
  function LaterBase(): string {
    From(HOSTS[4]) + ("p/pypi/" + SUFFIX)
  }

  /** url = "https://files.pythonhosted.org/a/b.whl", hash = "sha256:ab12", size = 1 */
  function EarlierFile(): seq<string> {
    [URL, From(HOSTS[0]) + "a/b.whl", HASH, SHA + "ab12", ", size = 1"]
  }

  lemma NoSource(s: string, ch: char)
    requires ch in SOURCE && ch !in s
    ensures !Contains(s, SOURCE)
  {
    if Contains(s, SOURCE) {
      ContainsNeeds(s, SOURCE, ch);
    }
  }

  lemma LaterBaseIsFit()
    ensures Fit(LaterBase()) && On(LaterBase(), 4)
  {
    var h, tail := HOSTS[4], "p/pypi/" + SUFFIX;
    HostFacts(h);
    HostNameIsPlain(h);
    assert PlainForSed("https://") && PlainForSed(tail);
    assert tail[7..] == SUFFIX;
    var files := LaterBase();
    assert files[|files| - 7..] == SUFFIX;
  }

  lemma EarlierFields()
    ensures IsFields(EarlierFile()) && Unsourced(EarlierFile())
  {
    var fs := EarlierFile();
    HostFacts(HOSTS[0]);
    FromChars(HOSTS[0]);
    SourceHasSpace();
    assert SOURCE[1] == 'o' && SOURCE[2] == 'u';
    NoSource(URL, 'o');
    NoSource(fs[1], ' ');
    NoSource(HASH, 'u');
    NoSource(fs[3], ' ');
    NoSource(fs[4], 'o');
  }

  lemma EarlierContext()
    ensures ContextAt(EarlierFile(), 1).active && On(EarlierFile()[1], 0)
  {
    assert URL[0..] == URL;
  }

  /** A cache on flashinfer.ai: a file on files.pythonhosted.org, lent to it, is lent again by
      the later host's commands and does not come back. */
  lemma LentTwice()
    ensures Fit(LaterBase())
    ensures var line := JoinQ(EarlierFile());
      RunLine(BackCommands(LaterBase(), HOSTS), RunLine(LendCommands(LaterBase(), HOSTS), line)) != line
  {
    EarlierFields();
    EarlierContext();
    LaterBaseIsFit();
    EarlierIsLost(LaterBase(), EarlierFile(), 1, 0, 4);
  }

  /** So is every address on a host listed before the cache's own. */
  lemma EarlierIsLost(files: string, fs: seq<string>, j: nat, a: nat, k: nat)
    requires Fit(files) && IsFields(fs) && Unsourced(fs) && j < |fs| && ContextAt(fs, j).active
    requires On(fs[j], a) && On(files, k) && a < k
    ensures RunLine(BackCommands(files, HOSTS), RunLine(LendCommands(files, HOSTS), JoinQ(fs))) != JoinQ(fs)
  {
    LineExactIff(files, JoinQ(fs));
    SplitJoin(fs);
    SourceInFields(fs);
    assert !HostComesBack(files, ContextAt(fs, j), fs[j], a);
    assert !Clean(files, ContextAt(fs, j), fs[j]);
  }
}
