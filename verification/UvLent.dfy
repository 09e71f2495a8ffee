/** A uv.lock while it is lent: whose addresses are the cache's, and what they are. */
module UvLent {
  import opened Types
  import opened Sed
  import opened UvScripts
  import opened UvFields
  import opened UvPasses
  import opened UvHosts
  import opened UvLock

  const LISTED: set<string> := {
    "files.pythonhosted.org", "download.pytorch.org", "download-r2.pytorch.org", "pypi.nvidia.com", "flashinfer.ai"}

  predicate Hosted(f: string, host: string) {
    "https://" + host + "/" <= f
  }

  /** The cache's address for the same host and path, with the hash that stands beside it as a
      query; anything but such an address is left as it is. */
  ghost predicate FieldLent(files: string, c: Context, f: string, g: string) {
    && (forall host :: host in LISTED && c.active && Hosted(f, host) ==>
          g == files + host + "/" + f[9 + |host|..] + if c.hash.Some? then "?sha256=" + c.hash.value else "")
    && ((forall host :: host in LISTED ==> !c.active || !Hosted(f, host)) ==> g == f)
  }

  /** The cache is on none of the listed hosts. */
  ghost predicate Away(files: string) {
    forall k: nat :: !On(files, k)
  }

  lemma ListedIsHosts(host: string)
    requires host in LISTED
    ensures exists a: nat :: a < |HOSTS| && HOSTS[a] == host
  {
    assert HOSTS[0] == "files.pythonhosted.org" && HOSTS[1] == "download.pytorch.org";
    assert HOSTS[2] == "download-r2.pytorch.org" && HOSTS[3] == "pypi.nvidia.com" && HOSTS[4] == "flashinfer.ai";
  }

  lemma HostsAreListed(a: nat)
    requires a < |HOSTS|
    ensures HOSTS[a] in LISTED
  {
  }

  lemma HostedIsOn(f: string, a: nat)
    requires a < |HOSTS|
    ensures Hosted(f, HOSTS[a]) <==> On(f, a)
    ensures |From(HOSTS[a])| == 9 + |HOSTS[a]|
  {
  }

  /** One address, its host's turn come and gone. */
  lemma AddressLent(files: string, c: Context, f: string, a: nat)
    requires Fit(files) && Away(files) && c.active && On(f, a)
    ensures Lending(files, c, 0, |HOSTS|, f) == Lent(files, c, HOSTS[a], f)
  {
    LendingAt(files, c, a, |HOSTS|, f);
    LendOnce(files, c, a, f);
    CachedNotLent(files, c, Lent(files, c, HOSTS[a], f), a, a + 1, |HOSTS|);
  }

  lemma LendingIsLent(files: string, c: Context, f: string)
    requires Fit(files) && Away(files)
    ensures FieldLent(files, c, f, Lending(files, c, 0, |HOSTS|, f))
  {
    var g := Lending(files, c, 0, |HOSTS|, f);
    assert HOSTS[0..|HOSTS|] == HOSTS;
    if !c.active {
      InactiveThrough(files, LendPasses(HOSTS), c, f);
    } else if a: nat :| On(f, a) {
      AddressLent(files, c, f, a);
      HostsAreListed(a);
      HostedIsOn(f, a);
      forall host | host in LISTED && Hosted(f, host)
        ensures host == HOSTS[a]
      {
        ListedIsHosts(host);
        var b: nat :| b < |HOSTS| && HOSTS[b] == host;
        HostedIsOn(f, b);
        OneHost(f, a, b);
      }
      LentText(files, c, HOSTS[a], f);
    } else {
      LendingQuiet(files, c, 0, |HOSTS|, f);
      forall host | host in LISTED ensures !Hosted(f, host) {
        ListedIsHosts(host);
        var b: nat :| b < |HOSTS| && HOSTS[b] == host;
        HostedIsOn(f, b);
      }
    }
  }

  lemma LentText(files: string, c: Context, host: string, f: string)
    requires From(host) <= f
    ensures Lent(files, c, host, f) ==
      files + host + "/" + f[9 + |host|..] + if c.hash.Some? then "?sha256=" + c.hash.value else ""
  {
    assert |From(host)| == 9 + |host|;
    assert To(files, host) == files + host + "/";
  }

  lemma LendPassesFirst()
    ensures |ALL| == 4 * |HOSTS| && ALL[..2 * |HOSTS|] == LendPasses(HOSTS)
  {
    PassesAt(HOSTS, 0);
  }

  /** A line of a lock, lent to a cache that is on no listed host, is the line with its addresses
      on listed hosts made the cache's, hash and all, and nothing else changed. */
  lemma LentLine(files: string, fs: seq<string>) returns (gs: seq<string>)
    requires Tidy(files) && Away(files) && IsFields(fs) && Unsourced(fs) && CleanLine(files, fs)
    ensures |gs| == |fs| && RunLine(LendCommands(files, HOSTS), JoinQ(fs)) == JoinQ(gs)
    ensures forall j :: 0 <= j < |fs| ==> FieldLent(files, ContextAt(fs, j), fs[j], gs[j])
  {
    gs := FieldsAfter(files, LendPasses(HOSTS), fs);
    PassesListed(HOSTS);
    CommandsAre(files, HOSTS);
    LineByFields(files, LendPasses(HOSTS), fs);
    AllInTurn();
    LendPassesFirst();
    assert HOSTS[0..|HOSTS|] == HOSTS;
    forall j | 0 <= j < |fs| ensures FieldLent(files, ContextAt(fs, j), fs[j], gs[j]) {
      FieldByField(files, ALL, 2 * |HOSTS|, fs, j);
      LendingIsLent(files, ContextAt(fs, j), fs[j]);
    }
  }
}
