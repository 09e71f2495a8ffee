/** A sed command rewrites a line exactly as Rewrite says, each address field on its own. */
module UvPasses {
  import opened Types
  import opened Sed
  import opened UvScripts
  import opened UvFields

  // ---- texts that end a field -------------------------------------------------------------------

  /** The text ends in a character that `url = ` does not have. */
  predicate EndsOutside(s: string) {
    s != [] && s[|s| - 1] !in URL
  }

  predicate EndsPast(s: string) {
    s != [] && s[|s| - 1] != ' '
  }

  lemma EndsUrlLast(s: string)
    requires EndsUrl(s)
    ensures s[|s| - 1] == ' '
  {
    assert s[|s| - 6..][5] == s[|s| - 1];
  }

  lemma EndsPastNotUrl(s: string)
    requires EndsPast(s)
    ensures !EndsUrl(s)
  {
    if EndsUrl(s) {
      EndsUrlLast(s);
    }
  }

  /** Behind such a text, a field ends with `url = ` on its own account or not at all. */
  lemma EndsUrlPast(x: string, r: string)
    requires EndsOutside(x)
    ensures EndsUrl(x + r) <==> EndsUrl(r)
  {
    var f := x + r;
    if |r| >= 6 {
      assert f[|f| - 6..] == r[|r| - 6..];
    } else if EndsUrl(f) {
      PastNeeds(x, r);
    }
  }

  lemma PastNeeds(x: string, r: string)
    requires x != [] && |r| < 6 && EndsUrl(x + r)
    ensures x[|x| - 1] in URL
  {
    var f := x + r;
    assert f[|f| - 6..][5 - |r|] == x[|x| - 1];
  }

  lemma AllHexLast(s: string, hex: string)
    requires EndsPast(s) && AllHex(hex)
    ensures EndsPast(s + hex)
  {
    if hex != [] {
      assert (s + hex)[|s + hex| - 1] == hex[|hex| - 1];
    } else {
      assert s + hex == s;
    }
  }

  /** The lent part of a host's URL starts with `https://` or with the cache's address; both end
      in a slash. */
  lemma AddressEnds(files: string, p: Pass)
    ensures EndsOutside(Address(files, p)) && EndsOutside(From(p.host)) && EndsOutside(To(files, p.host))
  {
    assert From(p.host)[|From(p.host)| - 1] == '/';
    assert To(files, p.host)[|To(files, p.host)| - 1] == '/';
  }

  /** A slash is in every address, and in neither what separates an address from its hash nor
      the hash. */
  predicate HasSlash(s: string) {
    '/' in s
  }

  lemma SlashCarries(x: string, s: string)
    requires HasSlash(x) && x <= s
    ensures HasSlash(s)
  {
    var i :| 0 <= i < |x| && x[i] == '/';
    assert s[i] == '/';
  }

  lemma NoAddressIn(x: string, s: string)
    requires HasSlash(x) && !HasSlash(s)
    ensures !(x <= s)
  {
    if x <= s {
      SlashCarries(x, s);
    }
  }

  lemma HashHasNoSlash(hex: string)
    requires AllHex(hex)
    ensures !HasSlash(HASH) && !HasSlash(SHA + hex)
  {
    forall i | 0 <= i < |SHA + hex| ensures (SHA + hex)[i] != '/' {
      if i >= |SHA| {
        assert (SHA + hex)[i] == hex[i - |SHA|];
      }
    }
  }

  // ---- the lists of fields --------------------------------------------------------------------

  lemma ContextShift(fs: seq<string>, k: nat, j: nat)
    requires k < j < |fs|
    ensures ContextAt(fs, j) == ContextAt(fs[k..], j - k)
  {
    var gs := fs[k..];
    assert forall i :: 0 <= i < |gs| ==> gs[i] == fs[k + i];
  }

  lemma PassAt(files: string, p: Pass, fs: seq<string>, j: nat)
    requires j < |fs|
    ensures PassFields(files, p, fs)[j] == Rewrite(files, p, ContextAt(fs, j), fs[j])
  {
  }

  lemma PassShift(files: string, p: Pass, fs: seq<string>, k: nat, j: nat)
    requires k < j < |fs|
    ensures PassFields(files, p, fs)[j] == PassFields(files, p, fs[k..])[j - k]
  {
    ContextShift(fs, k, j);
    PassAt(files, p, fs, j);
    PassAt(files, p, fs[k..], j - k);
    SameRewrite(files, p, ContextAt(fs, j), ContextAt(fs[k..], j - k), fs[j], fs[k..][j - k]);
  }

  lemma SameRewrite(files: string, p: Pass, c: Context, c': Context, f: string, f': string)
    requires c == c' && f == f'
    ensures Rewrite(files, p, c, f) == Rewrite(files, p, c', f')
  {
  }

  /** Past its first k fields, a list is rewritten as the rest of it is, if the first of the
      rest is left alone. */
  lemma PassSplit(files: string, p: Pass, fs: seq<string>, k: nat)
    requires 0 < k < |fs| && PassFields(files, p, fs)[k] == fs[k]
    ensures PassFields(files, p, fs) == PassFields(files, p, fs)[..k] + PassFields(files, p, fs[k..])
  {
    var all, rest := PassFields(files, p, fs), PassFields(files, p, fs[k..]);
    forall j | k <= j < |fs| ensures all[j] == rest[j - k] {
      if j > k {
        PassShift(files, p, fs, k, j);
      }
    }
  }

  lemma {:induction false} JoinConcat(a: seq<string>, b: seq<string>)
    requires a != [] && b != []
    ensures JoinQ(a + b) == JoinQ(a) + ("\"" + JoinQ(b))
    decreases |a|
  {
    assert (a + b)[1..] == a[1..] + b;
    if |a| > 1 {
      JoinConcat(a[1..], b);
      assert a[0] + ("\"" + (JoinQ(a[1..]) + ("\"" + JoinQ(b)))) == a[0] + ("\"" + JoinQ(a[1..])) + ("\"" + JoinQ(b));
    }
  }

  /** The address field after `url = ` changes exactly when the command matches there. */
  lemma RewriteAtHit(files: string, p: Pass, fs: seq<string>)
    requires |fs| > 1
    ensures !EndsUrl(fs[0]) || HitAt(files, p, fs[1..]).None? ==> PassFields(files, p, fs)[1] == fs[1]
  {
    var gs := fs[1..];
    assert forall i :: 0 <= i < |gs| ==> gs[i] == fs[i + 1];
  }

  lemma CopyField(c: Command, f: string, t: string)
    requires NoMatchIn(c, f, "\"" + t) && Misses(c, ['"'] + t)
    ensures Substitute(c, f + ("\"" + t)) == f + ("\"" + Substitute(c, t))
  {
    SubstituteSkips(c, f, "\"" + t);
    SubstituteOne(c, '"', t);
  }

  /** One step of the scan that finds nothing: the first field is copied. */
  lemma MissStep(files: string, p: Pass, fs: seq<string>)
    requires IsFields(fs) && |fs| > 1 && Quoteless(files) && Quoteless(p.host)
    requires !EndsUrl(fs[0]) || HitAt(files, p, fs[1..]).None?
    ensures Substitute(CommandOf(files, p), JoinQ(fs)) ==
      fs[0] + ("\"" + Substitute(CommandOf(files, p), JoinQ(fs[1..])))
  {
    var t := JoinQ(fs[1..]);
    MissSkips(files, p, fs);
    QuoteNotUrl(t);
    MissWithoutUrl(files, p, ['"'] + t);
    CopyFirst(CommandOf(files, p), fs);
  }

  lemma CopyFirst(c: Command, fs: seq<string>)
    requires |fs| > 1 && NoMatchIn(c, fs[0], "\"" + JoinQ(fs[1..])) && Misses(c, ['"'] + JoinQ(fs[1..]))
    ensures Substitute(c, JoinQ(fs)) == fs[0] + ("\"" + Substitute(c, JoinQ(fs[1..])))
  {
    CopyField(c, fs[0], JoinQ(fs[1..]));
  }

  lemma QuoteNotUrl(t: string)
    ensures !(OPEN <= ['"'] + t)
  {
    assert (['"'] + t)[0] == '"' && OPEN[0] == 'u';
  }

  lemma MissSkips(files: string, p: Pass, fs: seq<string>)
    requires IsFields(fs) && |fs| > 1 && Quoteless(files) && Quoteless(p.host)
    requires !EndsUrl(fs[0]) || HitAt(files, p, fs[1..]).None?
    ensures NoMatchIn(CommandOf(files, p), fs[0], "\"" + JoinQ(fs[1..]))
  {
    var t := JoinQ(fs[1..]);
    if EndsUrl(fs[0]) {
      AllScan(files, p, fs[1..]);
      assert URL + ("\"" + t) == OPEN + t;
    }
    SkipField(files, p, fs[0], "\"" + t);
  }

  lemma MissFields(files: string, p: Pass, fs: seq<string>)
    requires |fs| > 1
    requires !EndsUrl(fs[0]) || HitAt(files, p, fs[1..]).None?
    ensures PassFields(files, p, fs) == [fs[0]] + PassFields(files, p, fs[1..])
  {
    RewriteAtHit(files, p, fs);
    PassSplit(files, p, fs, 1);
    assert PassFields(files, p, fs)[..1] == [fs[0]];
  }

  /** One step of the scan that finds a match at the end of the first field. */
  lemma HitStep(files: string, p: Pass, fs: seq<string>)
    requires IsFields(fs) && |fs| > 1 && Quoteless(files) && Quoteless(p.host)
    requires EndsUrl(fs[0]) && HitAt(files, p, fs[1..]).Some?
    ensures var hit := HitAt(files, p, fs[1..]).value;
      Substitute(CommandOf(files, p), JoinQ(fs)) ==
      fs[0][..|fs[0]| - 6] + (hit.written + Substitute(CommandOf(files, p), JoinQ(hit.rest)))
  {
    var c, t := CommandOf(files, p), JoinQ(fs[1..]);
    var a := fs[0][..|fs[0]| - 6];
    AllScan(files, p, fs[1..]);
    SkipBefore(files, p, a, OPEN + t);
    UrlApart(fs[0], t);
    SubstituteSkips(c, a, OPEN + t);
  }

  lemma UrlApart(f: string, t: string)
    requires EndsUrl(f)
    ensures f + ("\"" + t) == f[..|f| - 6] + (OPEN + t)
  {
    assert f == f[..|f| - 6] + URL;
  }

  /** The rest of a line after an address is rewritten as if the address were not there. */
  lemma AfterAddress(files: string, p: Pass, from: string, gs: seq<string>)
    requires gs != [] && from <= gs[0] && EndsOutside(from)
    ensures var rest := [gs[0][|from|..]] + gs[1..];
      PassFields(files, p, rest) == [gs[0][|from|..]] + PassFields(files, p, gs)[1..]
  {
    var rest := [gs[0][|from|..]] + gs[1..];
    var a, b := PassFields(files, p, rest), [gs[0][|from|..]] + PassFields(files, p, gs)[1..];
    assert |a| == |b| && a[0] == b[0];
    forall j | 1 <= j < |gs| ensures a[j] == b[j] {
      AfterAddressAt(gs, from, j);
      PassAt(files, p, rest, j);
      PassAt(files, p, gs, j);
    }
  }

  lemma AfterAddressAt(gs: seq<string>, from: string, j: nat)
    requires gs != [] && from <= gs[0] && EndsOutside(from) && 1 <= j < |gs|
    ensures var rest := [gs[0][|from|..]] + gs[1..];
      rest[j] == gs[j] && ContextAt(rest, j) == ContextAt(gs, j)
  {
    var rest := [gs[0][|from|..]] + gs[1..];
    assert gs[0] == from + rest[0];
    EndsUrlPast(from, rest[0]);
    assert forall i :: 1 <= i < |gs| ==> rest[i] == gs[i];
  }

  /** The fields that follow the first, in a list whose first field stays. */
  lemma PassTail(files: string, p: Pass, fs: seq<string>)
    requires |fs| > 1
    ensures forall j :: 2 <= j < |fs| ==> PassFields(files, p, fs)[j] == PassFields(files, p, fs[1..])[j - 1]
  {
    forall j | 2 <= j < |fs| ensures PassFields(files, p, fs)[j] == PassFields(files, p, fs[1..])[j - 1] {
      PassShift(files, p, fs, 1, j);
    }
  }

  // ---- the two kinds of hit ---------------------------------------------------------------------

  /** A command that replaced an address only: the scan goes on within the field. */
  lemma PlainHitFields(files: string, p: Pass, fs: seq<string>, from: string, to: string)
    requires |fs| > 1 && EndsUrl(fs[0]) && EndsOutside(from) && from <= fs[1]
    requires PassFields(files, p, fs)[1] == to + fs[1][|from|..]
    ensures var rest := [fs[1][|from|..]] + fs[2..];
      JoinQ(PassFields(files, p, fs)) == fs[0] + ("\"" + (to + JoinQ(PassFields(files, p, rest))))
  {
    var gs, r := fs[1..], fs[1][|from|..];
    var all := PassFields(files, p, fs);
    assert gs[1..] == fs[2..];
    AfterAddress(files, p, from, gs);
    PassTail(files, p, fs);
    var tail := PassFields(files, p, gs)[1..];
    assert all == [fs[0]] + ([to + r] + tail);
    JoinPair(fs[0], [to + r] + tail);
    JoinPrefixed(to, r, tail);
  }

  lemma BackHitFields(files: string, h: string, fs: seq<string>)
    requires |fs| > 2 && EndsUrl(fs[0]) && HitAt(files, BackH(h), fs[1..]).Some?
    ensures var before := BeforeQuery(fs[1][|To(files, h)|..]).value;
      JoinQ(PassFields(files, BackH(h), fs)) ==
      fs[0] + ("\"" + (From(h) + before + ("\"" + JoinQ(PassFields(files, BackH(h), fs[2..])))))
  {
    var p := BackH(h);
    var r := fs[1][|To(files, h)|..];
    var before := BeforeQuery(r).value;
    var all := PassFields(files, p, fs);
    assert fs[1..][0] == fs[1];
    QueryEnds(r);
    assert fs[1] == To(files, h) + r;
    EndsUrlPast(To(files, h), r) by {
      AddressEnds(files, p);
    }
    EndsPastNotUrl(r);
    assert all[2] == fs[2];
    PassSplit(files, p, fs, 2);
    assert all[..2] == [fs[0], From(h) + before];
    JoinConcat([fs[0], From(h) + before], PassFields(files, p, fs[2..]));
    JoinPair(fs[0], [From(h) + before]);
    assert [fs[0], From(h) + before] == [fs[0]] + [From(h) + before];
  }

  lemma QueryEnds(r: string)
    requires BeforeQuery(r).Some?
    ensures EndsPast(r)
  {
    var n := Span(NOT_QUERY, r);
    CutAt(r, n, QUERY);
    var head := r[..n] + QUERY;
    assert head[|head| - 1] == QUERY[|QUERY| - 1] == '=';
    AllHexLast(r[..n] + QUERY, r[n + |QUERY|..]);
  }

  lemma CutAt(r: string, n: nat, q: string)
    requires n <= |r| && q <= r[n..]
    ensures n + |q| <= |r| && r == r[..n] + q + r[n + |q|..]
  {
  }

  /** The four fields of an address with its hash. */
  lemma LendFour(files: string, h: string, fs: seq<string>)
    requires |fs| > 4 && EndsUrl(fs[0]) && HitAt(files, LendH(h), fs[1..]).Some?
    ensures var r, hex, all := fs[1][|From(h)|..], HashAfter(fs[1..]).value, PassFields(files, LendH(h), fs);
      && fs[3] == SHA + hex
      && all[..4] == [fs[0], To(files, h) + r + QUERY + hex, HASH, SHA + hex] && all[4] == fs[4]
  {
    var p, gs := LendH(h), fs[1..];
    assert gs[0] == fs[1] && gs[1] == fs[2] && gs[2] == fs[3];
    var hex := HashAfter(gs).value;
    assert fs[2] == HASH && fs[3] == SHA + hex;
    assert ContextAt(fs, 1).hash == Some(hex);
    HashHasNoSlash(hex);
    assert HasSlash(From(h)) by {
      assert From(h)[|From(h)| - 1] == '/';
    }
    NoAddressIn(From(h), HASH);
    NoAddressIn(From(h), SHA + hex);
    AllHexLast(SHA, hex);
    EndsPastNotUrl(SHA + hex);
  }

  lemma LendHitFields(files: string, h: string, fs: seq<string>)
    requires |fs| > 4 && EndsUrl(fs[0]) && HitAt(files, LendH(h), fs[1..]).Some?
    ensures var r, hex := fs[1][|From(h)|..], HashAfter(fs[1..]).value;
      JoinQ(PassFields(files, LendH(h), fs)) ==
      fs[0] + ("\"" + (To(files, h) + r + QUERY + hex
        + (MID + hex + ("\"" + JoinQ(PassFields(files, LendH(h), fs[4..]))))))
  {
    var p := LendH(h);
    var lent := To(files, h) + fs[1][|From(h)|..] + QUERY + HashAfter(fs[1..]).value;
    LendFour(files, h, fs);
    PassSplit(files, p, fs, 4);
    JoinFive(fs[0], lent, HashAfter(fs[1..]).value, PassFields(files, p, fs[4..]));
  }

  lemma Associate(a: string, b: string, c: string, d: string, e: string, f: string)
    ensures a + (b + (c + (d + e + f))) == a + b + c + d + e + f
  {
  }

  lemma JoinFive(a: string, b: string, hex: string, rest: seq<string>)
    requires rest != []
    ensures JoinQ([a, b, HASH, SHA + hex] + rest) == a + ("\"" + (b + (MID + hex + ("\"" + JoinQ(rest)))))
  {
    var d := [SHA + hex] + rest;
    var c := [HASH] + d;
    JoinPair(SHA + hex, rest);
    JoinPair(HASH, d);
    JoinPair(b, c);
    JoinPair(a, [b] + c);
    assert [a, b, HASH, SHA + hex] + rest == [a] + ([b] + c);
    Associate("\"", HASH, "\"", SHA, hex, "\"" + JoinQ(rest));
  }

  // ---- the theorem --------------------------------------------------------------------------------

  lemma WholeHitJoin(a: string, f: string, middle: string, tail: string)
    requires EndsUrl(f) && a == f[..|f| - 6]
    ensures a + (OPEN + middle + tail) == f + ("\"" + (middle + tail))
  {
    assert f == a + URL;
  }

  /** Scanning a line for a command's pattern and rewriting its fields one by one come to the
      same line. */
  lemma {:induction false} PassIsFieldwise(files: string, p: Pass, fs: seq<string>)
    requires IsFields(fs) && Quoteless(files) && Quoteless(p.host)
    ensures Substitute(CommandOf(files, p), JoinQ(fs)) == JoinQ(PassFields(files, p, fs))
    decreases |fs|
  {
    if |fs| == 1 {
      LastField(files, p, fs);
    } else if !EndsUrl(fs[0]) || HitAt(files, p, fs[1..]).None? {
      MissStep(files, p, fs);
      MissFields(files, p, fs);
      PassIsFieldwise(files, p, fs[1..]);
      JoinPair(fs[0], PassFields(files, p, fs[1..]));
    } else {
      HitStep(files, p, fs);
      var hit := HitAt(files, p, fs[1..]).value;
      RestIsFields(files, p, fs[1..]);
      PassIsFieldwise(files, p, hit.rest);
      HitJoins(files, p, fs);
    }
  }

  lemma LastField(files: string, p: Pass, fs: seq<string>)
    requires IsFields(fs) && |fs| == 1
    ensures Substitute(CommandOf(files, p), JoinQ(fs)) == JoinQ(PassFields(files, p, fs))
  {
    var c, f := CommandOf(files, p), fs[0];
    assert PassFields(files, p, fs) == [f];
    assert URL + "" == URL && !(OPEN <= URL);
    MissWithoutUrl(files, p, URL + "");
    SkipField(files, p, f, "");
    SubstituteSkips(c, f, "");
    assert f + "" == f && Substitute(c, "") == "";
  }

  lemma RestIsFields(files: string, p: Pass, gs: seq<string>)
    requires IsFields(gs) && HitAt(files, p, gs).Some?
    ensures IsFields(HitAt(files, p, gs).value.rest)
  {
  }

  lemma HitJoins(files: string, p: Pass, fs: seq<string>)
    requires |fs| > 1 && EndsUrl(fs[0]) && HitAt(files, p, fs[1..]).Some?
    ensures var hit := HitAt(files, p, fs[1..]).value;
      fs[0][..|fs[0]| - 6] + (hit.written + JoinQ(PassFields(files, p, hit.rest))) == JoinQ(PassFields(files, p, fs))
  {
    AddressEnds(files, p);
    assert fs[1..][0] == fs[1] && fs[1..][1..] == fs[2..];
    match p
    case LendH(h) => LendJoins(files, h, fs);
    case LendP(h) => PlainJoins(files, p, fs, From(h), To(files, h));
    case BackH(h) => BackJoins(files, h, fs);
    case BackP(h) => PlainJoins(files, p, fs, To(files, h), From(h));
  }

  lemma PlainJoins(files: string, p: Pass, fs: seq<string>, from: string, to: string)
    requires |fs| > 1 && EndsUrl(fs[0]) && EndsOutside(from) && from <= fs[1]
    requires PassFields(files, p, fs)[1] == to + fs[1][|from|..]
    ensures fs[0][..|fs[0]| - 6] + (OPEN + to + JoinQ(PassFields(files, p, [fs[1][|from|..]] + fs[2..]))) ==
      JoinQ(PassFields(files, p, fs))
  {
    PlainHitFields(files, p, fs, from, to);
    WholeHitJoin(fs[0][..|fs[0]| - 6], fs[0], to, JoinQ(PassFields(files, p, [fs[1][|from|..]] + fs[2..])));
  }

  lemma AssociateBack(open: string, from: string, r: string, end: string, tail: string)
    ensures open + from + r + end + tail == open + (from + r) + (end + tail)
  {
  }

  lemma BackJoins(files: string, h: string, fs: seq<string>)
    requires |fs| > 1 && EndsUrl(fs[0]) && HitAt(files, BackH(h), fs[1..]).Some?
    ensures var hit := HitAt(files, BackH(h), fs[1..]).value;
      fs[0][..|fs[0]| - 6] + (hit.written + JoinQ(PassFields(files, BackH(h), hit.rest))) ==
      JoinQ(PassFields(files, BackH(h), fs))
  {
    var hit := HitAt(files, BackH(h), fs[1..]).value;
    assert fs[1..][0] == fs[1] && fs[1..][1..] == fs[2..];
    BackHitFields(files, h, fs);
    var before := BeforeQuery(fs[1][|To(files, h)|..]).value;
    var tail := JoinQ(PassFields(files, BackH(h), fs[2..]));
    WholeHitJoin(fs[0][..|fs[0]| - 6], fs[0], From(h) + before, "\"" + tail);
    AssociateBack(OPEN, From(h), before, "\"", tail);
  }

  lemma AssociateLent(
    open: string, to: string, r: string, q: string, hex: string, mid: string, end: string, tail: string)
    ensures open + to + r + q + hex + mid + hex + end + tail == open + (to + r + q + hex) + (mid + hex + (end + tail))
  {
  }

  lemma LendJoins(files: string, h: string, fs: seq<string>)
    requires |fs| > 1 && EndsUrl(fs[0]) && HitAt(files, LendH(h), fs[1..]).Some?
    ensures var hit := HitAt(files, LendH(h), fs[1..]).value;
      fs[0][..|fs[0]| - 6] + (hit.written + JoinQ(PassFields(files, LendH(h), hit.rest))) ==
      JoinQ(PassFields(files, LendH(h), fs))
  {
    var hit := HitAt(files, LendH(h), fs[1..]).value;
    assert fs[1..][0] == fs[1] && fs[1..][3..] == fs[4..];
    LendHitFields(files, h, fs);
    var hex := HashAfter(fs[1..]).value;
    var lent := To(files, h) + fs[1][|From(h)|..] + QUERY + hex;
    var tail := JoinQ(PassFields(files, LendH(h), fs[4..]));
    WholeHitJoin(fs[0][..|fs[0]| - 6], fs[0], lent, MID + hex + ("\"" + tail));
    AssociateLent(OPEN, To(files, h), fs[1][|From(h)|..], QUERY, hex, MID, "\"", tail);
  }
}
