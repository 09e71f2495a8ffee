/** What each sed command does to a line of a uv.lock, told field by field: the line is cut
    at its quotes, and a command rewrites the fields that hold an address. */
module UvFields {
  import opened Types
  import opened Sed
  import opened UvScripts

  // ---- fields ---------------------------------------------------------------------------------

  predicate Quoteless(s: string) {
    '"' !in s
  }

  predicate IsFields(fs: seq<string>) {
    fs != [] && forall i :: 0 <= i < |fs| ==> Quoteless(fs[i])
  }

  /** The line whose parts between quotes are fs. */
  function JoinQ(fs: seq<string>): string
    requires fs != []
  {
    if |fs| == 1 then fs[0] else fs[0] + ("\"" + JoinQ(fs[1..]))
  }

  function SplitQ(s: string): (fs: seq<string>)
    ensures IsFields(fs)
  {
    if s == [] then [[]]
    else
      var rest := SplitQ(s[1..]);
      if s[0] == '"' then [[]] + rest else [[s[0]] + rest[0]] + rest[1..]
  }

  lemma JoinPair(a: string, b: seq<string>)
    requires b != []
    ensures JoinQ([a] + b) == a + ("\"" + JoinQ(b))
  {
    assert ([a] + b)[1..] == b;
  }

  lemma JoinPrefixed(to: string, r: string, tail: seq<string>)
    ensures JoinQ([to + r] + tail) == to + JoinQ([r] + tail)
  {
    if tail == [] {
      assert [to + r] + tail == [to + r] && [r] + tail == [r];
    } else {
      JoinPair(to + r, tail);
      JoinPair(r, tail);
      assert to + r + ("\"" + JoinQ(tail)) == to + (r + ("\"" + JoinQ(tail)));
    }
  }

  lemma {:induction false} JoinSplit(s: string)
    ensures JoinQ(SplitQ(s)) == s
  {
    if s != [] {
      JoinSplit(s[1..]);
      var rest := SplitQ(s[1..]);
      assert s == [s[0]] + s[1..];
      if s[0] == '"' {
        JoinPair([], rest);
      } else {
        JoinPrefixed([s[0]], rest[0], rest[1..]);
        assert rest == [rest[0]] + rest[1..];
      }
    }
  }

  lemma {:induction false} SplitField(f: string, s: string)
    requires Quoteless(f)
    ensures SplitQ(f + ("\"" + s)) == [f] + SplitQ(s) && SplitQ(f) == [f]
  {
    if f == [] {
      assert f + ("\"" + s) == "\"" + s && ("\"" + s)[1..] == s;
    } else {
      assert f == [f[0]] + f[1..];
      SplitField(f[1..], s);
      assert (f + ("\"" + s))[1..] == f[1..] + ("\"" + s);
    }
  }

  lemma {:induction false} SplitJoin(fs: seq<string>)
    requires IsFields(fs)
    ensures SplitQ(JoinQ(fs)) == fs
    decreases |fs|
  {
    if |fs| == 1 {
      SplitField(fs[0], "");
    } else {
      SplitField(fs[0], JoinQ(fs[1..]));
      SplitJoin(fs[1..]);
    }
  }

  lemma FirstField(fs: seq<string>)
    requires IsFields(fs)
    ensures fs[0] <= JoinQ(fs)
    ensures |fs| > 1 ==> |JoinQ(fs)| > |fs[0]| && JoinQ(fs)[|fs[0]|] == '"'
    ensures |fs| > 1 ==> JoinQ(fs)[|fs[0]| + 1..] == JoinQ(fs[1..])
  {
  }

  lemma PrefixStops(x: string, s: string, k: nat)
    requires x <= s && Quoteless(x) && k < |s| && s[k] == '"'
    ensures |x| <= k
  {
  }

  /** A text without quotes begins the line exactly when it begins the first field. */
  lemma PrefixInField(x: string, fs: seq<string>)
    requires IsFields(fs) && Quoteless(x)
    ensures x <= JoinQ(fs) <==> x <= fs[0]
    ensures x <= fs[0] ==> JoinQ(fs)[|x|..] == JoinQ([fs[0][|x|..]] + fs[1..])
  {
    FirstField(fs);
    if x <= JoinQ(fs) && |fs| > 1 {
      PrefixStops(x, JoinQ(fs), |fs[0]|);
      assert x == JoinQ(fs)[..|x|] == fs[0][..|x|];
    }
    if x <= fs[0] {
      assert ([fs[0][|x|..]] + fs[1..])[1..] == fs[1..];
    }
  }

  // ---- passes -----------------------------------------------------------------------------------

  predicate EndsUrl(f: string) {
    |f| >= 6 && f[|f| - 6..] == URL
  }

  predicate AllHex(s: string) {
    forall i :: 0 <= i < |s| ==> '0' <= s[i] <= '9' || 'a' <= s[i] <= 'f'
  }

  /** What stands around a field: `url = ` before it, a quote after it, and the sha256 that the
      lock records beside it. */
  datatype Context = Context(active: bool, closed: bool, hash: Option<string>)

  function ContextAt(fs: seq<string>, j: nat): Context
    requires j < |fs|
  {
    Context(j > 0 && EndsUrl(fs[j - 1]), j + 1 < |fs|,
            if j + 3 < |fs| && fs[j + 1] == HASH && SHA <= fs[j + 2] && AllHex(fs[j + 2][|SHA|..])
            then Some(fs[j + 2][|SHA|..]) else None)
  }

  datatype Pass = LendH(host: string) | LendP(host: string) | BackH(host: string) | BackP(host: string)

  function CommandOf(files: string, p: Pass): Command {
    match p
    case LendH(h) => LendHash(files, h)
    case LendP(h) => LendPlain(files, h)
    case BackH(h) => BackHash(files, h)
    case BackP(h) => BackPlain(files, h)
  }

  /** What comes before a `?sha256=` and hex that end the text, the first `?` being theirs. */
  function BeforeQuery(r: string): Option<string> {
    var n := Span(NOT_QUERY, r);
    if QUERY <= r[n..] && AllHex(r[n + |QUERY|..]) then Some(r[..n]) else None
  }

  /** The command's effect on one field. */
  function Rewrite(files: string, p: Pass, c: Context, f: string): string {
    if !c.active then f
    else
      match p
      case LendH(h) =>
        if From(h) <= f && c.hash.Some? then To(files, h) + f[|From(h)|..] + QUERY + c.hash.value else f
      case LendP(h) => if From(h) <= f then To(files, h) + f[|From(h)|..] else f
      case BackH(h) =>
        if To(files, h) <= f && c.closed && BeforeQuery(f[|To(files, h)|..]).Some? then
          From(h) + BeforeQuery(f[|To(files, h)|..]).value
        else f
      case BackP(h) => if To(files, h) <= f then From(h) + f[|To(files, h)|..] else f
  }

  function PassFields(files: string, p: Pass, fs: seq<string>): (gs: seq<string>)
    ensures |gs| == |fs|
  {
    seq(|fs|, j requires 0 <= j < |fs| => Rewrite(files, p, ContextAt(fs, j), fs[j]))
  }

  // ---- where a command cannot match ---------------------------------------------------------------

  const OPEN: string := URL + "\""

  /** The literal each command's pattern starts with, after `url = "`. */
  function Address(files: string, p: Pass): string {
    match p
    case LendH(h) => From(h)
    case LendP(h) => From(h)
    case BackH(h) => To(files, h)
    case BackP(h) => To(files, h)
  }

  function Tail(files: string, p: Pass): seq<Atom> {
    CommandOf(files, p).atoms[|OPEN + Address(files, p)|..]
  }

  lemma AtomsAre(files: string, p: Pass)
    ensures |CommandOf(files, p).atoms| >= |OPEN + Address(files, p)|
    ensures CommandOf(files, p).atoms == Lits(OPEN + Address(files, p)) + Tail(files, p)
  {
  }

  lemma MissWithoutUrl(files: string, p: Pass, s: string)
    requires !(OPEN <= s)
    ensures Misses(CommandOf(files, p), s)
  {
    var x := OPEN + Address(files, p);
    AtomsAre(files, p);
    LitsMatch(x, Tail(files, p), s);
    assert OPEN <= x;
    LongerPrefix(OPEN, x, s);
  }

  lemma LongerPrefix(a: string, x: string, s: string)
    requires a <= x && !(a <= s)
    ensures !(x <= s)
  {
  }

  lemma OpenAt(s: string)
    requires OPEN <= s
    ensures s[6] == '"' && (forall i :: 0 <= i < 6 ==> s[i] == URL[i] && s[i] != '"') && s[..6] == URL
  {
    assert forall i :: 0 <= i < 7 ==> s[i] == OPEN[i];
  }

  lemma UrlIsWholeField(f: string, s: string)
    requires Quoteless(f) && (s == [] || s[0] == '"') && OPEN <= f + s
    ensures f == URL
  {
    OpenAt(f + s);
    assert forall i :: 0 <= i < |f| ==> (f + s)[i] != '"';
    assert |f| <= 6;
    assert (f + s)[|f|] == '"';
    assert |f| >= 6;
  }

  lemma TailEnds(f: string)
    requires f != [] && EndsUrl(f[1..])
    ensures EndsUrl(f)
  {
    assert f[1..][|f| - 7..] == f[|f| - 6..];
  }

  /** No match starts in a field that is followed by a quote or by nothing, except where its
      final `url = ` begins one. */
  lemma {:induction false} SkipField(files: string, p: Pass, f: string, s: string)
    requires Quoteless(f) && (s == [] || s[0] == '"')
    requires EndsUrl(f) ==> Misses(CommandOf(files, p), URL + s)
    ensures NoMatchIn(CommandOf(files, p), f, s)
  {
    if f != [] {
      if OPEN <= f + s {
        UrlIsWholeField(f, s);
      } else {
        MissWithoutUrl(files, p, f + s);
      }
      if EndsUrl(f[1..]) {
        TailEnds(f);
      }
      SkipField(files, p, f[1..], s);
    }
  }

  lemma UrlNotEarlier(a: string, s: string)
    requires Quoteless(a) && a != [] && OPEN <= s
    ensures !(OPEN <= a + s)
  {
    OpenAt(s);
    assert |a + s| > 6 && (a + s)[6] != '"' by {
      if |a| > 6 {
        assert (a + s)[6] == a[6];
      } else {
        assert (a + s)[6] == s[6 - |a|];
      }
    }
    assert OPEN[6] == '"';
  }

  /** No match starts before a `url = "` that has no quote before it. */
  lemma {:induction false} SkipBefore(files: string, p: Pass, a: string, s: string)
    requires Quoteless(a) && OPEN <= s
    ensures NoMatchIn(CommandOf(files, p), a, s)
  {
    if a != [] {
      UrlNotEarlier(a, s);
      MissWithoutUrl(files, p, a + s);
      SkipBefore(files, p, a[1..], s);
    }
  }

  // ---- what a command does where it can match -----------------------------------------------------

  /** A match at `url = "` and the fields gs: what is written in place of it, and the fields
      that are left to scan. */
  datatype Hit = Hit(written: string, rest: seq<string>)

  /** Whether the hash follows the first of the fields gs. */
  function HashAfter(gs: seq<string>): Option<string> {
    if |gs| >= 4 && gs[1] == HASH && SHA <= gs[2] && AllHex(gs[2][|SHA|..]) then Some(gs[2][|SHA|..]) else None
  }

  function HitAt(files: string, p: Pass, gs: seq<string>): (hit: Option<Hit>)
    requires gs != []
    ensures hit.Some? ==> hit.value.rest != [] && |hit.value.rest| <= |gs|
  {
    match p
    case LendH(h) =>
      if From(h) <= gs[0] && HashAfter(gs).Some? then
        var hex := HashAfter(gs).value;
        Some(Hit(OPEN + To(files, h) + gs[0][|From(h)|..] + QUERY + hex + MID + hex + "\"", gs[3..]))
      else None
    case LendP(h) =>
      if From(h) <= gs[0] then Some(Hit(OPEN + To(files, h), [gs[0][|From(h)|..]] + gs[1..])) else None
    case BackH(h) =>
      if To(files, h) <= gs[0] && |gs| > 1 && BeforeQuery(gs[0][|To(files, h)|..]).Some? then
        Some(Hit(OPEN + From(h) + BeforeQuery(gs[0][|To(files, h)|..]).value + "\"", gs[1..]))
      else None
    case BackP(h) =>
      if To(files, h) <= gs[0] then Some(Hit(OPEN + From(h), [gs[0][|To(files, h)|..]] + gs[1..])) else None
  }

  /** The command scans `url = "` and gs as HitAt says. */
  ghost predicate Scans(files: string, p: Pass, gs: seq<string>)
    requires gs != []
  {
    var c := CommandOf(files, p);
    match HitAt(files, p, gs)
    case None => Misses(c, OPEN + JoinQ(gs))
    case Some(hit) => Substitute(c, OPEN + JoinQ(gs)) == hit.written + Substitute(c, JoinQ(hit.rest))
  }

  lemma SubstituteMatch(c: Command, s: string, m: Match, rest: string)
    requires MatchAtoms(c.atoms, s) == Some(m) && m.length > 0 && rest == s[m.length..]
    ensures Substitute(c, s) == Render(c.pieces, m.groups) + Substitute(c, rest)
  {
  }

  /** At `url = "` and t, a pattern matches as its tail does past its address. */
  lemma MatchAtUrl(c: Command, address: string, tail: seq<Atom>, t: string)
    requires c.atoms == Lits(OPEN + address) + tail
    ensures MatchAtoms(c.atoms, OPEN + t) ==
      if address <= t then Longer(MatchAtoms(tail, t[|address|..]), |OPEN + address|, []) else None
  {
    var x := OPEN + address;
    LitsMatch(x, tail, OPEN + t);
    assert (OPEN + t)[|OPEN|..] == t && x[|OPEN|..] == address;
    if address <= t {
      assert (OPEN + t)[|x|..] == t[|address|..];
    }
  }

  lemma LongerByLits(m: Match, n: nat)
    ensures Longer(Some(m), n, []) == Some(Match(n + m.length, m.groups))
  {
    var none: seq<string> := [];
    assert none + m.groups == m.groups;
  }

  lemma DropLead(lead: string, t: string, n: nat, k: nat)
    requires n + k <= |t|
    ensures (lead + t)[|lead| + n + k..] == t[n..][k..]
  {
  }

  /** What a scan does at `url = "` and the fields gs, once it is known what the tail of the
      pattern does past the address. */
  lemma ScanAtUrl(c: Command, address: string, tail: seq<Atom>, gs: seq<string>, m: Option<Match>)
    requires c.atoms == Lits(OPEN + address) + tail && IsFields(gs) && Quoteless(address)
    requires address <= gs[0] ==> MatchAtoms(tail, JoinQ([gs[0][|address|..]] + gs[1..])) == m
    ensures !(address <= gs[0]) || m.None? ==> Misses(c, OPEN + JoinQ(gs))
    ensures address <= gs[0] && m.Some? ==>
      && m.value.length <= |JoinQ([gs[0][|address|..]] + gs[1..])|
      && Substitute(c, OPEN + JoinQ(gs)) ==
           Render(c.pieces, m.value.groups)
           + Substitute(c, JoinQ([gs[0][|address|..]] + gs[1..])[m.value.length..])
  {
    var t := JoinQ(gs);
    MatchAtUrl(c, address, tail, t);
    PrefixInField(address, gs);
    if address <= gs[0] && m.Some? {
      LongerByLits(m.value, |OPEN + address|);
      DropLead(OPEN, t, |address|, m.value.length);
      SubstituteMatch(c, OPEN + t, Match(|OPEN + address| + m.value.length, m.value.groups),
                      t[|address|..][m.value.length..]);
    }
  }

  lemma HitScans(files: string, p: Pass, gs: seq<string>, hit: Hit)
    requires gs != [] && HitAt(files, p, gs) == Some(hit)
    requires Substitute(CommandOf(files, p), OPEN + JoinQ(gs)) ==
      hit.written + Substitute(CommandOf(files, p), JoinQ(hit.rest))
    ensures Scans(files, p, gs)
  {
  }

  lemma NoHitScans(files: string, p: Pass, gs: seq<string>)
    requires gs != [] && HitAt(files, p, gs).None? && Misses(CommandOf(files, p), OPEN + JoinQ(gs))
    ensures Scans(files, p, gs)
  {
  }

  /** A command that replaces an address only. */
  lemma PlainScans(c: Command, from: string, to: string, gs: seq<string>)
    requires c.atoms == Lits(OPEN + from) + [] && c.pieces == Texts(OPEN + to) + []
    requires IsFields(gs) && Quoteless(from)
    ensures !(from <= gs[0]) ==> Misses(c, OPEN + JoinQ(gs))
    ensures from <= gs[0] ==>
      Substitute(c, OPEN + JoinQ(gs)) == OPEN + to + Substitute(c, JoinQ([gs[0][|from|..]] + gs[1..]))
  {
    var rest := [gs[0]] + gs[1..];
    if from <= gs[0] {
      rest := [gs[0][|from|..]] + gs[1..];
    }
    EmptyPattern(JoinQ(rest));
    ScanAtUrl(c, from, [], gs, Some(Match(0, [])));
    RenderPlain(OPEN + to);
  }

  lemma EmptyPattern(t: string)
    ensures MatchAtoms([], t) == Some(Match(0, [])) && t[0..] == t
  {
  }

  lemma RenderPlain(text: string)
    ensures Render(Texts(text) + [], []) == text
  {
    RenderTexts(text, [], []);
    assert text + [] == text;
  }

  lemma SetsAre(c: char)
    ensures Member(NOT_QUOTE, c) <==> c != '"'
    ensures Member(NOT_QUERY, c) <==> c != '"' && c != '?'
    ensures Member(HEX, c) <==> '0' <= c <= '9' || 'a' <= c <= 'f'
  {
    assert NOT_QUOTE.ranges[0] == ('"', '"');
    assert NOT_QUERY.ranges[0] == ('"', '"') && NOT_QUERY.ranges[1] == ('?', '?');
    assert HEX.ranges[0] == ('0', '9') && HEX.ranges[1] == ('a', 'f');
  }

  /** The star of non-quotes takes the first field. */
  lemma SpanFirst(gs: seq<string>)
    requires IsFields(gs)
    ensures Span(NOT_QUOTE, JoinQ(gs)) == |gs[0]|
  {
    FirstField(gs);
    var t := JoinQ(gs);
    forall i | 0 <= i < |gs[0]| ensures Member(NOT_QUOTE, t[i]) {
      SetsAre(t[i]);
    }
    if |gs| > 1 {
      SetsAre('"');
    }
    SpanIs(NOT_QUOTE, t, |gs[0]|);
  }

  lemma SpanHexBound(s: string, n: nat)
    requires n <= |s| && AllHex(s[..n]) && (n < |s| ==> s[n] == '"')
    ensures Span(HEX, s) == n
  {
    forall i | 0 <= i < n ensures Member(HEX, s[i]) {
      assert s[i] == s[..n][i];
      SetsAre(s[i]);
    }
    SetsAre('"');
    SpanIs(HEX, s, n);
  }

  /** Hex and a quote at the front of the fields: the first field is hex, and is closed. */
  lemma HexThenQuote(gs: seq<string>)
    requires IsFields(gs)
    ensures var t := JoinQ(gs);
      var n := Span(HEX, t);
      (n < |t| && t[n] == '"') <==> (AllHex(gs[0]) && |gs| > 1)
    ensures AllHex(gs[0]) && |gs| > 1 ==> Span(HEX, JoinQ(gs)) == |gs[0]|
  {
    var t := JoinQ(gs);
    FirstField(gs);
    if AllHex(gs[0]) && |gs| > 1 {
      assert t[..|gs[0]|] == gs[0];
      SpanHexBound(t, |gs[0]|);
    } else if |gs| > 1 {
      var i :| 0 <= i < |gs[0]| && !('0' <= gs[0][i] <= '9' || 'a' <= gs[0][i] <= 'f');
      SetsAre(t[i]);
      SpanStops(HEX, t, i);
      assert t[Span(HEX, t)] == gs[0][Span(HEX, t)];
    }
  }

  lemma SpanStops(members: CharSet, s: string, i: nat)
    requires i < |s| && !Member(members, s[i])
    ensures Span(members, s) <= i
  {
  }

  /** The line without its first n characters, all of them in the first field. */
  lemma DropInField(gs: seq<string>, n: nat)
    requires IsFields(gs) && n <= |gs[0]|
    ensures IsFields([gs[0][n..]] + gs[1..])
    ensures JoinQ(gs)[n..] == JoinQ([gs[0][n..]] + gs[1..])
  {
    FirstField(gs);
    assert ([gs[0][n..]] + gs[1..])[1..] == gs[1..];
  }

  const MID_REST: string := HASH + "\"" + SHA

  lemma PrefixTwo(a: string, b: string, t: string)
    ensures a + b <= t <==> a <= t && b <= t[|a|..]
    ensures a + b <= t ==> t[|a + b|..] == t[|a|..][|b|..]
  {
    if a <= t {
      assert t == a + t[|a|..];
      assert b <= t[|a|..] ==> t == a + (b + t[|a|..][|b|..]);
    }
    if a + b <= t {
      assert t[..|a|] == (a + b)[..|a|] == a;
      assert t[|a|..][..|b|] == (a + b)[|a|..] == b;
    }
  }

  /** A text and a quote begin the line exactly when the text is its first field, closed. */
  lemma FieldThenQuote(x: string, hs: seq<string>)
    requires IsFields(hs) && Quoteless(x)
    ensures x + "\"" <= JoinQ(hs) <==> |hs| > 1 && hs[0] == x
    ensures |hs| > 1 && hs[0] == x ==> JoinQ(hs)[|x + "\""|..] == JoinQ(hs[1..])
  {
    var t := JoinQ(hs);
    FirstField(hs);
    if x + "\"" <= t {
      assert t[..|x|] == (x + "\"")[..|x|] == x;
      assert t[|x|] == (x + "\"")[|x|] == '"';
      FirstQuote(hs, |x|);
    }
  }

  /** The text between an address and its hash, past the address's closing quote. */
  lemma MidInFields(hs: seq<string>)
    requires IsFields(hs)
    ensures MID_REST <= JoinQ(hs) <==> |hs| > 1 && hs[0] == HASH && SHA <= hs[1]
    ensures MID_REST <= JoinQ(hs) ==>
      IsFields([hs[1][|SHA|..]] + hs[2..]) && JoinQ(hs)[|MID_REST|..] == JoinQ([hs[1][|SHA|..]] + hs[2..])
  {
    PrefixTwo(HASH + "\"", SHA, JoinQ(hs));
    FieldThenQuote(HASH, hs);
    if |hs| > 1 && hs[0] == HASH {
      PrefixInField(SHA, hs[1..]);
      if SHA <= hs[1] {
        DropInField(hs[1..], |SHA|);
        assert hs[1..][1..] == hs[2..];
      }
    }
  }

  /** The first quote of the line ends its first field. */
  lemma FirstQuote(hs: seq<string>, n: nat)
    requires IsFields(hs) && n < |JoinQ(hs)| && JoinQ(hs)[n] == '"' && Quoteless(JoinQ(hs)[..n])
    ensures |hs| > 1 && hs[0] == JoinQ(hs)[..n]
  {
    var t := JoinQ(hs);
    FirstField(hs);
    assert forall i :: 0 <= i < n ==> t[i] == t[..n][i];
    assert forall i :: 0 <= i < |hs[0]| ==> t[i] == hs[0][i];
    assert n >= |hs[0]|;
    assert |hs| > 1;
    assert n <= |hs[0]|;
  }

  lemma HexStar(group: bool, t: string)
    ensures MatchAtoms([Star(HEX, group)] + (Lits("\"") + []), t) == StarLit(Star(HEX, group), '"', [], t, Span(HEX, t))
  {
    SetsAre('"');
    StarThenLit(Star(HEX, group), '"', [], t);
    assert [Star(HEX, group)] + (Lits("\"") + []) == [Star(HEX, group), Lit('"')] + [];
  }

  lemma HexStarLit(group: bool, t: string, n: nat)
    requires n <= |t|
    ensures StarLit(Star(HEX, group), '"', [], t, n) ==
      if n < |t| && t[n] == '"' then Some(Match(n + 1, if group then [t[..n]] else [])) else None
  {
    if n < |t| {
      EmptyPattern(t[n + 1..]);
      var groups: seq<string> := if group then [t[..n]] else [];
      assert groups + [] == groups;
    }
  }

  /** A starred hex set and a quote, on the fields ks. */
  lemma HexTail(group: bool, ks: seq<string>)
    requires IsFields(ks)
    ensures MatchAtoms([Star(HEX, group)] + (Lits("\"") + []), JoinQ(ks)) ==
      if AllHex(ks[0]) && |ks| > 1 then Some(Match(|ks[0]| + 1, if group then [ks[0]] else [])) else None
    ensures |ks| > 1 ==> JoinQ(ks)[|ks[0]| + 1..] == JoinQ(ks[1..])
  {
    var t := JoinQ(ks);
    HexStar(group, t);
    HexStarLit(group, t, Span(HEX, t));
    HexThenQuote(ks);
    FirstField(ks);
    assert AllHex(ks[0]) && |ks| > 1 ==> t[..|ks[0]|] == ks[0];
  }

  /** LendHash's tail, on the fields from the address's own. */
  lemma LendTail(files: string, h: string, rs: seq<string>)
    requires IsFields(rs)
    ensures MatchAtoms(Tail(files, LendH(h)), JoinQ(rs)) ==
      if HashAfter(rs).Some? then
        Some(Match(|rs[0]| + 1 + |MID_REST| + |HashAfter(rs).value| + 1, [rs[0], HashAfter(rs).value]))
      else None
    ensures HashAfter(rs).Some? ==>
      JoinQ(rs)[|rs[0]| + 1 + |MID_REST| + |HashAfter(rs).value| + 1..] == JoinQ(rs[3..])
  {
    var t := JoinQ(rs);
    LendTailIs(files, h);
    SetsAre('"');
    StarThenLit(Star(NOT_QUOTE, true), '"', LEND_AFTER, t);
    SpanFirst(rs);
    FirstField(rs);
    if |rs| > 1 {
      assert t[..|rs[0]|] == rs[0];
      LendAfter(rs[1..]);
      HashIgnoresFirst(rs);
      LendShift(rs, t, LEND_AFTER);
    }
  }

  const LEND_AFTER: seq<Atom> := Lits(MID_REST) + ([Star(HEX, true)] + (Lits("\"") + []))

  lemma LendTailIs(files: string, h: string)
    ensures Tail(files, LendH(h)) == [Star(NOT_QUOTE, true), Lit('"')] + LEND_AFTER
  {
    AtomsAre(files, LendH(h));
    assert Lits(MID) == [Lit('"')] + Lits(MID_REST);
  }

  lemma HashIgnoresFirst(rs: seq<string>)
    requires |rs| > 1
    ensures HashAfter([""] + rs[1..]) == HashAfter(rs)
  {
    var gs := [""] + rs[1..];
    assert forall i :: 1 <= i < |rs| ==> gs[i] == rs[i];
  }

  lemma LendShift(rs: seq<string>, t: string, after: seq<Atom>)
    requires IsFields(rs) && |rs| > 1 && t == JoinQ(rs)
    requires t[|rs[0]| + 1..] == JoinQ(rs[1..])
    requires MatchAtoms(after, JoinQ(rs[1..])) ==
      if HashAfter(rs).Some? then
        Some(Match(|MID_REST| + |HashAfter(rs).value| + 1, [HashAfter(rs).value]))
      else None
    requires HashAfter(rs).Some? ==>
      JoinQ(rs[1..])[|MID_REST| + |HashAfter(rs).value| + 1..] == JoinQ(rs[3..])
    ensures Longer(MatchAtoms(after, t[|rs[0]| + 1..]), |rs[0]| + 1, [rs[0]]) ==
      if HashAfter(rs).Some? then
        Some(Match(|rs[0]| + 1 + |MID_REST| + |HashAfter(rs).value| + 1, [rs[0], HashAfter(rs).value]))
      else None
    ensures HashAfter(rs).Some? ==>
      t[|rs[0]| + 1 + |MID_REST| + |HashAfter(rs).value| + 1..] == JoinQ(rs[3..])
  {
    if HashAfter(rs).Some? {
      var n := |MID_REST| + |HashAfter(rs).value| + 1;
      assert [rs[0]] + [HashAfter(rs).value] == [rs[0], HashAfter(rs).value];
      assert t[|rs[0]| + 1..][n..] == t[|rs[0]| + 1 + n..];
    }
  }

  /** Past the quote that closes the address. */
  lemma LendAfter(hs: seq<string>)
    requires IsFields(hs)
    ensures var hash := HashAfter([""] + hs);
      && MatchAtoms(LEND_AFTER, JoinQ(hs)) ==
           (if hash.Some? then Some(Match(|MID_REST| + |hash.value| + 1, [hash.value])) else None)
      && (hash.Some? ==> JoinQ(hs)[|MID_REST| + |hash.value| + 1..] == JoinQ(hs[2..]))
  {
    var t, gs := JoinQ(hs), [""] + hs;
    assert |hs| > 1 ==> gs[1] == hs[0] && gs[2] == hs[1];
    LitsMatch(MID_REST, [Star(HEX, true)] + (Lits("\"") + []), t);
    MidInFields(hs);
    if MID_REST <= t {
      HashCloses(hs, [hs[1][|SHA|..]] + hs[2..], t);
    }
  }

  /** The hash itself, and the quote after it. */
  lemma HashCloses(hs: seq<string>, ks: seq<string>, t: string)
    requires |hs| > 1 && SHA <= hs[1] && ks == [hs[1][|SHA|..]] + hs[2..] && IsFields(ks)
    requires |t| >= |MID_REST| && t[|MID_REST|..] == JoinQ(ks)
    ensures Longer(MatchAtoms([Star(HEX, true)] + (Lits("\"") + []), t[|MID_REST|..]), |MID_REST|, []) ==
      if AllHex(ks[0]) && |ks| > 1 then Some(Match(|MID_REST| + |ks[0]| + 1, [ks[0]])) else None
    ensures |ks| > 1 ==> |ks[0]| + 1 <= |t| - |MID_REST| && t[|MID_REST| + |ks[0]| + 1..] == JoinQ(hs[2..])
  {
    HexTail(true, ks);
    FirstField(ks);
    LongerByLits(Match(|ks[0]| + 1, [ks[0]]), |MID_REST|);
    assert ks[1..] == hs[2..];
    if |ks| > 1 {
      assert t[|MID_REST|..][|ks[0]| + 1..] == t[|MID_REST| + |ks[0]| + 1..];
    }
  }

  const QUERY_REST: string := "sha256="

  const BACK_AFTER: seq<Atom> := Lits(QUERY_REST) + ([Star(HEX, false)] + (Lits("\"") + []))

  lemma BackTailIs(files: string, h: string)
    ensures Tail(files, BackH(h)) == [Star(NOT_QUERY, true), Lit('?')] + BACK_AFTER
  {
    AtomsAre(files, BackH(h));
    assert Lits(QUERY) == [Lit('?')] + Lits(QUERY_REST);
  }

  /** The star of neither quotes nor question marks stays in the first field. */
  lemma SpanQueryFirst(rs: seq<string>)
    requires IsFields(rs)
    ensures Span(NOT_QUERY, JoinQ(rs)) == Span(NOT_QUERY, rs[0])
  {
    FirstField(rs);
    var n := Span(NOT_QUERY, rs[0]);
    var t := JoinQ(rs);
    forall i | 0 <= i < n ensures Member(NOT_QUERY, t[i]) {
      assert t[i] == rs[0][i];
    }
    if n < |t| {
      if n < |rs[0]| {
        assert t[n] == rs[0][n];
      } else {
        SetsAre('"');
      }
    }
    SpanIs(NOT_QUERY, t, n);
  }

  /** What BackHash needs of the address and what follows it. */
  predicate Queried(rs: seq<string>)
    requires rs != []
  {
    |rs| > 1 && BeforeQuery(rs[0]).Some?
  }

  /** Past the `?`. */
  lemma BackAfter(ks: seq<string>)
    requires IsFields(ks)
    ensures MatchAtoms(BACK_AFTER, JoinQ(ks)) ==
      if QUERY_REST <= ks[0] && AllHex(ks[0][|QUERY_REST|..]) && |ks| > 1 then Some(Match(|ks[0]| + 1, [])) else None
  {
    var t := JoinQ(ks);
    LitsMatch(QUERY_REST, [Star(HEX, false)] + (Lits("\"") + []), t);
    PrefixInField(QUERY_REST, ks);
    if QUERY_REST <= ks[0] {
      DropInField(ks, |QUERY_REST|);
      HexTail(false, [ks[0][|QUERY_REST|..]] + ks[1..]);
      var none: seq<string> := [];
      assert none + none == none;
    }
  }

  lemma QueryPrefix(w: string)
    ensures QUERY <= w <==> w != [] && w[0] == '?' && QUERY_REST <= w[1..]
    ensures QUERY <= w ==> w[|QUERY|..] == w[1..][|QUERY_REST|..]
  {
    assert QUERY == ['?'] + QUERY_REST;
    if w != [] {
      assert w == [w[0]] + w[1..];
    }
  }

  /** BeforeQuery, as the star and the literals after it see it. */
  lemma QueryStarts(r: string)
    ensures var n := Span(NOT_QUERY, r);
      BeforeQuery(r) ==
      if n < |r| && r[n] == '?' && QUERY_REST <= r[n + 1..] && AllHex(r[n + 1..][|QUERY_REST|..]) then Some(r[..n])
        else None
  {
    var n := Span(NOT_QUERY, r);
    var w := r[n..];
    QueryPrefix(w);
    if n < |r| {
      assert w[0] == r[n] && w[1..] == r[n + 1..];
    }
    if QUERY <= w {
      assert r[n + |QUERY|..] == w[|QUERY|..];
    }
  }

  /** The star up to the `?`, and what follows it. */
  lemma BackStarLit(rs: seq<string>, n: nat)
    requires IsFields(rs) && n == Span(NOT_QUERY, rs[0])
    ensures StarLit(Star(NOT_QUERY, true), '?', BACK_AFTER, JoinQ(rs), n) ==
      if Queried(rs) then Some(Match(|rs[0]| + 1, [rs[0][..n]])) else None
  {
    var t, r := JoinQ(rs), rs[0];
    FirstField(rs);
    QueryStarts(r);
    if n < |r| && r[n] == '?' {
      BackQuery(rs, n, t);
    } else {
      assert n < |t| ==> t[n] != '?';
    }
  }

  lemma BackQuery(rs: seq<string>, n: nat, t: string)
    requires IsFields(rs) && t == JoinQ(rs) && rs[0] <= t && n < |rs[0]|
    ensures Longer(MatchAtoms(BACK_AFTER, t[n + 1..]), n + 1, [t[..n]]) ==
      if |rs| > 1 && QUERY_REST <= rs[0][n + 1..] && AllHex(rs[0][n + 1..][|QUERY_REST|..]) then
        Some(Match(|rs[0]| + 1, [rs[0][..n]]))
      else None
  {
    DropInField(rs, n + 1);
    var ks := [rs[0][n + 1..]] + rs[1..];
    assert |ks| == |rs| && ks[0] == rs[0][n + 1..];
    BackAfter(ks);
    LongerOne(|ks[0]| + 1, n + 1, rs[0][..n]);
    assert t[..n] == rs[0][..n];
  }

  lemma BackTail(files: string, h: string, rs: seq<string>)
    requires IsFields(rs)
    ensures MatchAtoms(Tail(files, BackH(h)), JoinQ(rs)) ==
      if Queried(rs) then Some(Match(|rs[0]| + 1, [BeforeQuery(rs[0]).value])) else None
  {
    BackStar(files, h, JoinQ(rs));
    SpanQueryFirst(rs);
    BackStarLit(rs, Span(NOT_QUERY, rs[0]));
  }

  lemma BackStar(files: string, h: string, t: string)
    ensures MatchAtoms(Tail(files, BackH(h)), t) ==
      StarLit(Star(NOT_QUERY, true), '?', BACK_AFTER, t, Span(NOT_QUERY, t))
  {
    BackTailIs(files, h);
    SetsAre('?');
    StarThenLit(Star(NOT_QUERY, true), '?', BACK_AFTER, t);
  }

  lemma LongerOne(k: nat, n: nat, group: string)
    ensures Longer(Some(Match(k, [])), n, [group]) == Some(Match(n + k, [group]))
  {
    var none: seq<string> := [];
    assert [group] + none == [group];
  }

  lemma RenderBack(files: string, h: string, r: string)
    ensures Render(BackHash(files, h).pieces, [r]) == OPEN + From(h) + r + "\""
  {
    var groups := [r];
    RenderTexts("\"", [], groups);
    RenderGroup(1, Texts("\"") + [], groups);
    RenderTexts(OPEN + From(h), [Group(1)] + (Texts("\"") + []), groups);
    assert OPEN + From(h) + (r + ("\"" + [])) == OPEN + From(h) + r + "\"";
  }

  lemma RenderGroup(n: nat, rest: seq<Piece>, groups: seq<string>)
    requires 1 <= n <= |groups|
    ensures Render([Group(n)] + rest, groups) == groups[n - 1] + Render(rest, groups)
  {
    RenderCons(Group(n), rest, groups);
  }

  lemma RenderText(text: string, rest: seq<Piece>, groups: seq<string>, tail: string)
    requires Render(rest, groups) == tail
    ensures Render(Texts(text) + rest, groups) == text + tail
  {
    RenderTexts(text, rest, groups);
  }

  lemma RenderOne(n: nat, rest: seq<Piece>, groups: seq<string>, group: string, tail: string)
    requires 1 <= n <= |groups| && groups[n - 1] == group && Render(rest, groups) == tail
    ensures Render([Group(n)] + rest, groups) == group + tail
  {
    RenderGroup(n, rest, groups);
  }

  lemma RenderSeven(head: string, q: string, mid: string, end: string, r: string, hex: string)
    ensures Render(Texts(head) +
      ([Group(1)] + (Texts(q) + ([Group(2)] + (Texts(mid) + ([Group(2)] + (Texts(end) + [])))))),
                   [r, hex]) ==
      head + (r + (q + (hex + (mid + (hex + (end + []))))))
  {
    var groups := [r, hex];
    var p6 := Texts(end) + [];
    var p5 := [Group(2)] + p6;
    var p4 := Texts(mid) + p5;
    var p3 := [Group(2)] + p4;
    var p2 := Texts(q) + p3;
    var p1 := [Group(1)] + p2;
    RenderText(end, [], groups, []);
    RenderOne(2, p6, groups, hex, end + []);
    RenderText(mid, p5, groups, hex + (end + []));
    RenderOne(2, p4, groups, hex, mid + (hex + (end + [])));
    RenderText(q, p3, groups, hex + (mid + (hex + (end + []))));
    RenderOne(1, p2, groups, r, q + (hex + (mid + (hex + (end + [])))));
    RenderText(head, p1, groups, r + (q + (hex + (mid + (hex + (end + []))))));
  }

  lemma RegroupSeven(open: string, to: string, r: string, q: string, hex: string, mid: string, end: string)
    ensures open + to + (r + (q + (hex + (mid + (hex + (end + [])))))) == open + to + r + q + hex + mid + hex + end
  {
  }

  lemma RenderLend(files: string, h: string, r: string, hex: string)
    ensures Render(LendHash(files, h).pieces, [r, hex]) ==
      OPEN + To(files, h) + r + QUERY + hex + MID + hex + "\""
  {
    RenderSeven(OPEN + To(files, h), QUERY, MID, "\"", r, hex);
    RegroupSeven(OPEN, To(files, h), r, QUERY, hex, MID, "\"");
  }

  lemma BackHScans(files: string, h: string, gs: seq<string>)
    requires IsFields(gs) && Quoteless(To(files, h))
    ensures Scans(files, BackH(h), gs)
  {
    var c, from := CommandOf(files, BackH(h)), To(files, h);
    AtomsAre(files, BackH(h));
    if from <= gs[0] {
      DropInField(gs, |from|);
      var rs := [gs[0][|from|..]] + gs[1..];
      BackTail(files, h, rs);
      if Queried(rs) {
        var before := BeforeQuery(rs[0]).value;
        ScanAtUrl(c, from, Tail(files, BackH(h)), gs, Some(Match(|rs[0]| + 1, [before])));
        RenderBack(files, h, before);
        FirstField(rs);
        assert rs[1..] == gs[1..];
        HitScans(files, BackH(h), gs, Hit(OPEN + From(h) + before + "\"", gs[1..]));
      } else {
        ScanAtUrl(c, from, Tail(files, BackH(h)), gs, None);
        NoHitScans(files, BackH(h), gs);
      }
    } else {
      ScanAtUrl(c, from, Tail(files, BackH(h)), gs, None);
      NoHitScans(files, BackH(h), gs);
    }
  }

  lemma LendHit(files: string, h: string, gs: seq<string>, rs: seq<string>)
    requires IsFields(gs) && Quoteless(From(h)) && From(h) <= gs[0] && HashAfter(gs).Some?
    requires rs == [gs[0][|From(h)|..]] + gs[1..] && IsFields(rs) && HashAfter(rs) == HashAfter(gs)
    ensures Scans(files, LendH(h), gs)
  {
    var hex := HashAfter(gs).value;
    var n := |rs[0]| + 1 + |MID_REST| + |hex| + 1;
    LendTail(files, h, rs);
    AtomsAre(files, LendH(h));
    ScanAtUrl(CommandOf(files, LendH(h)), From(h), Tail(files, LendH(h)), gs, Some(Match(n, [rs[0], hex])));
    RenderLend(files, h, rs[0], hex);
    assert rs[3..] == gs[3..];
    HitScans(files, LendH(h), gs, Hit(OPEN + To(files, h) + rs[0] + QUERY + hex + MID + hex + "\"", gs[3..]));
  }

  lemma LendHScans(files: string, h: string, gs: seq<string>)
    requires IsFields(gs) && Quoteless(From(h))
    ensures Scans(files, LendH(h), gs)
  {
    AtomsAre(files, LendH(h));
    if From(h) <= gs[0] {
      DropInField(gs, |From(h)|);
      var rs := [gs[0][|From(h)|..]] + gs[1..];
      assert forall i :: 1 <= i < |gs| ==> rs[i] == gs[i];
      assert HashAfter(rs) == HashAfter(gs);
      if HashAfter(gs).Some? {
        LendHit(files, h, gs, rs);
      } else {
        LendTail(files, h, rs);
        ScanAtUrl(CommandOf(files, LendH(h)), From(h), Tail(files, LendH(h)), gs, None);
        NoHitScans(files, LendH(h), gs);
      }
    } else {
      ScanAtUrl(CommandOf(files, LendH(h)), From(h), Tail(files, LendH(h)), gs, None);
      NoHitScans(files, LendH(h), gs);
    }
  }

  lemma AllScan(files: string, p: Pass, gs: seq<string>)
    requires IsFields(gs) && Quoteless(files) && Quoteless(p.host)
    ensures Scans(files, p, gs)
  {
    assert Quoteless(From(p.host)) && Quoteless(To(files, p.host));
    match p
    case LendH(h) => LendHScans(files, h, gs);
    case LendP(h) => PlainScans(CommandOf(files, p), From(h), To(files, h), gs);
    case BackH(h) => BackHScans(files, h, gs);
    case BackP(h) => PlainScans(CommandOf(files, p), To(files, h), From(h), gs);
  }
}
