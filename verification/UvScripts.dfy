/** The sed arguments that lend a uv.lock's files to the cache and hand them back, built as
    text and read as sed reads them. */
module UvScripts {
  import opened Types
  import opened Sed

  const HOSTS: seq<string> := [
    "files.pythonhosted.org",
    "download.pytorch.org",
    "download-r2.pytorch.org",
    "pypi.nvidia.com",
    "flashinfer.ai"]

  const URL: string := "url = "
  const HASH: string := ", hash = "
  const SHA: string := "sha256:"
  const QUERY: string := "?sha256="

  /** Between an address and its hash in the lock. */
  const MID: string := "\"" + HASH + "\"" + SHA

  const NOT_QUOTE := CharSet(true, [('"', '"')])
  const NOT_QUERY := CharSet(true, [('"', '"'), ('?', '?')])
  const HEX := CharSet(false, [('0', '9'), ('a', 'f')])

  function From(host: string): string {
    "https://" + host + "/"
  }

  function To(files: string, host: string): string {
    files + host + "/"
  }

  // ---- the commands ---------------------------------------------------------------------------

  /** url = "https://HOST/X", hash = "sha256:H"  ->  url = "FILES HOST/X?sha256=H", hash = "sha256:H" */
  function LendHash(files: string, host: string): Command {
    Command(SOURCE,
            Lits(URL + "\"" + From(host)) + ([Star(NOT_QUOTE, true)] + (Lits(MID)
              + ([Star(HEX, true)] + (Lits("\"") + [])))),
            Texts(URL + "\"" + To(files, host)) + ([Group(1)] + (Texts(QUERY) + ([Group(2)]
              + (Texts(MID) + ([Group(2)] + (Texts("\"") + [])))))))
  }

  function LendPlain(files: string, host: string): Command {
    Command(SOURCE, Lits(URL + "\"" + From(host)) + [], Texts(URL + "\"" + To(files, host)) + [])
  }

  /** url = "FILES HOST/X?sha256=H"  ->  url = "https://HOST/X" */
  function BackHash(files: string, host: string): Command {
    Command(SOURCE,
            Lits(URL + "\"" + To(files, host)) + ([Star(NOT_QUERY, true)] + (Lits(QUERY)
              + ([Star(HEX, false)] + (Lits("\"") + [])))),
            Texts(URL + "\"" + From(host)) + ([Group(1)] + (Texts("\"") + [])))
  }

  function BackPlain(files: string, host: string): Command {
    Command(SOURCE, Lits(URL + "\"" + To(files, host)) + [], Texts(URL + "\"" + From(host)) + [])
  }

  function LendCommands(files: string, hosts: seq<string>): seq<Command> {
    if hosts == [] then []
    else
      LendCommands(files, hosts[..|hosts| - 1]) +
      [LendHash(files, hosts[|hosts| - 1]), LendPlain(files, hosts[|hosts| - 1])]
  }

  function BackCommands(files: string, hosts: seq<string>): seq<Command> {
    if hosts == [] then []
    else
      BackCommands(files, hosts[..|hosts| - 1]) +
      [BackHash(files, hosts[|hosts| - 1]), BackPlain(files, hosts[|hosts| - 1])]
  }

  // ---- the text -------------------------------------------------------------------------------

  /** Text that sed and the shell read as itself: in a pattern once escaped, in a replacement,
      and between the quotes. */
  predicate PlainForSed(text: string) {
    forall i :: 0 <= i < |text| ==>
      text[i] != '#' && text[i] != '&' && text[i] != '\\' && text[i] != '\'' && text[i] != '\n' && text[i] != '"'
  }

  function Script(pattern: string, replacement: string): string {
    "/" + SOURCE + "/!s#" + pattern + "#" + replacement + "#g"
  }

  // the starred sets, as the scripts spell them
  const HEX_TEXT: string := "[0-9a-f]*"
  const HEX_GROUP: string := "\\(" + HEX_TEXT + "\\)"
  const NOT_QUOTE_GROUP: string := "\\(" + "[^\"]*" + "\\)"
  const NOT_QUERY_GROUP: string := "\\(" + "[^\"?]*" + "\\)"

  function FromPattern(host: string): string {
    "url = \"https://" + Escaped(host) + "/"
  }

  function ToPattern(files: string, host: string): string {
    "url = \"" + Escaped(files + host + "/")
  }

  function LendHashScript(files: string, host: string): string {
    Script(FromPattern(host) + (NOT_QUOTE_GROUP + MID + HEX_GROUP + "\""),
           URL + "\"" + To(files, host) + ("\\1" + (QUERY + ("\\2" + (MID + ("\\2" + "\""))))))
  }

  function LendPlainScript(files: string, host: string): string {
    Script(FromPattern(host), URL + "\"" + To(files, host))
  }

  function BackHashScript(files: string, host: string): string {
    Script(ToPattern(files, host) + (NOT_QUERY_GROUP + QUERY + HEX_TEXT + "\""),
           URL + "\"" + From(host) + ("\\1" + "\""))
  }

  function BackPlainScript(files: string, host: string): string {
    Script(ToPattern(files, host), URL + "\"" + From(host))
  }

  method SedPattern(literal: string) returns (b: string)
    ensures b == Escaped(literal)
  {
    b := "";
    for i := 0 to |literal|
      invariant b == Escaped(literal[..i])
    {
      assert literal[..i + 1] == literal[..i] + [literal[i]];
      EscapedSnoc(literal[..i], literal[i]);
      if literal[i] in ".[]*^$\\" {
        b := b + "\\";
      }
      b := b + [literal[i]];
    }
    assert literal[..|literal|] == literal;
  }

  // ---- reading the text back --------------------------------------------------------------------

  lemma StarNotQuote(rest: string)
    ensures ParseStar("[^\"]*" + rest) == Some((NOT_QUOTE, rest))
  {
    var p := "[^\"]*" + rest;
    assert p[2..] == "\"]*" + rest;
    assert p[2..][1..] == "]*" + rest;
    assert p[2..][1..][1..] == "*" + rest;
    assert [] + [('"', '"')] == [('"', '"')];
    assert ParseRanges(p[2..][1..], [('"', '"')]) == Some(([('"', '"')], "*" + rest));
    assert ParseRanges(p[2..], []) == ParseRanges(p[2..][1..], [('"', '"')]);
    assert ("*" + rest)[1..] == rest;
  }

  lemma StarNotQuery(rest: string)
    ensures ParseStar("[^\"?]*" + rest) == Some((NOT_QUERY, rest))
  {
    var p := "[^\"?]*" + rest;
    assert p[2..] == "\"?]*" + rest;
    assert p[2..][1..] == "?]*" + rest;
    assert p[2..][1..][1..] == "]*" + rest;
    assert p[2..][1..][1..][1..] == "*" + rest;
    var one, two := [('"', '"')], [('"', '"'), ('?', '?')];
    assert [] + [('"', '"')] == one && one + [('?', '?')] == two;
    assert ParseRanges(p[2..][1..][1..], two) == Some((two, "*" + rest));
    assert ParseRanges(p[2..][1..], one) == ParseRanges(p[2..][1..][1..], two);
    assert ParseRanges(p[2..], []) == ParseRanges(p[2..][1..], one);
    assert ("*" + rest)[1..] == rest;
  }

  lemma StarHex(rest: string)
    ensures ParseStar("[0-9a-f]*" + rest) == Some((HEX, rest))
  {
    var p := "[0-9a-f]*" + rest;
    assert p[1..] == "0-9a-f]*" + rest;
    assert p[1..][3..] == "a-f]*" + rest;
    assert p[1..][3..][3..] == "]*" + rest;
    assert p[1..][3..][3..][1..] == "*" + rest;
    var one, two := [('0', '9')], [('0', '9'), ('a', 'f')];
    assert [] + [('0', '9')] == one && one + [('a', 'f')] == two;
    assert ParseRanges(p[1..][3..][3..], two) == Some((two, "*" + rest));
    assert ParseRanges(p[1..][3..], one) == ParseRanges(p[1..][3..][3..], two);
    assert ParseRanges(p[1..], []) == ParseRanges(p[1..][3..], one);
    assert ("*" + rest)[1..] == rest;
  }

  /** `\(`, a starred set and `\)`. */
  lemma ParseGroup(text: string, members: CharSet, rest: string)
    requires ParseStar(text + ("\\)" + rest)) == Some((members, "\\)" + rest))
    ensures ParseAtoms("\\(" + (text + ("\\)" + rest))) == Prepend(Star(members, true), ParseAtoms(rest))
  {
    var p := "\\(" + (text + ("\\)" + rest));
    assert p[0] == '\\' && p[1] == '(' && p[2..] == text + ("\\)" + rest);
    assert "\\)" <= "\\)" + rest && ("\\)" + rest)[2..] == rest;
  }

  lemma ParseUngrouped(text: string, members: CharSet, rest: string)
    requires text != [] && text[0] == '[' && ParseStar(text + rest) == Some((members, rest))
    ensures ParseAtoms(text + rest) == Prepend(Star(members, false), ParseAtoms(rest))
  {
  }

  /** Literal text without special characters, in a pattern. */
  lemma ParsePlain(text: string, rest: string)
    requires forall i :: 0 <= i < |text| ==> !Special(text[i])
    ensures ParseAtoms(text + rest) == Join(Lits(text), ParseAtoms(rest))
  {
    EscapedPlain(text);
    ParseEscaped(text, rest);
  }

  lemma LitsAppend(a: string, b: string)
    ensures Lits(a + b) == Lits(a) + Lits(b) && Texts(a + b) == Texts(a) + Texts(b)
  {
  }

  lemma JoinThree(a: seq<Atom>, b: seq<Atom>, c: seq<Atom>, rest: Option<seq<Atom>>)
    ensures Join(a, Join(b, Join(c, rest))) == Join(a + b + c, rest)
  {
    if rest.Some? {
      assert a + (b + (c + rest.value)) == a + b + c + rest.value;
    }
  }

  /** A literal between plain text. */
  lemma ParseAround(head: string, literal: string, tail: string, rest: string)
    requires forall i :: 0 <= i < |head| ==> !Special(head[i])
    requires forall i :: 0 <= i < |tail| ==> !Special(tail[i])
    ensures ParseAtoms(head + Escaped(literal) + tail + rest) == Join(Lits(head + literal + tail), ParseAtoms(rest))
  {
    ParsePlain(tail, rest);
    ParseEscaped(literal, tail + rest);
    ParsePlain(head, Escaped(literal) + (tail + rest));
    assert head + Escaped(literal) + tail + rest == head + (Escaped(literal) + (tail + rest));
    JoinThree(Lits(head), Lits(literal), Lits(tail), ParseAtoms(rest));
    LitsAppend(head, literal);
    LitsAppend(head + literal, tail);
  }

  /** The start of a lending pattern: the host's own address. */
  lemma ParseFrom(host: string, rest: string)
    ensures ParseAtoms(FromPattern(host) + rest) ==
      Join(Lits(URL + "\"" + From(host)), ParseAtoms(rest))
  {
    ParseAround("url = \"https://", host, "/", rest);
    assert URL + "\"" + From(host) == "url = \"https://" + host + "/";
  }

  /** The start of a hand-back pattern: the cache's address, escaped as a whole. */
  lemma ParseTo(files: string, host: string, rest: string)
    ensures ParseAtoms(ToPattern(files, host) + rest) ==
      Join(Lits(URL + "\"" + To(files, host)), ParseAtoms(rest))
  {
    var head := "url = \"";
    ParseEscaped(files + host + "/", rest);
    ParsePlain(head, Escaped(files + host + "/") + rest);
    assert head + Escaped(files + host + "/") + rest == head + (Escaped(files + host + "/") + rest);
    LitsAppend(head, To(files, host));
    assert URL + "\"" == head;
    if ParseAtoms(rest).Some? {
      var tail := ParseAtoms(rest).value;
      assert Lits(head) + (Lits(To(files, host)) + tail) == Lits(head) + Lits(To(files, host)) + tail;
    }
  }

  lemma ParseQuote()
    ensures ParseAtoms("\"") == Some(Lits("\"") + []) && ParseAtoms("") == Some([])
  {
    ParsePlain("\"", "");
    assert "\"" + "" == "\"";
  }

  /** A pattern of a literal, a star, a literal, a star and a quote. */
  lemma ParseFive(head: string, lits: seq<Atom>, one: string, star: Atom, mid: string, two: string, star': Atom,
    end: string)
    requires ParseAtoms(end) == Some(Lits(end) + [])
    requires ParseAtoms(two + end) == Prepend(star', ParseAtoms(end))
    requires ParseAtoms(mid + (two + end)) == Join(Lits(mid), ParseAtoms(two + end))
    requires ParseAtoms(one + (mid + (two + end))) == Prepend(star, ParseAtoms(mid + (two + end)))
    requires ParseAtoms(head + (one + (mid + (two + end)))) == Join(lits, ParseAtoms(one + (mid + (two + end))))
    ensures ParseAtoms(head + (one + mid + two + end)) ==
      Some(lits + ([star] + (Lits(mid) + ([star'] + (Lits(end) + [])))))
  {
    assert one + mid + two + end == one + (mid + (two + end));
  }

  lemma Regroup(a: string, b: string, c: string, d: string)
    ensures a + b + c + d == a + (b + (c + d))
  {
  }

  /** A grouped star, given as one text. */
  lemma ParseGroupText(whole: string, text: string, members: CharSet, rest: string)
    requires whole == "\\(" + text + "\\)"
    requires ParseStar(text + ("\\)" + rest)) == Some((members, "\\)" + rest))
    ensures ParseAtoms(whole + rest) == Prepend(Star(members, true), ParseAtoms(rest))
  {
    ParseGroup(text, members, rest);
    Regroup("\\(", text, "\\)", rest);
  }

  lemma LendHashPattern(files: string, host: string)
    ensures ParseAtoms(FromPattern(host) + (NOT_QUOTE_GROUP + MID + HEX_GROUP + "\"")) ==
      Some(LendHash(files, host).atoms)
  {
    ParseQuote();
    StarHex("\\)" + "\"");
    ParseGroupText(HEX_GROUP, HEX_TEXT, HEX, "\"");
    ParsePlain(MID, HEX_GROUP + "\"");
    StarNotQuote("\\)" + (MID + (HEX_GROUP + "\"")));
    ParseGroupText(NOT_QUOTE_GROUP, "[^\"]*", NOT_QUOTE, MID + (HEX_GROUP + "\""));
    ParseFrom(host, NOT_QUOTE_GROUP + (MID + (HEX_GROUP + "\"")));
    ParseFive(FromPattern(host), Lits(URL + "\"" + From(host)),
              NOT_QUOTE_GROUP, Star(NOT_QUOTE, true), MID, HEX_GROUP, Star(HEX, true), "\"");
  }

  lemma BackHashPattern(files: string, host: string)
    ensures ParseAtoms(ToPattern(files, host) + (NOT_QUERY_GROUP + QUERY + HEX_TEXT + "\"")) ==
      Some(BackHash(files, host).atoms)
  {
    ParseQuote();
    StarHex("\"");
    ParseUngrouped(HEX_TEXT, HEX, "\"");
    ParsePlain(QUERY, HEX_TEXT + "\"");
    StarNotQuery("\\)" + (QUERY + (HEX_TEXT + "\"")));
    ParseGroupText(NOT_QUERY_GROUP, "[^\"?]*", NOT_QUERY, QUERY + (HEX_TEXT + "\""));
    ParseTo(files, host, NOT_QUERY_GROUP + (QUERY + (HEX_TEXT + "\"")));
    ParseFive(ToPattern(files, host), Lits(URL + "\"" + To(files, host)),
              NOT_QUERY_GROUP, Star(NOT_QUERY, true), QUERY, HEX_TEXT, Star(HEX, false), "\"");
  }

  lemma ParseGroupPiece(digit: char, rest: string)
    requires '1' <= digit <= '9'
    ensures ParsePieces(['\\', digit] + rest) == Prepend(Group((digit - '0') as nat), ParsePieces(rest))
  {
    assert (['\\', digit] + rest)[2..] == rest;
  }

  lemma PiecesTail(q: string, mid: string, end: string)
    requires PlainPieces(q) && PlainPieces(mid) && PlainPieces(end)
    ensures ParsePieces("\\1" + (q + ("\\2" + (mid + ("\\2" + end))))) ==
      Some([Group(1)] + (Texts(q) + ([Group(2)] + (Texts(mid) + ([Group(2)] + (Texts(end) + []))))))
  {
    assert end + "" == end && ParsePieces("") == Some([]);
    ParseTexts(end, "");
    ParseGroupPiece('2', end);
    ParseTexts(mid, "\\2" + end);
    ParseGroupPiece('2', mid + ("\\2" + end));
    ParseTexts(q, "\\2" + (mid + ("\\2" + end)));
    ParseGroupPiece('1', q + ("\\2" + (mid + ("\\2" + end))));
  }

  predicate PlainPieces(text: string) {
    forall i :: 0 <= i < |text| ==> PlainText(text[i])
  }

  lemma LendHashReplacement(files: string, host: string)
    requires PlainForSed(files) && PlainForSed(host)
    ensures ParsePieces(URL + "\"" + To(files, host) + ("\\1" + (QUERY + ("\\2" + (MID + ("\\2" + "\"")))))) ==
      Some(LendHash(files, host).pieces)
  {
    PiecesTail(QUERY, MID, "\"");
    ParseTexts(URL + "\"" + To(files, host), "\\1" + (QUERY + ("\\2" + (MID + ("\\2" + "\"")))));
  }

  lemma BackHashReplacement(files: string, host: string)
    requires PlainForSed(host)
    ensures ParsePieces(URL + "\"" + From(host) + ("\\1" + "\"")) == Some(BackHash(files, host).pieces)
  {
    ParseTexts("\"", "");
    assert "\"" + "" == "\"" && ParsePieces("") == Some([]);
    ParseGroupPiece('1', "\"");
    ParseTexts(URL + "\"" + From(host), "\\1" + "\"");
  }

  // ---- each script ------------------------------------------------------------------------------

  lemma {:induction false} EscapedNoHash(text: string)
    requires '#' !in text && '\'' !in text
    ensures '#' !in Escaped(text) && '\'' !in Escaped(text)
  {
    if text != [] {
      assert text == [text[0]] + text[1..];
      EscapedNoHash(text[1..]);
    }
  }

  predicate Bare(text: string) {
    '#' !in text && '\'' !in text
  }

  lemma BareJoin(a: string, b: string)
    requires Bare(a) && Bare(b)
    ensures Bare(a + b)
  {
  }

  lemma PlainIsBare(text: string)
    requires PlainForSed(text)
    ensures Bare(text)
  {
  }

  lemma PatternsBare(files: string, host: string)
    requires PlainForSed(files) && PlainForSed(host)
    ensures Bare(FromPattern(host)) && Bare(ToPattern(files, host))
    ensures Bare(URL + "\"" + From(host)) && Bare(URL + "\"" + To(files, host))
  {
    PlainIsBare(files);
    PlainIsBare(host);
    EscapedNoHash(host);
    BareJoin(files, host);
    BareJoin(files + host, "/");
    EscapedNoHash(files + host + "/");
    BareJoin("url = \"", Escaped(files + host + "/"));
    BareJoin("url = \"https://", Escaped(host));
    BareJoin("url = \"https://" + Escaped(host), "/");
    BareJoin("https://", host);
    BareJoin("https://" + host, "/");
    BareJoin(URL + "\"", From(host));
    BareJoin(URL + "\"", To(files, host));
  }

  lemma BareParts()
    ensures Bare(NOT_QUOTE_GROUP + MID + HEX_GROUP + "\"") && Bare(NOT_QUERY_GROUP + QUERY + HEX_TEXT + "\"")
    ensures Bare("\\1" + (QUERY + ("\\2" + (MID + ("\\2" + "\""))))) && Bare("\\1" + "\"")
  {
    BareJoin("\\(" + HEX_TEXT, "\\)");
    BareJoin(NOT_QUOTE_GROUP, MID);
    BareJoin(NOT_QUOTE_GROUP + MID, HEX_GROUP);
    BareJoin(NOT_QUERY_GROUP, QUERY);
    BareJoin(NOT_QUERY_GROUP + QUERY, HEX_TEXT);
    BareJoin("\\2", "\"");
    BareJoin(MID, "\\2" + "\"");
    BareJoin("\\2", MID + ("\\2" + "\""));
    BareJoin(QUERY, "\\2" + (MID + ("\\2" + "\"")));
  }

  /** sed reads the four scripts of a host as the four commands. */
  lemma ScriptsRead(files: string, host: string)
    requires PlainForSed(files) && PlainForSed(host)
    ensures ParseScript(LendHashScript(files, host)) == Some(LendHash(files, host))
    ensures ParseScript(LendPlainScript(files, host)) == Some(LendPlain(files, host))
    ensures ParseScript(BackHashScript(files, host)) == Some(BackHash(files, host))
    ensures ParseScript(BackPlainScript(files, host)) == Some(BackPlain(files, host))
  {
    PatternsBare(files, host);
    BareParts();
    HashScriptsRead(files, host);
    PlainScriptsRead(files, host);
  }

  lemma HashScriptsRead(files: string, host: string)
    requires PlainForSed(files) && PlainForSed(host)
    requires Bare(FromPattern(host)) && Bare(ToPattern(files, host))
    requires Bare(URL + "\"" + From(host)) && Bare(URL + "\"" + To(files, host))
    requires Bare(NOT_QUOTE_GROUP + MID + HEX_GROUP + "\"") && Bare(NOT_QUERY_GROUP + QUERY + HEX_TEXT + "\"")
    requires Bare("\\1" + (QUERY + ("\\2" + (MID + ("\\2" + "\""))))) && Bare("\\1" + "\"")
    ensures ParseScript(LendHashScript(files, host)) == Some(LendHash(files, host))
    ensures ParseScript(BackHashScript(files, host)) == Some(BackHash(files, host))
  {
    LendHashPattern(files, host);
    LendHashReplacement(files, host);
    ParseScriptIs(FromPattern(host) + (NOT_QUOTE_GROUP + MID + HEX_GROUP + "\""),
                  URL + "\"" + To(files, host) + ("\\1" + (QUERY + ("\\2" + (MID + ("\\2" + "\""))))));
    BackHashPattern(files, host);
    BackHashReplacement(files, host);
    ParseScriptIs(ToPattern(files, host) + (NOT_QUERY_GROUP + QUERY + HEX_TEXT + "\""),
                  URL + "\"" + From(host) + ("\\1" + "\""));
  }

  lemma PlainScriptsRead(files: string, host: string)
    requires PlainForSed(files) && PlainForSed(host)
    requires Bare(FromPattern(host)) && Bare(ToPattern(files, host))
    requires Bare(URL + "\"" + From(host)) && Bare(URL + "\"" + To(files, host))
    ensures ParseScript(LendPlainScript(files, host)) == Some(LendPlain(files, host))
    ensures ParseScript(BackPlainScript(files, host)) == Some(BackPlain(files, host))
  {
    var to, from := URL + "\"" + To(files, host), URL + "\"" + From(host);
    ParseQuote();
    assert FromPattern(host) + "" == FromPattern(host) && ToPattern(files, host) + "" == ToPattern(files, host);
    ParseFrom(host, "");
    ParseTo(files, host, "");
    assert to + "" == to && from + "" == from && ParsePieces("") == Some([]);
    ParseTexts(to, "");
    ParseTexts(from, "");
    ParseScriptIs(FromPattern(host), to);
    ParseScriptIs(ToPattern(files, host), from);
  }

  // ---- the shell's words ------------------------------------------------------------------------

  function Argument(script: string): string {
    "-e '" + script + "'"
  }

  /** strings.Join of the arguments. */
  function Arguments(scripts: seq<string>): string {
    if scripts == [] then ""
    else if |scripts| == 1 then Argument(scripts[0])
    else Arguments(scripts[..|scripts| - 1]) + " " + Argument(scripts[|scripts| - 1])
  }

  /** Up to the closing quote, and after it. */
  function CutQuote(s: string): (r: Option<(string, string)>)
    ensures r.Some? ==> |r.value.1| < |s|
  {
    if s == [] then None
    else if s[0] == '\'' then Some(([], s[1..]))
    else
      var rest := CutQuote(s[1..]);
      if rest.Some? then Some(([s[0]] + rest.value.0, rest.value.1)) else None
  }

  /** The shell splits the text into `-e` options whose words stand between single quotes, and
      sed parses each. */
  function ReadCommands(text: string): Option<seq<Command>>
    decreases |text|
  {
    var body := if text != [] && text[0] == ' ' then text[1..] else text;
    if body == [] then Some([])
    else if !("-e '" <= body) then None
    else
      match CutQuote(body[4..])
      case None => None
      case Some((script, rest)) =>
        match ParseScript(script)
        case None => None
        case Some(command) => Prepend(command, ReadCommands(rest))
  }

  lemma {:induction false} CutQuoteFinds(a: string, rest: string)
    requires '\'' !in a
    ensures CutQuote(a + "'" + rest) == Some((a, rest))
  {
    var s := a + "'" + rest;
    if a == [] {
      assert s[1..] == rest;
    } else {
      assert s[1..] == a[1..] + "'" + rest;
      CutQuoteFinds(a[1..], rest);
      assert a == [a[0]] + a[1..];
    }
  }

  lemma ReadArgument(script: string, command: Command, rest: string)
    requires '\'' !in script && ParseScript(script) == Some(command)
    ensures ReadCommands(Argument(script) + rest) == Prepend(command, ReadCommands(rest))
    ensures ReadCommands(" " + Argument(script) + rest) == Prepend(command, ReadCommands(rest))
  {
    var text := Argument(script) + rest;
    assert text[4..] == script + "'" + rest;
    CutQuoteFinds(script, rest);
    assert "-e '" <= text;
    assert (" " + Argument(script) + rest)[1..] == text;
  }

  ghost predicate Reads(scripts: seq<string>, commands: seq<Command>) {
    && |scripts| == |commands|
    && forall i :: 0 <= i < |scripts| ==> '\'' !in scripts[i] && ParseScript(scripts[i]) == Some(commands[i])
  }

  /** `read` takes the argument off the front of a text. */
  ghost predicate TakesOff(read: string -> Option<seq<Command>>, argument: string, command: Command) {
    forall rest: string ::
      && read(argument + rest) == Prepend(command, read(rest))
      && read(" " + argument + rest) == Prepend(command, read(rest))
  }

  lemma {:induction false} ReadEach(
    read: string -> Option<seq<Command>>, scripts: seq<string>, commands: seq<Command>, rest: string)
    requires |scripts| == |commands|
    requires forall i :: 0 <= i < |scripts| ==> TakesOff(read, Argument(scripts[i]), commands[i])
    ensures read(Arguments(scripts) + rest) == Join(commands, read(rest))
    decreases |scripts|
  {
    if scripts == [] {
      assert Arguments(scripts) + rest == rest;
      assert read(rest).Some? ==> commands + read(rest).value == read(rest).value;
    } else {
      var n := |scripts| - 1;
      var last := Argument(scripts[n]);
      assert TakesOff(read, last, commands[n]);
      if n == 0 {
        assert commands == [commands[0]];
        assert read(last + rest) == Prepend(commands[0], read(rest));
      } else {
        ReadEach(read, scripts[..n], commands[..n], " " + last + rest);
        EachStep(read, Arguments(scripts[..n]), last, commands, rest);
      }
    }
  }

  lemma EachStep(read: string -> Option<seq<Command>>, before: string, last: string, commands: seq<Command>,
    rest: string)
    requires commands != []
    requires var n := |commands| - 1;
      && read(before + (" " + last + rest)) == Join(commands[..n], read(" " + last + rest))
      && read(" " + last + rest) == Prepend(commands[n], read(rest))
    ensures read(before + " " + last + rest) == Join(commands, read(rest))
  {
    JoinLast(commands, read(rest));
    assert before + " " + last + rest == before + (" " + last + rest);
  }

  lemma ReadArguments(scripts: seq<string>, commands: seq<Command>)
    requires Reads(scripts, commands)
    ensures ReadCommands(Arguments(scripts)) == Some(commands)
  {
    var read := (text: string) => ReadCommands(text);
    forall i | 0 <= i < |scripts| ensures TakesOff(read, Argument(scripts[i]), commands[i]) {
      forall rest: string
        ensures read(Argument(scripts[i]) + rest) == Prepend(commands[i], read(rest))
        ensures read(" " + Argument(scripts[i]) + rest) == Prepend(commands[i], read(rest))
      {
        ReadArgument(scripts[i], commands[i], rest);
      }
    }
    ReadEach(read, scripts, commands, "");
    assert Arguments(scripts) + "" == Arguments(scripts) && commands + [] == commands;
  }

  lemma JoinLast(commands: seq<Command>, rest: Option<seq<Command>>)
    requires commands != []
    ensures var n := |commands| - 1; Join(commands[..n], Prepend(commands[n], rest)) == Join(commands, rest)
  {
    var n := |commands| - 1;
    if rest.Some? {
      assert commands[..n] + ([commands[n]] + rest.value) == commands + rest.value;
    }
  }

  // ---- lockSed ----------------------------------------------------------------------------------

  predicate HostChar(c: char) {
    'a' <= c <= 'z' || '0' <= c <= '9' || c == '.' || c == '-'
  }

  predicate HostName(host: string) {
    forall i :: 0 <= i < |host| ==> HostChar(host[i])
  }

  lemma HostNameIsPlain(host: string)
    requires HostName(host)
    ensures PlainForSed(host)
  {
  }

  lemma HostsNamed(i: nat)
    requires i < |HOSTS|
    ensures HostName(HOSTS[i])
  {
    match i
    case 0 => assert HOSTS[i] == "files.pythonhosted.org";
    case 1 => assert HOSTS[i] == "download.pytorch.org";
    case 2 => assert HOSTS[i] == "download-r2.pytorch.org";
    case 3 => assert HOSTS[i] == "pypi.nvidia.com";
    case _ => assert HOSTS[i] == "flashinfer.ai";
  }

  lemma HostsPlain()
    ensures forall i :: 0 <= i < |HOSTS| ==> PlainForSed(HOSTS[i])
  {
    forall i | 0 <= i < |HOSTS| ensures PlainForSed(HOSTS[i]) {
      HostsNamed(i);
      HostNameIsPlain(HOSTS[i]);
    }
  }

  lemma ReadsSnoc(scripts: seq<string>, commands: seq<Command>, script: string, command: Command)
    requires Reads(scripts, commands) && '\'' !in script && ParseScript(script) == Some(command)
    ensures Reads(scripts + [script], commands + [command])
  {
  }

  lemma ScriptsBare(files: string, host: string)
    requires PlainForSed(files) && PlainForSed(host)
    ensures '\'' !in LendHashScript(files, host) && '\'' !in LendPlainScript(files, host)
    ensures '\'' !in BackHashScript(files, host) && '\'' !in BackPlainScript(files, host)
  {
    PatternsBare(files, host);
    BareParts();
  }

  method JoinArguments(scripts: seq<string>) returns (text: string)
    ensures text == Arguments(scripts)
  {
    text := "";
    for i := 0 to |scripts|
      invariant text == Arguments(scripts[..i])
    {
      assert scripts[..i + 1][..i] == scripts[..i];
      text := if i == 0 then Argument(scripts[i]) else text + " " + Argument(scripts[i]);
    }
    assert scripts[..|scripts|] == scripts;
  }

  /** The arguments of the two sed calls: the shell and sed read in them, in order, each
      host's commands to lend its addresses and to hand them back. */
  method LockSed(files: string) returns (lend: string, handBack: string)
    ensures PlainForSed(files) ==>
      ReadCommands(lend) == Some(LendCommands(files, HOSTS))
        && ReadCommands(handBack) == Some(BackCommands(files, HOSTS))
  {
    var there, back: seq<string> := [], [];
    HostsPlain();
    for i := 0 to |HOSTS|
      invariant PlainForSed(files) ==>
        Reads(there, LendCommands(files, HOSTS[..i])) && Reads(back, BackCommands(files, HOSTS[..i]))
    {
      var host := HOSTS[i];
      var escapedHost := SedPattern(host);
      var cached := SedPattern(files + host + "/");
      var from, to := "url = \"https://" + escapedHost + "/", URL + "\"" + To(files, host);
      var address := URL + "\"" + From(host);
      there := there + [
        Script(from + (NOT_QUOTE_GROUP + MID + HEX_GROUP + "\""), to +
          ("\\1" + (QUERY + ("\\2" + (MID + ("\\2" + "\"")))))),
        Script(from, to)];
      back := back + [
        Script("url = \"" + cached + (NOT_QUERY_GROUP + QUERY + HEX_TEXT + "\""), address + ("\\1" + "\"")),
        Script("url = \"" + cached, address)];
      if PlainForSed(files) {
        assert HOSTS[..i + 1][..i] == HOSTS[..i];
        HostReads(files, HOSTS[..i + 1], there, back);
      }
    }
    assert HOSTS[..|HOSTS|] == HOSTS;
    lend := JoinArguments(there);
    handBack := JoinArguments(back);
    if PlainForSed(files) {
      ReadArguments(there, LendCommands(files, HOSTS));
      ReadArguments(back, BackCommands(files, HOSTS));
    }
  }

  /** One more host's two scripts each way. */
  lemma HostReads(files: string, hosts: seq<string>, there: seq<string>, back: seq<string>)
    requires PlainForSed(files) && hosts != [] && PlainForSed(hosts[|hosts| - 1])
    requires |there| >= 2 && |back| >= 2
    requires var host, n := hosts[|hosts| - 1], |hosts| - 1;
      && there[|there| - 2..] == [LendHashScript(files, host), LendPlainScript(files, host)]
      && back[|back| - 2..] == [BackHashScript(files, host), BackPlainScript(files, host)]
      && Reads(there[..|there| - 2], LendCommands(files, hosts[..n]))
      && Reads(back[..|back| - 2], BackCommands(files, hosts[..n]))
    ensures Reads(there, LendCommands(files, hosts)) && Reads(back, BackCommands(files, hosts))
  {
    var host, n := hosts[|hosts| - 1], |hosts| - 1;
    ScriptsRead(files, host);
    ScriptsBare(files, host);
    var lends, backs := LendCommands(files, hosts[..n]), BackCommands(files, hosts[..n]);
    ReadsSnoc(there[..|there| - 2], lends, LendHashScript(files, host), LendHash(files, host));
    ReadsSnoc(there[..|there| - 2] + [LendHashScript(files, host)], lends + [LendHash(files, host)],
              LendPlainScript(files, host), LendPlain(files, host));
    ReadsSnoc(back[..|back| - 2], backs, BackHashScript(files, host), BackHash(files, host));
    ReadsSnoc(back[..|back| - 2] + [BackHashScript(files, host)], backs + [BackHash(files, host)],
              BackPlainScript(files, host), BackPlain(files, host));
    LastTwo(there, LendHashScript(files, host), LendPlainScript(files, host));
    LastTwo(back, BackHashScript(files, host), BackPlainScript(files, host));
    assert lends + [LendHash(files, host)] + [LendPlain(files, host)] == LendCommands(files, hosts);
    assert backs + [BackHash(files, host)] + [BackPlain(files, host)] == BackCommands(files, hosts);
  }

  lemma LastTwo(s: seq<string>, a: string, b: string)
    requires |s| >= 2 && s[|s| - 2..] == [a, b]
    ensures s == s[..|s| - 2] + [a] + [b]
  {
    assert s == s[..|s| - 2] + s[|s| - 2..];
  }
}
