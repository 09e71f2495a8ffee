/** sed, as far as the lock rewriting uses it: `-e '/word/!s#pattern#replacement#g'`, with
    basic regular expressions of literals and starred bracket sets. Text outside that subset
    does not parse. */
module Sed {
  import opened Types

  // ---- patterns -------------------------------------------------------------------------------

  datatype CharSet = CharSet(invert: bool, ranges: seq<(char, char)>)

  predicate Member(members: CharSet, c: char) {
    (exists i :: 0 <= i < |members.ranges| && members.ranges[i].0 <= c <= members.ranges[i].1) != members.invert
  }

  datatype Atom = Lit(c: char) | Star(members: CharSet, group: bool)

  datatype Match = Match(length: nat, groups: seq<string>)

  /** The longest run of members at the front of s. */
  function Span(members: CharSet, s: string): (n: nat)
    ensures n <= |s|
    ensures forall i :: 0 <= i < n ==> Member(members, s[i])
    ensures n < |s| ==> !Member(members, s[n])
  {
    if s != [] && Member(members, s[0]) then 1 + Span(members, s[1..]) else 0
  }

  function Longer(m: Option<Match>, more: nat, group: seq<string>): Option<Match> {
    if m.Some? then Some(Match(more + m.value.length, group + m.value.groups)) else None
  }

  /** A match at the front of s, each star as long as the rest allows. */
  function MatchAtoms(atoms: seq<Atom>, s: string): (m: Option<Match>)
    ensures m.Some? ==> m.value.length <= |s|
    decreases |atoms|, |s| + 1
  {
    if atoms == [] then Some(Match(0, []))
    else
      match atoms[0]
      case Lit(c) =>
        if s != [] && s[0] == c then Longer(MatchAtoms(atoms[1..], s[1..]), 1, []) else None
      case Star(members, _) => MatchStar(atoms, s, Span(members, s))
  }

  function MatchStar(atoms: seq<Atom>, s: string, n: nat): (m: Option<Match>)
    requires atoms != [] && atoms[0].Star? && n <= |s|
    ensures m.Some? ==> m.value.length <= |s|
    decreases |atoms|, n
  {
    var m := MatchAtoms(atoms[1..], s[n..]);
    if m.Some? then Longer(m, n, if atoms[0].group then [s[..n]] else [])
    else if n == 0 then None
    else MatchStar(atoms, s, n - 1)
  }

  // ---- substitution ---------------------------------------------------------------------------

  datatype Piece = Text(c: char) | Group(n: nat)

  function RenderPiece(piece: Piece, groups: seq<string>): string {
    match piece
    case Text(c) => [c]
    case Group(n) => if 1 <= n <= |groups| then groups[n - 1] else []
  }

  function Render(pieces: seq<Piece>, groups: seq<string>): string {
    if pieces == [] then [] else RenderPiece(pieces[0], groups) + Render(pieces[1..], groups)
  }

  lemma RenderCons(piece: Piece, rest: seq<Piece>, groups: seq<string>)
    ensures Render([piece] + rest, groups) == RenderPiece(piece, groups) + Render(rest, groups)
  {
    assert ([piece] + rest)[1..] == rest;
  }

  datatype Command = Command(guard: string, atoms: seq<Atom>, pieces: seq<Piece>)

  /** s///g: every match, left to right, none inside another. */
  function Substitute(c: Command, s: string): string
    decreases |s|
  {
    if s == [] then []
    else
      var m := MatchAtoms(c.atoms, s);
      if m.Some? && m.value.length > 0 then
        Render(c.pieces, m.value.groups) + Substitute(c, s[m.value.length..])
      else [s[0]] + Substitute(c, s[1..])
  }

  predicate Contains(s: string, word: string) {
    exists i :: 0 <= i <= |s| && word <= s[i..]
  }

  function Apply(c: Command, line: string): string {
    if Contains(line, c.guard) then line else Substitute(c, line)
  }

  /** The commands of one sed call, in order, on one line. */
  function RunLine(commands: seq<Command>, line: string): string {
    if commands == [] then line else RunLine(commands[1..], Apply(commands[0], line))
  }

  /** sed on a file, line by line. */
  function Run(commands: seq<Command>, lines: seq<string>): seq<string> {
    seq(|lines|, i requires 0 <= i < |lines| => RunLine(commands, lines[i]))
  }

  // ---- parsing --------------------------------------------------------------------------------

  /** What sedPattern escapes. */
  predicate Special(c: char) {
    c == '.' || c == '[' || c == ']' || c == '*' || c == '^' || c == '$' || c == '\\'
  }

  function ParseRanges(p: string, acc: seq<(char, char)>): (r: Option<(seq<(char, char)>, string)>)
    ensures r.Some? ==> |r.value.1| < |p|
  {
    if p == [] then None
    else if p[0] == ']' && acc != [] then Some((acc, p[1..]))
    else if |p| >= 3 && p[1] == '-' && p[2] != ']' then ParseRanges(p[3..], acc + [(p[0], p[2])])
    else ParseRanges(p[1..], acc + [(p[0], p[0])])
  }

  /** A bracket set and its star. */
  function ParseStar(p: string): (r: Option<(CharSet, string)>)
    ensures r.Some? ==> |r.value.1| < |p|
  {
    if p == [] || p[0] != '[' then None
    else
      var invert := |p| > 1 && p[1] == '^';
      var body := ParseRanges(if invert then p[2..] else p[1..], []);
      if body.Some? && body.value.1 != [] && body.value.1[0] == '*' then
        Some((CharSet(invert, body.value.0), body.value.1[1..]))
      else None
  }

  function Prepend<T>(x: T, rest: Option<seq<T>>): Option<seq<T>> {
    if rest.Some? then Some([x] + rest.value) else None
  }

  function ParseAtoms(p: string): Option<seq<Atom>>
    decreases |p|
  {
    if p == [] then Some([])
    else if p[0] == '\\' then
      if |p| < 2 then None
      else if p[1] == '(' then
        var star := ParseStar(p[2..]);
        if star.Some? && "\\)" <= star.value.1 then
          Prepend(Star(star.value.0, true), ParseAtoms(star.value.1[2..]))
        else None
      else if Special(p[1]) then Prepend(Lit(p[1]), ParseAtoms(p[2..]))
      else None
    else if p[0] == '[' then
      var star := ParseStar(p);
      if star.Some? then Prepend(Star(star.value.0, false), ParseAtoms(star.value.1)) else None
    else if Special(p[0]) then None
    else Prepend(Lit(p[0]), ParseAtoms(p[1..]))
  }

  function ParsePieces(r: string): Option<seq<Piece>> {
    if r == [] then Some([])
    else if r[0] == '&' then None
    else if r[0] == '\\' then
      if |r| > 1 && '1' <= r[1] <= '9' then Prepend(Group((r[1] - '0') as nat), ParsePieces(r[2..]))
      else None
    else Prepend(Text(r[0]), ParsePieces(r[1..]))
  }

  /** Up to the first `#`, and after it. */
  function CutHash(s: string): (r: Option<(string, string)>)
  {
    if s == [] then None
    else if s[0] == '#' then Some(([], s[1..]))
    else
      var rest := CutHash(s[1..]);
      if rest.Some? then Some(([s[0]] + rest.value.0, rest.value.1)) else None
  }

  const SOURCE: string := "source = "

  function ParseScript(t: string): Option<Command> {
    var head := "/" + SOURCE + "/!s#";
    if !(head <= t) then None
    else
      match CutHash(t[|head|..])
      case None => None
      case Some((pattern, rest)) =>
        match CutHash(rest)
        case None => None
        case Some((replacement, flags)) =>
          var atoms, pieces := ParseAtoms(pattern), ParsePieces(replacement);
          if flags == "g" && atoms.Some? && pieces.Some? then
            Some(Command(SOURCE, atoms.value, pieces.value))
          else None
  }

  // ---- matching literals and stars ------------------------------------------------------------

  function Lits(text: string): seq<Atom> {
    seq(|text|, i requires 0 <= i < |text| => Lit(text[i]))
  }

  function Texts(text: string): seq<Piece> {
    seq(|text|, i requires 0 <= i < |text| => Text(text[i]))
  }

  lemma LongerTwice(m: Option<Match>, a: nat, b: nat, g: seq<string>)
    ensures Longer(Longer(m, a, g), b, []) == Longer(m, a + b, g)
  {
    if m.Some? {
      assert [] + (g + m.value.groups) == g + m.value.groups;
    }
  }

  lemma {:induction false} LitsMatch(text: string, rest: seq<Atom>, s: string)
    ensures MatchAtoms(Lits(text) + rest, s) ==
      if text <= s then Longer(MatchAtoms(rest, s[|text|..]), |text|, []) else None
  {
    if text == [] {
      assert Lits(text) + rest == rest && s[0..] == s;
      var m := MatchAtoms(rest, s);
      if m.Some? {
        assert [] + m.value.groups == m.value.groups;
      }
    } else {
      assert (Lits(text) + rest)[1..] == Lits(text[1..]) + rest;
      if s != [] && s[0] == text[0] {
        LitsMatch(text[1..], rest, s[1..]);
        assert text == [text[0]] + text[1..] && s == [s[0]] + s[1..];
        assert text <= s <==> text[1..] <= s[1..];
        if text <= s {
          assert s[1..][|text[1..]|..] == s[|text|..];
          LongerTwice(MatchAtoms(rest, s[|text|..]), |text| - 1, 1, []);
        }
      }
    }
  }

  /** Where s stops being made of members. */
  lemma {:induction false} SpanIs(members: CharSet, s: string, n: nat)
    requires n <= |s| && (forall i :: 0 <= i < n ==> Member(members, s[i]))
    requires n < |s| ==> !Member(members, s[n])
    ensures Span(members, s) == n
  {
    if n > 0 {
      SpanIs(members, s[1..], n - 1);
    }
  }

  /** A star before a literal outside its set matches only up to where its members end. */
  lemma {:induction false} ShorterFails(star: Atom, c: char, rest: seq<Atom>, s: string, n: nat)
    requires star.Star? && !Member(star.members, c) && n < Span(star.members, s)
    ensures MatchStar([star, Lit(c)] + rest, s, n).None?
  {
    var atoms := [star, Lit(c)] + rest;
    assert atoms[1..] == [Lit(c)] + rest;
    assert s[n..][0] == s[n];
    if n > 0 {
      ShorterFails(star, c, rest, s, n - 1);
    }
  }

  lemma LitFirst(c: char, rest: seq<Atom>, s: string)
    ensures MatchAtoms([Lit(c)] + rest, s) ==
      if s != [] && s[0] == c then Longer(MatchAtoms(rest, s[1..]), 1, []) else None
  {
    assert ([Lit(c)] + rest)[1..] == rest;
  }

  lemma LongerGroup(m: Option<Match>, n: nat, g: seq<string>)
    ensures Longer(Longer(m, 1, []), n, g) == Longer(m, n + 1, g)
  {
    if m.Some? {
      assert g + ([] + m.value.groups) == g + m.value.groups;
    }
  }

  /** The first try decides. */
  lemma FirstTry(atoms: seq<Atom>, s: string, n: nat)
    requires atoms != [] && atoms[0].Star? && n <= |s|
    requires n > 0 ==> MatchStar(atoms, s, n - 1).None?
    ensures MatchStar(atoms, s, n) ==
      Longer(MatchAtoms(atoms[1..], s[n..]), n, if atoms[0].group then [s[..n]] else [])
  {
  }

  /** What a star and the literal after it come to when the star takes n characters. */
  function StarLit(star: Atom, c: char, rest: seq<Atom>, s: string, n: nat): Option<Match>
    requires star.Star? && n <= |s|
  {
    if n < |s| && s[n] == c then
      Longer(MatchAtoms(rest, s[n + 1..]), n + 1, if star.group then [s[..n]] else [])
    else None
  }

  lemma StarLitTry(star: Atom, c: char, rest: seq<Atom>, s: string, n: nat)
    requires star.Star? && n <= |s|
    ensures Longer(MatchAtoms([Lit(c)] + rest, s[n..]), n, if star.group then [s[..n]] else []) ==
      StarLit(star, c, rest, s, n)
  {
    LitFirst(c, rest, s[n..]);
    if n < |s| {
      assert s[n..][0] == s[n] && s[n..][1..] == s[n + 1..];
      LongerGroup(MatchAtoms(rest, s[n + 1..]), n, if star.group then [s[..n]] else []);
    }
  }

  lemma StarThenLit(star: Atom, c: char, rest: seq<Atom>, s: string)
    requires star.Star? && !Member(star.members, c)
    ensures MatchAtoms([star, Lit(c)] + rest, s) == StarLit(star, c, rest, s, Span(star.members, s))
  {
    var atoms := [star, Lit(c)] + rest;
    var n := Span(star.members, s);
    if n > 0 {
      ShorterFails(star, c, rest, s, n - 1);
    }
    FirstTry(atoms, s, n);
    assert atoms[1..] == [Lit(c)] + rest;
    StarLitTry(star, c, rest, s, n);
  }

  // ---- substituting where nothing matches -------------------------------------------------------

  predicate Misses(c: Command, s: string) {
    MatchAtoms(c.atoms, s).None?
  }

  lemma SubstituteOne(c: Command, x: char, s: string)
    requires Misses(c, [x] + s)
    ensures Substitute(c, [x] + s) == [x] + Substitute(c, s)
  {
    assert ([x] + s)[1..] == s;
  }

  /** No match of skip + s starts within skip. */
  predicate NoMatchIn(c: Command, skip: string, s: string) {
    skip == [] || (Misses(c, skip + s) && NoMatchIn(c, skip[1..], s))
  }

  /** Text in which no match starts is copied. */
  lemma {:induction false} SubstituteSkips(c: Command, skip: string, s: string)
    requires NoMatchIn(c, skip, s)
    ensures Substitute(c, skip + s) == skip + Substitute(c, s)
  {
    if skip == [] {
      assert skip + s == s;
    } else {
      SubstituteSkips(c, skip[1..], s);
      Regroup(skip, s);
      SubstituteOne(c, skip[0], skip[1..] + s);
      Regroup(skip, Substitute(c, s));
    }
  }

  lemma Regroup(a: string, b: string)
    requires a != []
    ensures a + b == [a[0]] + (a[1..] + b)
  {
  }

  // ---- parsing what sedPattern wrote ------------------------------------------------------------

  /** sedPattern, one character at a time. */
  function Escaped(text: string): string {
    if text == [] then [] else EscapedChar(text[0]) + Escaped(text[1..])
  }

  lemma {:induction false} EscapedSnoc(s: string, c: char)
    ensures Escaped(s + [c]) == Escaped(s) + EscapedChar(c)
  {
    if s == [] {
      assert Escaped([c]) == EscapedChar(c) + Escaped([]);
    } else {
      assert (s + [c])[1..] == s[1..] + [c];
      EscapedSnoc(s[1..], c);
    }
  }

  lemma {:induction false} EscapedPlain(text: string)
    requires forall i :: 0 <= i < |text| ==> !Special(text[i])
    ensures Escaped(text) == text
  {
    if text != [] {
      EscapedPlain(text[1..]);
      assert text == [text[0]] + text[1..];
    }
  }

  function Join<T>(a: seq<T>, b: Option<seq<T>>): Option<seq<T>> {
    if b.Some? then Some(a + b.value) else None
  }

  function EscapedChar(c: char): string {
    if Special(c) then ['\\', c] else [c]
  }

  lemma ParseEscapedChar(c: char, rest: string)
    ensures ParseAtoms(EscapedChar(c) + rest) == Prepend(Lit(c), ParseAtoms(rest))
  {
    var p := EscapedChar(c) + rest;
    if Special(c) {
      assert p[0] == '\\' && p[1] == c && p[2..] == rest;
    } else {
      assert p[0] == c && p[1..] == rest;
    }
  }

  lemma LitsJoin(c: char, text: string, rest: Option<seq<Atom>>)
    ensures Prepend(Lit(c), Join(Lits(text), rest)) == Join(Lits([c] + text), rest)
  {
    assert Lits([c] + text) == [Lit(c)] + Lits(text);
    if rest.Some? {
      assert Lits([c] + text) + rest.value == [Lit(c)] + (Lits(text) + rest.value);
    }
  }

  /** An escaped literal is read back as itself. */
  lemma {:induction false} ParseEscaped(text: string, rest: string)
    ensures ParseAtoms(Escaped(text) + rest) == Join(Lits(text), ParseAtoms(rest))
  {
    if text == [] {
      assert Escaped(text) + rest == rest;
      if ParseAtoms(rest).Some? {
        assert Lits(text) + ParseAtoms(rest).value == ParseAtoms(rest).value;
      }
    } else {
      ParseEscaped(text[1..], rest);
      ParseEscapedChar(text[0], Escaped(text[1..]) + rest);
      assert Escaped(text) + rest == EscapedChar(text[0]) + (Escaped(text[1..]) + rest);
      LitsJoin(text[0], text[1..], ParseAtoms(rest));
      assert text == [text[0]] + text[1..];
    }
  }

  predicate PlainText(c: char) {
    c != '&' && c != '\\'
  }

  lemma {:induction false} ParseTexts(text: string, rest: string)
    requires forall i :: 0 <= i < |text| ==> PlainText(text[i])
    ensures ParsePieces(text + rest) == Join(Texts(text), ParsePieces(rest))
  {
    if text == [] {
      assert text + rest == rest;
      if ParsePieces(rest).Some? {
        assert Texts(text) + ParsePieces(rest).value == ParsePieces(rest).value;
      }
    } else {
      assert (text + rest)[1..] == text[1..] + rest;
      ParseTexts(text[1..], rest);
      assert Texts(text) == [Text(text[0])] + Texts(text[1..]);
      if ParsePieces(rest).Some? {
        assert Texts(text) + ParsePieces(rest).value == [Text(text[0])] + (Texts(text[1..]) + ParsePieces(rest).value);
      }
    }
  }

  lemma {:induction false} RenderTexts(text: string, rest: seq<Piece>, groups: seq<string>)
    ensures Render(Texts(text) + rest, groups) == text + Render(rest, groups)
  {
    if text == [] {
      assert Texts(text) + rest == rest;
    } else {
      assert (Texts(text) + rest)[1..] == Texts(text[1..]) + rest;
      RenderTexts(text[1..], rest, groups);
      assert text == [text[0]] + text[1..];
    }
  }

  lemma {:induction false} CutHashFinds(a: string, rest: string)
    requires '#' !in a
    ensures CutHash(a + "#" + rest) == Some((a, rest))
  {
    var s := a + "#" + rest;
    if a == [] {
      assert s[1..] == rest;
    } else {
      assert s[1..] == a[1..] + "#" + rest;
      CutHashFinds(a[1..], rest);
      assert a == [a[0]] + a[1..];
    }
  }

  /** A script whose pattern and replacement have no `#` is read as the two of them. */
  lemma ParseScriptIs(pattern: string, replacement: string)
    requires '#' !in pattern && '#' !in replacement
    ensures var atoms, pieces := ParseAtoms(pattern), ParsePieces(replacement);
      ParseScript("/" + SOURCE + "/!s#" + pattern + "#" + replacement + "#g") ==
      if atoms.Some? && pieces.Some? then Some(Command(SOURCE, atoms.value, pieces.value)) else None
  {
    var head := "/" + SOURCE + "/!s#";
    var t := head + pattern + "#" + replacement + "#g";
    assert t[|head|..] == pattern + "#" + (replacement + "#" + "g");
    CutHashFinds(pattern, replacement + "#" + "g");
    CutHashFinds(replacement, "g");
  }

  // ---- words in text ----------------------------------------------------------------------------

  lemma ContainsAround(a: string, b: string, word: string)
    ensures Contains(a, word) || Contains(b, word) ==> Contains(a + b, word)
  {
    if Contains(a, word) {
      var i :| 0 <= i <= |a| && word <= a[i..];
      assert (a + b)[i..] == a[i..] + b;
      assert word <= (a + b)[i..];
    }
    if Contains(b, word) {
      var i :| 0 <= i <= |b| && word <= b[i..];
      assert (a + b)[|a| + i..] == b[i..];
    }
  }

  lemma WordHas(word: string, s: string, i: nat, k: nat)
    requires i <= |s| && word <= s[i..] && k < |word|
    ensures i + k < |s| && s[i + k] in word
  {
    assert s[i..][k] == word[k];
  }

  /** A word cannot lie across a character it does not have. */
  lemma ContainsAcross(a: string, c: char, b: string, word: string)
    requires c !in word && word != []
    ensures Contains(a + [c] + b, word) <==> Contains(a, word) || Contains(b, word)
  {
    var s := a + [c] + b;
    ContainsAround(a, [c] + b, word);
    ContainsAround(a + [c], b, word);
    assert s == a + ([c] + b);
    if Contains(s, word) {
      var i :| 0 <= i <= |s| && word <= s[i..];
      if i > |a| {
        assert s[i..] == b[i - |a| - 1..];
      } else if i + |word| <= |a| {
        assert word == s[i..][..|word|] == a[i..][..|word|];
        assert word <= a[i..];
      } else {
        WordHas(word, s, i, |a| - i);
      }
    }
  }

  lemma ContainsNeeds(s: string, word: string, c: char)
    requires c in word && Contains(s, word)
    ensures c in s
  {
    var k :| 0 <= k < |word| && word[k] == c;
    var i :| 0 <= i <= |s| && word <= s[i..];
    assert s[i..][k] == s[i + k];
  }
}
