/** Prefix queries: SQLite's GLOB matcher, and the escaping that makes a prefix literal. */
module Glob {
  import opened Types

  // ---- GLOB, as SQLite matches it -----------------------------------------------------------

  /** What a [...] in the pattern comes to for one character: whether it is a hit, and the
      pattern after it; None if the set is never closed. */
  type SetResult = Option<(bool, string)>

  /** The members of a set up to its closing bracket; `prior` is the last plain member, which
      a `-` turns into the start of a range. */
  function Members(pattern: string, c: char, prior: Option<char>, seen: bool): (r: SetResult)
    ensures r.Some? ==> |r.value.1| < |pattern|
  {
    if pattern == [] then None
    else if pattern[0] == ']' then Some((seen, pattern[1..]))
    else if pattern[0] == '-' && prior.Some? && |pattern| > 1 && pattern[1] != ']' then
      Members(pattern[2..], c, None, seen || prior.value <= c <= pattern[1])
    else Members(pattern[1..], c, Some(pattern[0]), seen || c == pattern[0])
  }

  /** A set from just after its opening bracket: `^` inverts it, and a `]` that comes first is
      a member. */
  function SetMatch(pattern: string, c: char): (r: SetResult)
    ensures r.Some? ==> |r.value.1| < |pattern|
  {
    var invert := pattern != [] && pattern[0] == '^';
    var body := if invert then pattern[1..] else pattern;
    var leads := body != [] && body[0] == ']';
    var result := if leads then Members(body[1..], c, None, c == ']') else Members(body, c, None, false);
    if result.Some? then Some((result.value.0 != invert, result.value.1)) else None
  }

  predicate Match(pattern: string, s: string)
    decreases |pattern|, |s|
  {
    if pattern == [] then s == []
    else if pattern[0] == '*' then Match(pattern[1..], s) || (s != [] && Match(pattern, s[1..]))
    else if s == [] then false
    else if pattern[0] == '[' then
      var r := SetMatch(pattern[1..], s[0]);
      r.Some? && r.value.0 && Match(r.value.1, s[1..])
    else (pattern[0] == '?' || pattern[0] == s[0]) && Match(pattern[1..], s[1..])
  }

  const NUL: char := '\0'

  /** Both strings reach the matcher as far as their first NUL. */
  function Cut(s: string): string {
    if s == [] || s[0] == NUL then [] else [s[0]] + Cut(s[1..])
  }

  predicate GlobMatches(pattern: string, s: string) {
    Match(Cut(pattern), Cut(s))
  }

  // ---- globEscape ---------------------------------------------------------------------------

  predicate IsMeta(c: char) {
    c == '*' || c == '?' || c == '[' || c == ']'
  }

  function EscapeChar(c: char): string {
    if IsMeta(c) then ['[', c, ']'] else [c]
  }

  function Escaped(s: string): string {
    if s == [] then [] else EscapeChar(s[0]) + Escaped(s[1..])
  }

  lemma {:induction false} EscapedSnoc(s: string, c: char)
    ensures Escaped(s + [c]) == Escaped(s) + EscapeChar(c)
  {
    if s == [] {
      assert Escaped([c]) == EscapeChar(c) + Escaped([]);
    } else {
      assert (s + [c])[1..] == s[1..] + [c];
      EscapedSnoc(s[1..], c);
    }
  }

  method GlobEscape(s: string) returns (b: string)
    ensures b == Escaped(s)
    ensures forall t :: NUL !in s ==> (GlobMatches(b + "*", t) <==> s <= t)
  {
    b := "";
    for i := 0 to |s|
      invariant b == Escaped(s[..i])
    {
      var r := s[i];
      assert s[..i + 1] == s[..i] + [r];
      EscapedSnoc(s[..i], r);
      if r == '*' || r == '?' || r == '[' || r == ']' {
        b := b + "[" + [r] + "]";
      } else {
        b := b + [r];
      }
    }
    assert s[..|s|] == s;
    forall t | NUL !in s ensures GlobMatches(b + "*", t) <==> s <= t {
      EscapedPrefixIsLiteral(s, t);
    }
  }

  // ---- what an escaped prefix matches ---------------------------------------------------------

  lemma SetOfOne(c: char, rest: string, x: char)
    requires IsMeta(c)
    ensures SetMatch([c, ']'] + rest, x) == Some((x == c, rest))
  {
    var p := [c, ']'] + rest;
    assert p[1..] == [']'] + rest;
    assert p[1..][1..] == rest;
    assert Members(p[1..], x, None, x == c) == Some((x == c, rest));
    assert Members(p[1..], x, Some(c), x == c) == Some((x == c, rest));
  }

  /** An escaped character matches itself and nothing else. */
  lemma EscapeCharMatches(c: char, rest: string, s: string)
    ensures Match(EscapeChar(c) + rest, s) <==> s != [] && s[0] == c && Match(rest, s[1..])
  {
    var p := EscapeChar(c) + rest;
    if IsMeta(c) {
      assert p == ['[', c, ']'] + rest;
      assert p[1..] == [c, ']'] + rest;
      if s != [] {
        SetOfOne(c, rest, s[0]);
      }
    } else {
      assert p[1..] == rest;
    }
  }

  /** So an escaped string consumes itself, whatever pattern follows. */
  lemma {:induction false} EscapedMatches(p: string, rest: string, s: string)
    ensures Match(Escaped(p) + rest, s) <==> p <= s && Match(rest, s[|p|..])
  {
    if p == [] {
      assert Escaped(p) + rest == rest && s[0..] == s;
    } else {
      assert Escaped(p) + rest == EscapeChar(p[0]) + (Escaped(p[1..]) + rest);
      EscapeCharMatches(p[0], Escaped(p[1..]) + rest, s);
      if s != [] && s[0] == p[0] {
        EscapedMatches(p[1..], rest, s[1..]);
        assert p == [p[0]] + p[1..] && s == [s[0]] + s[1..];
        assert p <= s <==> p[1..] <= s[1..];
        if p <= s {
          assert s[1..][|p[1..]|..] == s[|p|..];
        }
      }
    }
  }

  lemma {:induction false} StarMatchesAll(s: string)
    ensures Match("*", s)
  {
    assert "*"[1..] == "";
    if s != [] {
      StarMatchesAll(s[1..]);
    }
  }

  lemma {:induction false} CutAppend(p: string, t: string)
    ensures Cut(p + t) == if NUL in p then Cut(p) else p + Cut(t)
  {
    if p == [] {
      assert p + t == t;
    } else {
      assert (p + t)[1..] == p[1..] + t && (p + t)[0] == p[0];
      CutAppend(p[1..], t);
      assert p == [p[0]] + p[1..];
      assert NUL in p <==> p[0] == NUL || NUL in p[1..];
      if p[0] != NUL && NUL !in p[1..] {
        assert Cut(p + t) == [p[0]] + (p[1..] + Cut(t));
      }
    }
  }

  lemma {:induction false} EscapedCut(p: string)
    ensures NUL in Escaped(p) <==> NUL in p
    ensures Cut(Escaped(p)) == Escaped(Cut(p))
  {
    if p != [] {
      EscapedCut(p[1..]);
      CutAppend(EscapeChar(p[0]), Escaped(p[1..]));
      if p[0] == NUL {
        assert NUL in Escaped(p);
      } else {
        assert NUL !in EscapeChar(p[0]);
        assert Cut(p)[0] == p[0] && Cut(p)[1..] == Cut(p[1..]);
      }
    }
  }

  lemma {:induction false} CutPrefix(p: string, s: string)
    ensures Cut(s) <= s && NUL !in Cut(s)
    ensures NUL !in p ==> (p <= s <==> p <= Cut(s))
  {
    if s == [] || s[0] == NUL {
    } else {
      assert s == [s[0]] + s[1..];
      CutPrefix(if p == [] then p else p[1..], s[1..]);
      if p != [] {
        assert p == [p[0]] + p[1..];
        assert p <= s <==> p[0] == s[0] && p[1..] <= s[1..];
        assert p <= Cut(s) <==> p[0] == s[0] && p[1..] <= Cut(s[1..]);
      }
    }
  }

  /** A prefix query answers exactly the keys that start with the prefix. */
  lemma EscapedPrefixIsLiteral(p: string, s: string)
    requires NUL !in p
    ensures GlobMatches(Escaped(p) + "*", s) <==> p <= s
  {
    EscapedCut(p);
    CutAppend(Escaped(p), "*");
    assert Cut("*") == "*";
    EscapedMatches(p, "*", Cut(s));
    if p <= Cut(s) {
      StarMatchesAll(Cut(s)[|p|..]);
    }
    CutPrefix(p, s);
  }

  /** The condition is exact: a NUL in the prefix hides the rest of the pattern, star and
      all, and then a key that merely equals the part before the NUL is answered too. */
  lemma LiteralIff(p: string)
    ensures (forall s :: GlobMatches(Escaped(p) + "*", s) <==> p <= s) <==> NUL !in p
  {
    if NUL !in p {
      forall s ensures GlobMatches(Escaped(p) + "*", s) <==> p <= s {
        EscapedPrefixIsLiteral(p, s);
      }
    } else {
      var q := Cut(p);
      EscapedCut(p);
      CutAppend(Escaped(p), "*");
      CutPrefix([], p);
      EscapedMatches(q, [], q);
      assert Escaped(q) + [] == Escaped(q) && q[|q|..] == [];
      CutPrefix(q, q);
      assert Cut(q) == q;
      assert GlobMatches(Escaped(p) + "*", q) && !(p <= q);
    }
  }
}
