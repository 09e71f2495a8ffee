/** Separating a RUN instruction's own flags from its command. */
module RunFlags {

  predicate Separator(c: char) {
    c == ' ' || c == '\t' || c == '\n'
  }

  predicate Continued(s: string, at: nat) {
    at + 1 < |s| && s[at] == '\\' && s[at + 1] == '\n'
  }

  /** Two dashes: a flag starts here. */
  predicate Dashes(s: string, at: nat) {
    at + 1 < |s| && s[at] == '-' && s[at + 1] == '-'
  }

  lemma DashesArePrefix(s: string, at: nat)
    requires at <= |s|
    ensures Dashes(s, at) <==> "--" <= s[at..]
  {
    var word := s[at..];
    assert |word| >= 2 ==> word[0] == s[at] && word[1] == s[at + 1];
  }

  /** Past the blanks from `at` on: spaces, tabs and continued line ends. */
  function BlankEnd(s: string, at: nat): (n: nat)
    requires at <= |s|
    ensures at <= n <= |s|
    decreases |s| - at
  {
    if at < |s| && (s[at] == ' ' || s[at] == '\t') then BlankEnd(s, at + 1)
    else if Continued(s, at) then BlankEnd(s, at + 2)
    else at
  }

  function WordEnd(s: string, at: nat): (n: nat)
    requires at <= |s|
    ensures at <= n <= |s|
    ensures n < |s| ==> Separator(s[n])
    ensures forall i :: at <= i < n ==> !Separator(s[i])
    decreases |s| - at
  {
    if at == |s| || Separator(s[at]) then at else WordEnd(s, at + 1)
  }

  /** How far the flags from `at` on reach: blanks and words that start with two dashes, in
      turn. */
  function FlagsEnd(s: string, at: nat): (n: nat)
    requires at <= |s|
    ensures at <= n <= |s|
    ensures !Dashes(s, n) && BlankEnd(s, n) == n
    decreases |s| - at
  {
    BlankEndStops(s, at);
    if Dashes(s, BlankEnd(s, at)) then FlagsEnd(s, WordEnd(s, BlankEnd(s, at))) else BlankEnd(s, at)
  }

  lemma {:induction false} BlankEndStops(s: string, at: nat)
    requires at <= |s|
    ensures BlankEnd(s, BlankEnd(s, at)) == BlankEnd(s, at)
    decreases |s| - at
  {
    if at < |s| && (s[at] == ' ' || s[at] == '\t') {
      BlankEndStops(s, at + 1);
    } else if Continued(s, at) {
      BlankEndStops(s, at + 2);
    }
  }

  // ---- the grammar of flags -----------------------------------------------------------------------

  /** s[a..b] is spaces, tabs and continued line ends. */
  predicate Blanks(s: string, a: nat, b: nat)
    requires a <= b <= |s|
    decreases b - a
  {
    || a == b
    || ((s[a] == ' ' || s[a] == '\t') && Blanks(s, a + 1, b))
    || (a + 2 <= b && Continued(s, a) && Blanks(s, a + 2, b))
  }

  predicate Flag(s: string, a: nat, b: nat)
    requires a <= b <= |s|
  {
    a + 2 <= b && Dashes(s, a) && forall i :: a <= i < b ==> !Separator(s[i])
  }

  /** s[a..b] is one or more flags, each a whole word after any blanks, and ends with the last. */
  ghost predicate Flags(s: string, a: nat, b: nat)
    requires a <= b <= |s|
    decreases b - a, 1
  {
    exists i: nat, j: nat :: FirstFlag(s, a, i, j, b)
  }

  ghost predicate FirstFlag(s: string, a: nat, i: nat, j: nat, b: nat)
    requires a <= b <= |s|
    decreases b - a, 0
  {
    && a <= i < j <= b && Blanks(s, a, i) && Flag(s, i, j)
    && (j < b ==> Separator(s[j]) && Flags(s, j, b))
  }

  lemma {:induction false} BlanksAreRead(s: string, a: nat, b: nat)
    requires a <= b <= |s| && Blanks(s, a, b)
    ensures BlankEnd(s, a) == BlankEnd(s, b)
    decreases b - a
  {
    if a < b {
      if s[a] == ' ' || s[a] == '\t' {
        BlanksAreRead(s, a + 1, b);
      } else {
        BlanksAreRead(s, a + 2, b);
      }
    }
  }

  lemma {:induction false} WordIsRead(s: string, a: nat, b: nat)
    requires a <= b <= |s| && (b < |s| ==> Separator(s[b]))
    requires forall i :: a <= i < b ==> !Separator(s[i])
    ensures WordEnd(s, a) == b
    decreases b - a
  {
    if a < b {
      WordIsRead(s, a + 1, b);
    }
  }

  /** Flags up to a separator or the end are read as flags, whatever follows. */
  lemma {:induction false} FlagsAreRead(s: string, a: nat, b: nat)
    requires a <= b <= |s| && Flags(s, a, b) && (b < |s| ==> Separator(s[b]))
    ensures FlagsEnd(s, a) == FlagsEnd(s, b)
    decreases b - a
  {
    var i: nat, j: nat :| FirstFlag(s, a, i, j, b);
    BlanksAreRead(s, a, i);
    WordIsRead(s, i, j);
    if j < b {
      FlagsAreRead(s, j, b);
    }
  }

  /** What the splitter takes is flags, if any, and then blanks. */
  ghost predicate FlagsThenBlanks(s: string, a: nat, last: nat, end: nat) {
    a <= last <= end <= |s| && Blanks(s, last, end) && (a < last ==> Flags(s, a, last))
  }

  lemma {:induction false} BlankEndIsBlank(s: string, at: nat)
    requires at <= |s|
    ensures Blanks(s, at, BlankEnd(s, at))
    decreases |s| - at
  {
    if at < |s| && (s[at] == ' ' || s[at] == '\t') {
      BlankEndIsBlank(s, at + 1);
    } else if Continued(s, at) {
      BlankEndIsBlank(s, at + 2);
    }
  }

  lemma {:induction false} TakenIsFlags(s: string, at: nat) returns (last: nat)
    requires at <= |s|
    ensures FlagsThenBlanks(s, at, last, FlagsEnd(s, at))
    decreases |s| - at
  {
    var i := BlankEnd(s, at);
    BlankEndIsBlank(s, at);
    if Dashes(s, i) {
      var j := WordEnd(s, i);
      last := TakenIsFlags(s, j);
      assert FirstFlag(s, at, i, j, last);
    } else {
      last := at;
    }
  }

  lemma {:induction false} BlanksEnd(s: string, a: nat, b: nat)
    requires a < b <= |s| && Blanks(s, a, b)
    ensures s[b - 1] != '\\'
    decreases b - a
  {
    if (s[a] == ' ' || s[a] == '\t') && a + 1 < b {
      BlanksEnd(s, a + 1, b);
    } else if a + 2 < b {
      BlanksEnd(s, a + 2, b);
    }
  }

  // ---- the splitter ---------------------------------------------------------------------------

  method SkipBlanks(rest: string, at: nat) returns (start: nat)
    requires at <= |rest|
    ensures start == BlankEnd(rest, at)
  {
    start := at;
    while start < |rest|
      invariant at <= start <= |rest| && BlankEnd(rest, start) == BlankEnd(rest, at)
    {
      if rest[start] == ' ' || rest[start] == '\t' {
        start := start + 1;
      } else if rest[start] == '\\' && start + 1 < |rest| && rest[start + 1] == '\n' {
        start := start + 2;
      } else {
        return;
      }
    }
  }

  method SkipWord(rest: string, start: nat) returns (end: nat)
    requires start <= |rest|
    ensures end == WordEnd(rest, start)
  {
    end := start;
    while end < |rest| && rest[end] != ' ' && rest[end] != '\t' && rest[end] != '\n'
      invariant start <= end <= |rest| && WordEnd(rest, end) == WordEnd(rest, start)
    {
      end := end + 1;
    }
  }

  /** Every character is kept, what is split off is flags and then blanks, and the command starts
      with neither a blank nor a flag. */
  method SplitRunFlags(rest: string) returns (flags: string, command: string)
    ensures flags + command == rest && |flags| == FlagsEnd(rest, 0)
    ensures exists last: nat :: FlagsThenBlanks(rest, 0, last, |flags|)
    ensures !Dashes(rest, |flags|) && BlankEnd(rest, |flags|) == |flags|
  {
    var at := 0;
    while true
      invariant at <= |rest| && FlagsEnd(rest, at) == FlagsEnd(rest, 0)
      decreases |rest| - at
    {
      var start := SkipBlanks(rest, at);
      DashesArePrefix(rest, start);
      if !("--" <= rest[start..]) {
        ghost var last := TakenIsFlags(rest, 0);
        return rest[..start], rest[start..];
      }
      var end := SkipWord(rest, start);
      at := end;
    }
  }

  // ---- a continued line end right after a flag ------------------------------------------------

  /** A continued line end starts one character before p. */
  predicate InsideContinuation(s: string, p: nat) {
    0 < p && Continued(s, p - 1)
  }

  /** The text starts with flags that run right into a continued line end. */
  ghost predicate FlagsIntoContinuation(s: string, p: nat) {
    InsideContinuation(s, p) && Flags(s, 0, p)
  }

  /** The split falls between a continued line end's backslash and its newline if and only if
      the text starts with flags of which the last is written right up to that backslash. */
  lemma SplitsContinuationIff(rest: string)
    ensures InsideContinuation(rest, FlagsEnd(rest, 0)) <==> exists p: nat :: FlagsIntoContinuation(rest, p)
  {
    var end := FlagsEnd(rest, 0);
    if InsideContinuation(rest, end) {
      var last := TakenIsFlags(rest, 0);
      if last < end {
        BlanksEnd(rest, last, end);
        assert false;
      }
      assert FlagsIntoContinuation(rest, end);
    }
    if p: nat :| FlagsIntoContinuation(rest, p) {
      FlagsAreRead(rest, 0, p);
      assert FlagsEnd(rest, p) == p;
    }
  }

  lemma {:induction false} LongerFlags(s: string, a: nat, p: nat)
    requires a <= p < |s| && Flags(s, a, p) && !Separator(s[p])
    ensures Flags(s, a, p + 1)
    decreases p - a
  {
    var i: nat, j: nat :| FirstFlag(s, a, i, j, p);
    if j < p {
      LongerFlags(s, j, p);
      assert FirstFlag(s, a, i, j, p + 1);
    } else {
      assert FirstFlag(s, a, i, j + 1, p + 1);
    }
  }

  /** What it costs. Where a blank and then a continued line end follow flags, the flags after
      it are read on. Where the continued line end follows them directly, it ends them: all
      that comes after the backslash is the command, flags too, as in "--x\" and "--y cmd". */
  lemma ContinuationCosts(s: string, p: nat)
    requires p < |s| && Flags(s, 0, p)
    ensures s[p] == ' ' && Continued(s, p + 1) ==> FlagsEnd(s, 0) == FlagsEnd(s, p + 3)
    ensures Continued(s, p) ==> FlagsEnd(s, 0) == p + 1
  {
    if Separator(s[p]) {
      FlagsAreRead(s, 0, p);
      assert s[p] == ' ' ==> BlankEnd(s, p) == BlankEnd(s, p + 1);
      assert Continued(s, p + 1) ==> BlankEnd(s, p + 1) == BlankEnd(s, p + 3);
    } else if Continued(s, p) {
      LongerFlags(s, 0, p);
      FlagsAreRead(s, 0, p + 1);
      assert FlagsEnd(s, p + 1) == p + 1;
    }
  }
}
