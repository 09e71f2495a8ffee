/** Tallies of traffic rows, and one transaction that moves rows onto coarser rows. What is
    moved (`gone`) and where to (`onto`) are parameters here; Series says which they are. */
module Folds {

  // ---- rows -----------------------------------------------------------------------------

  datatype Line = Line(project: string, eco: string, outcome: string)

  datatype RowKey = RowKey(span: int, bucket: int, line: Line)

  datatype Tally = Tally(count: int, bytes: int) {
    function Plus(t: Tally): Tally {
      Tally(count + t.count, bytes + t.bytes)
    }
  }

  const NOTHING := Tally(0, 0)

  type Rows = map<RowKey, Tally>

  /** INSERT ... ON CONFLICT DO UPDATE SET count = count + excluded.count, ... */
  function Add(rows: Rows, k: RowKey, t: Tally): Rows {
    rows[k := if k in rows then rows[k].Plus(t) else t]
  }

  ghost function Sum(rows: Rows): Tally {
    if rows == map[] then NOTHING
    else
      var k :| k in rows;
      rows[k].Plus(Sum(rows - {k}))
  }

  lemma PlusSwap(a: Tally, b: Tally, c: Tally)
    ensures a.Plus(b.Plus(c)) == b.Plus(a.Plus(c))
  {
  }

  lemma {:induction false} SumRemove(rows: Rows, k: RowKey)
    requires k in rows
    ensures Sum(rows) == rows[k].Plus(Sum(rows - {k}))
    decreases |rows|
  {
    var j :| j in rows && Sum(rows) == rows[j].Plus(Sum(rows - {j}));
    if j != k {
      assert (rows - {j}).Keys == rows.Keys - {j};
      assert (rows - {k}).Keys == rows.Keys - {k};
      SumRemove(rows - {j}, k);
      SumRemove(rows - {k}, j);
      assert rows - {j} - {k} == rows - {k} - {j};
      PlusSwap(rows[j], rows[k], Sum(rows - {j} - {k}));
    }
  }

  lemma SumAdd(rows: Rows, k: RowKey, t: Tally)
    ensures Sum(Add(rows, k, t)) == Sum(rows).Plus(t)
  {
    SumRemove(Add(rows, k, t), k);
    assert Add(rows, k, t) - {k} == rows - {k};
    if k in rows {
      SumRemove(rows, k);
    } else {
      assert rows - {k} == rows;
    }
  }

  // ---- the fold ---------------------------------------------------------------------------

  type Mark = RowKey -> bool
  type Onto = RowKey -> RowKey

  /** A moved row leaves the rows to move. */
  ghost predicate Moves(gone: Mark, onto: Onto) {
    forall k :: gone(k) ==> !gone(onto(k)) && onto(k).line == k.line
  }

  function At(rows: Rows, k: RowKey): Tally {
    if k in rows then rows[k] else NOTHING
  }

  function Sources(rows: Rows, gone: Mark): set<RowKey> {
    set k | k in rows && gone(k)
  }

  /** The rows the SELECT groups under one target. */
  function Group(rows: Rows, gone: Mark, onto: Onto, target: RowKey): Rows {
    map k | k in rows && gone(k) && onto(k) == target :: rows[k]
  }

  function FoldedKeys(rows: Rows, gone: Mark, onto: Onto): set<RowKey> {
    (rows.Keys - Sources(rows, gone)) + (set k | k in Sources(rows, gone) :: onto(k))
  }

  /** One fold, as its two statements say: every group is added to its coarser row, and the
      moved rows are deleted. */
  ghost function Folded(rows: Rows, gone: Mark, onto: Onto): Rows {
    map k | k in FoldedKeys(rows, gone, onto) :: FoldedAt(rows, gone, onto, k)
  }

  ghost function FoldedAt(rows: Rows, gone: Mark, onto: Onto, k: RowKey): Tally {
    (if gone(k) then NOTHING else At(rows, k)).Plus(Sum(Group(rows, gone, onto, k)))
  }

  lemma FoldNothing(rows: Rows, gone: Mark, onto: Onto)
    requires Sources(rows, gone) == {}
    ensures Folded(rows, gone, onto) == rows
  {
    forall k | k in rows ensures !gone(k) {
      assert k !in Sources(rows, gone);
    }
    forall k | k in rows ensures Folded(rows, gone, onto)[k] == rows[k] {
      assert Group(rows, gone, onto, k) == map[];
    }
  }

  /** One row moved onto its coarser row. */
  function Move(rows: Rows, k: RowKey, target: RowKey): Rows
    requires k in rows
  {
    Add(rows - {k}, target, rows[k])
  }

  /** Moving rows one at a time, in any order, comes to the same fold. */
  lemma FoldMoves(rows: Rows, gone: Mark, onto: Onto, s: RowKey)
    requires Moves(gone, onto) && s in Sources(rows, gone)
    ensures Folded(Move(rows, s, onto(s)), gone, onto) == Folded(rows, gone, onto)
    ensures Sources(Move(rows, s, onto(s)), gone) == Sources(rows, gone) - {s}
  {
    var rows', t := Move(rows, s, onto(s)), onto(s);
    assert !gone(t) && t != s;
    assert Sources(rows', gone) == Sources(rows, gone) - {s};
    FoldMoveKeys(rows, gone, onto, s);
    forall k | k in FoldedKeys(rows, gone, onto)
      ensures FoldedAt(rows', gone, onto, k) == FoldedAt(rows, gone, onto, k)
    {
      FoldMoveAt(rows, gone, onto, s, k);
    }
    SameComprehension(rows', rows, gone, onto);
  }

  lemma SameComprehension(a: Rows, b: Rows, gone: Mark, onto: Onto)
    requires FoldedKeys(a, gone, onto) == FoldedKeys(b, gone, onto)
    requires forall k :: k in FoldedKeys(b, gone, onto) ==>
      FoldedAt(a, gone, onto, k) == FoldedAt(b, gone, onto, k)
    ensures Folded(a, gone, onto) == Folded(b, gone, onto)
  {
  }

  lemma FoldMoveKeys(rows: Rows, gone: Mark, onto: Onto, s: RowKey)
    requires Moves(gone, onto) && s in Sources(rows, gone)
    ensures FoldedKeys(Move(rows, s, onto(s)), gone, onto) == FoldedKeys(rows, gone, onto)
  {
    var rows', t := Move(rows, s, onto(s)), onto(s);
    var some, all := Sources(rows', gone), Sources(rows, gone);
    assert forall k :: k in rows' <==> k == t || (k in rows && k != s);
    assert some == all - {s};
    assert rows'.Keys - some == (rows.Keys - all) + {t};
    assert (set k | k in all :: onto(k)) == (set k | k in some :: onto(k)) + {t};
  }

  lemma MoveAt(rows: Rows, s: RowKey, target: RowKey)
    requires s in rows && target != s
    ensures At(Move(rows, s, target), target) == At(rows, target).Plus(rows[s])
    ensures forall k :: k != s && k != target ==> At(Move(rows, s, target), k) == At(rows, k)
  {
    PlusNothing(rows[s]);
  }

  lemma MoveGroup(rows: Rows, gone: Mark, onto: Onto, s: RowKey, k: RowKey)
    requires Moves(gone, onto) && s in Sources(rows, gone)
    ensures var g, g' := Group(rows, gone, onto, k), Group(Move(rows, s, onto(s)), gone, onto, k);
      Sum(g) == if k == onto(s) then rows[s].Plus(Sum(g')) else Sum(g')
  {
    var g, g' := Group(rows, gone, onto, k), Group(Move(rows, s, onto(s)), gone, onto, k);
    if k == onto(s) {
      assert g' == g - {s};
      SumRemove(g, s);
    } else {
      assert g' == g;
    }
  }

  lemma FoldMoveAt(rows: Rows, gone: Mark, onto: Onto, s: RowKey, k: RowKey)
    requires Moves(gone, onto) && s in Sources(rows, gone)
    ensures FoldedAt(Move(rows, s, onto(s)), gone, onto, k) == FoldedAt(rows, gone, onto, k)
  {
    MoveGroup(rows, gone, onto, s, k);
    MoveAt(rows, s, onto(s));
    PlusMoves(At(rows, k), rows[s], Sum(Group(Move(rows, s, onto(s)), gone, onto, k)));
  }

  lemma PlusNothing(a: Tally)
    ensures a.Plus(NOTHING) == a == NOTHING.Plus(a)
  {
  }

  lemma PlusMoves(a: Tally, b: Tally, c: Tally)
    ensures a.Plus(b).Plus(c) == a.Plus(b.Plus(c))
  {
  }

  // ---- conservation -------------------------------------------------------------------------

  predicate InWindow(k: RowKey, line: Line, lo: int, hi: int) {
    k.line == line && lo <= k.bucket < hi
  }

  function Window(rows: Rows, line: Line, lo: int, hi: int): Rows {
    map k | k in rows && InWindow(k, line, lo, hi) :: rows[k]
  }

  /** All traffic of one line in [lo, hi), over every tier. */
  ghost function Total(rows: Rows, line: Line, lo: int, hi: int): Tally {
    Sum(Window(rows, line, lo, hi))
  }

  function When(b: bool, t: Tally): Tally {
    if b then t else NOTHING
  }

  lemma TotalRemove(rows: Rows, k: RowKey, line: Line, lo: int, hi: int)
    requires k in rows
    ensures Total(rows, line, lo, hi) ==
      Total(rows - {k}, line, lo, hi).Plus(When(InWindow(k, line, lo, hi), rows[k]))
  {
    var w := Window(rows, line, lo, hi);
    assert Window(rows - {k}, line, lo, hi) == w - {k};
    if k in w {
      SumRemove(w, k);
    } else {
      assert w - {k} == w;
    }
  }

  lemma TotalAdd(rows: Rows, k: RowKey, t: Tally, line: Line, lo: int, hi: int)
    ensures Total(Add(rows, k, t), line, lo, hi) ==
      Total(rows, line, lo, hi).Plus(When(InWindow(k, line, lo, hi), t))
  {
    var w := Window(rows, line, lo, hi);
    if InWindow(k, line, lo, hi) {
      assert Window(Add(rows, k, t), line, lo, hi) == Add(w, k, t);
      SumAdd(w, k, t);
    } else {
      assert Window(Add(rows, k, t), line, lo, hi) == w;
    }
  }

  /** The move takes the row up past x. */
  predicate Crosses(k: RowKey, target: RowKey, line: Line, x: int) {
    k.line == line && k.bucket < x <= target.bucket
  }

  function Crossing(rows: Rows, gone: Mark, onto: Onto, line: Line, x: int): Rows {
    map k | k in rows && gone(k) && Crosses(k, onto(k), line, x) :: rows[k]
  }

  /** No move takes a row down past x. */
  ghost predicate NeverBack(gone: Mark, onto: Onto, x: int) {
    forall k :: gone(k) && x <= k.bucket ==> x <= onto(k).bucket
  }

  lemma CrossingMove(rows: Rows, gone: Mark, onto: Onto, s: RowKey, line: Line, x: int)
    requires Moves(gone, onto) && s in Sources(rows, gone)
    ensures Sum(Crossing(rows, gone, onto, line, x)) ==
      Sum(Crossing(Move(rows, s, onto(s)), gone, onto, line, x)).Plus(When(Crosses(s, onto(s), line, x), rows[s]))
  {
    var c, c' := Crossing(rows, gone, onto, line, x), Crossing(Move(rows, s, onto(s)), gone, onto, line, x);
    assert c' == c - {s};
    if s in c {
      SumRemove(c, s);
    } else {
      assert c - {s} == c;
    }
  }

  lemma MoveTotal(rows: Rows, s: RowKey, target: RowKey, line: Line, lo: int, hi: int)
    requires s in rows
    ensures Total(Move(rows, s, target), line, lo, hi).Plus(When(InWindow(s, line, lo, hi), rows[s])) ==
      Total(rows, line, lo, hi).Plus(When(InWindow(target, line, lo, hi), rows[s]))
  {
    TotalRemove(rows, s, line, lo, hi);
    TotalAdd(rows - {s}, target, rows[s], line, lo, hi);
    PlusExchange(Total(rows - {s}, line, lo, hi), When(InWindow(target, line, lo, hi), rows[s]),
                 When(InWindow(s, line, lo, hi), rows[s]));
  }

  lemma PlusExchange(a: Tally, b: Tally, c: Tally)
    ensures a.Plus(b).Plus(c) == a.Plus(c).Plus(b)
  {
  }

  /** The arithmetic of one moved row. */
  lemma BalanceOne(
    f: Tally, before: Tally, after: Tally, hi: Tally, hi': Tally, lo: Tally, lo': Tally, t: Tally,
    inside: bool, lands: bool, overLo: bool, overHi: bool)
    requires f.Plus(hi') == after.Plus(lo')
    requires lo == lo'.Plus(When(overLo, t)) && hi == hi'.Plus(When(overHi, t))
    requires after.Plus(When(inside, t)) == before.Plus(When(lands, t))
    requires (if lands then 1 else 0) - (if inside then 1 else 0) ==
             (if overLo then 1 else 0) - (if overHi then 1 else 0)
    ensures f.Plus(hi) == before.Plus(lo)
  {
  }

  ghost predicate Balanced(rows: Rows, gone: Mark, onto: Onto, line: Line, lo: int, hi: int) {
    Total(Folded(rows, gone, onto), line, lo, hi).Plus(Sum(Crossing(rows, gone, onto, line, hi))) ==
    Total(rows, line, lo, hi).Plus(Sum(Crossing(rows, gone, onto, line, lo)))
  }

  lemma FoldBalanceOne(rows: Rows, gone: Mark, onto: Onto, s: RowKey, line: Line, lo: int, hi: int)
    requires Moves(gone, onto) && s in Sources(rows, gone) && lo <= hi
    requires NeverBack(gone, onto, lo) && NeverBack(gone, onto, hi)
    requires Balanced(Move(rows, s, onto(s)), gone, onto, line, lo, hi)
    ensures Balanced(rows, gone, onto, line, lo, hi)
  {
    var rows' := Move(rows, s, onto(s));
    FoldMoves(rows, gone, onto, s);
    CrossingMove(rows, gone, onto, s, line, lo);
    CrossingMove(rows, gone, onto, s, line, hi);
    MoveTotal(rows, s, onto(s), line, lo, hi);
    BalanceOne(
      Total(Folded(rows, gone, onto), line, lo, hi), Total(rows, line, lo, hi), Total(rows', line, lo, hi),
      Sum(Crossing(rows, gone, onto, line, hi)), Sum(Crossing(rows', gone, onto, line, hi)),
      Sum(Crossing(rows, gone, onto, line, lo)), Sum(Crossing(rows', gone, onto, line, lo)),
      rows[s], InWindow(s, line, lo, hi), InWindow(onto(s), line, lo, hi),
      Crosses(s, onto(s), line, lo), Crosses(s, onto(s), line, hi));
  }

  /** A fold moves traffic out of a window only across its upper end, and into it only
      across its lower end. */
  lemma {:induction false} FoldBalance(rows: Rows, gone: Mark, onto: Onto, line: Line, lo: int, hi: int)
    requires Moves(gone, onto) && lo <= hi && NeverBack(gone, onto, lo) && NeverBack(gone, onto, hi)
    ensures Balanced(rows, gone, onto, line, lo, hi)
    decreases |Sources(rows, gone)|
  {
    if Sources(rows, gone) == {} {
      FoldNothing(rows, gone, onto);
      NoneCross(rows, gone, onto, line, lo);
      NoneCross(rows, gone, onto, line, hi);
    } else {
      var s :| s in Sources(rows, gone);
      FoldMoves(rows, gone, onto, s);
      assert |Sources(rows, gone) - {s}| < |Sources(rows, gone)|;
      FoldBalance(Move(rows, s, onto(s)), gone, onto, line, lo, hi);
      FoldBalanceOne(rows, gone, onto, s, line, lo, hi);
    }
  }

  lemma NoneCross(rows: Rows, gone: Mark, onto: Onto, line: Line, x: int)
    requires forall k :: k in Sources(rows, gone) ==> !Crosses(k, onto(k), line, x)
    ensures Crossing(rows, gone, onto, line, x) == map[]
  {
    forall k | k in rows && gone(k) ensures !Crosses(k, onto(k), line, x) {
      assert k in Sources(rows, gone);
    }
  }

  lemma {:induction false} SumOfNothing(rows: Rows)
    requires forall k :: k in rows ==> rows[k] == NOTHING
    ensures Sum(rows) == NOTHING
    decreases |rows|
  {
    if rows != map[] {
      var k :| k in rows;
      SumRemove(rows, k);
      assert (rows - {k}).Keys == rows.Keys - {k};
      SumOfNothing(rows - {k});
    }
  }

  ghost predicate NonNegative(rows: Rows) {
    forall k :: k in rows ==> rows[k].count >= 0 && rows[k].bytes >= 0
  }

  lemma {:induction false} SumNonNegative(rows: Rows)
    requires NonNegative(rows)
    ensures Sum(rows).count >= 0 && Sum(rows).bytes >= 0
    decreases |rows|
  {
    if rows != map[] {
      var k :| k in rows;
      SumRemove(rows, k);
      assert (rows - {k}).Keys == rows.Keys - {k};
      SumNonNegative(rows - {k});
    }
  }
}
