/** The read-through LRU in front of the entries table: a doubly linked list and a map into
    it, refining a plain recency sequence. */
module Lru {
  import opened Types

  // ---- the recency sequence ---------------------------------------------------------

  /** Most recently used first. */
  type Recency = seq<Entry>

  function IndexOf(s: Recency, k: Key): (i: nat)
    ensures i <= |s|
    ensures i < |s| ==> s[i].key == k
    ensures forall j :: 0 <= j < i ==> s[j].key != k
  {
    if s == [] || s[0].key == k then 0 else 1 + IndexOf(s[1..], k)
  }

  predicate Resident(s: Recency, k: Key) {
    IndexOf(s, k) < |s|
  }

  function Lookup(s: Recency, k: Key): Option<Entry> {
    var i := IndexOf(s, k);
    if i < |s| then Some(s[i]) else None
  }

  function Cut<T>(s: seq<T>, i: nat): seq<T>
    requires i < |s|
  {
    s[..i] + s[i + 1..]
  }

  function Without(s: Recency, k: Key): Recency {
    var i := IndexOf(s, k);
    if i < |s| then Cut(s, i) else s
  }

  function WithoutProject(s: Recency, project: string): Recency {
    if s == [] then []
    else if s[0].key.project == project then WithoutProject(s[1..], project)
    else [s[0]] + WithoutProject(s[1..], project)
  }

  function Take(s: Recency, n: nat): Recency {
    if |s| <= n then s else s[..n]
  }

  datatype Op = Get(key: Key) | Put(entry: Entry) | Drop(key: Key) | DropProject(project: string)

  /** One cache call on the recency sequence: touch moves to the front, put truncates. */
  function Step(s: Recency, capacity: nat, op: Op): Recency {
    match op
    case Get(k) => if Resident(s, k) then [s[IndexOf(s, k)]] + Without(s, k) else s
    case Put(e) => Take([e] + Without(s, e.key), capacity)
    case Drop(k) => Without(s, k)
    case DropProject(p) => WithoutProject(s, p)
  }

  function Run(capacity: nat, ops: seq<Op>): Recency {
    if ops == [] then [] else Step(Run(capacity, ops[..|ops| - 1]), capacity, ops[|ops| - 1])
  }

  ghost predicate Distinct(s: Recency) {
    forall i, j :: 0 <= i < j < |s| ==> s[i].key != s[j].key
  }

  // ---- the list and the map ---------------------------------------------------------

  /** A list element; the entry is replaced in place, the key never. */
  class Element {
    const key: Key
    var entry: Entry

    constructor (e: Entry)
      ensures key == e.key && entry == e
    {
      key, entry := e.key, e;
    }
  }

  function Position<T(==)>(s: seq<T>, x: T): (i: nat)
    requires x in s
    ensures i < |s| && s[i] == x && x !in s[..i]
  {
    if s[0] == x then 0 else 1 + Position(s[1..], x)
  }

  /** List and map hold the same distinct keys. */
  ghost predicate Listed(ll: seq<Element>, items: map<Key, Element>) {
    && (forall i :: 0 <= i < |ll| ==> ll[i].key in items && items[ll[i].key] == ll[i])
    && (forall i, j :: 0 <= i < j < |ll| ==> ll[i].key != ll[j].key)
    && (forall k :: k in items ==> items[k].key == k && items[k] in ll)
  }

  /** Each element holds an entry of its own key. */
  ghost predicate Keyed(ll: seq<Element>)
    reads ll
  {
    forall i :: 0 <= i < |ll| ==> ll[i].entry.key == ll[i].key
  }

  ghost function Entries(ll: seq<Element>): (s: Recency)
    reads ll
    ensures |s| == |ll| && forall i :: 0 <= i < |s| ==> s[i] == ll[i].entry
  {
    seq(|ll|, i requires 0 <= i < |ll| reads ll => ll[i].entry)
  }

  /** Where a key's element stands in the list is where its entry stands in the sequence. */
  lemma Located(ll: seq<Element>, items: map<Key, Element>, k: Key)
    requires Listed(ll, items) && Keyed(ll)
    ensures k in items <==> Resident(Entries(ll), k)
    ensures k in items ==>
      && Position(ll, items[k]) == IndexOf(Entries(ll), k)
      && Lookup(Entries(ll), k) == Some(items[k].entry)
  {
    if k in items {
      var p := Position(ll, items[k]);
      assert Entries(ll)[p].key == k;
    }
  }

  lemma CutAt<T>(s: seq<T>, i: nat)
    requires i < |s|
    ensures |Cut(s, i)| == |s| - 1
    ensures forall j {:trigger Cut(s, i)[j]} :: 0 <= j < |s| - 1 ==> Cut(s, i)[j] == s[if j < i then j else j + 1]
    ensures forall x :: x in s && x != s[i] ==> x in Cut(s, i)
  {
    assert s == s[..i] + [s[i]] + s[i + 1..];
  }

  lemma CutListed(ll: seq<Element>, items: map<Key, Element>, el: Element)
    requires Listed(ll, items) && el in ll
    ensures Listed(Cut(ll, Position(ll, el)), items - {el.key})
  {
    var p := Position(ll, el);
    CutAt(ll, p);
    var rest := Cut(ll, p);
    forall j | 0 <= j < |rest| ensures rest[j].key != el.key {
      assert rest[j] == ll[if j < p then j else j + 1];
    }
  }

  lemma CutEntries(ll: seq<Element>, i: nat)
    requires i < |ll|
    ensures Entries(Cut(ll, i)) == Cut(Entries(ll), i)
    ensures Keyed(ll) ==> Keyed(Cut(ll, i))
  {
    CutAt(ll, i);
  }

  lemma ConsListed(el: Element, ll: seq<Element>, items: map<Key, Element>)
    requires Listed(ll, items) && el.key !in items
    ensures Listed([el] + ll, items[el.key := el])
  {
    var all := [el] + ll;
    forall j | 0 < j < |all| ensures all[j].key != el.key && all[j] == ll[j - 1] {}
    assert forall x :: x in ll ==> x in all;
    assert el in all;
  }

  lemma ConsEntries(el: Element, ll: seq<Element>)
    ensures Entries([el] + ll) == [el.entry] + Entries(ll)
  {
  }

  /** Moving an element to the front, keys and entries. */
  lemma FrontListed(ll: seq<Element>, items: map<Key, Element>, el: Element)
    requires Listed(ll, items) && el in ll
    ensures Listed([el] + Cut(ll, Position(ll, el)), items)
  {
    CutListed(ll, items, el);
    ConsListed(el, Cut(ll, Position(ll, el)), items - {el.key});
    assert (items - {el.key})[el.key := el] == items;
  }

  lemma FrontEntries(ll: seq<Element>, el: Element)
    requires el in ll && Keyed(ll)
    ensures Keyed([el] + Cut(ll, Position(ll, el)))
    ensures Entries([el] + Cut(ll, Position(ll, el))) == [el.entry] + Cut(Entries(ll), Position(ll, el))
  {
    CutEntries(ll, Position(ll, el));
    ConsEntries(el, Cut(ll, Position(ll, el)));
  }

  lemma WithoutReplaced(s: Recency, i: nat, e: Entry)
    requires i < |s| && IndexOf(s, e.key) == i
    ensures Without(s[i := e], e.key) == Without(s, e.key)
  {
    var t := s[i := e];
    assert t[i].key == e.key && forall j :: 0 <= j < i ==> t[j].key == s[j].key;
  }

  ghost predicate Within(ll: seq<Element>, Repr: set<Element>) {
    forall i :: 0 <= i < |ll| ==> ll[i] in Repr
  }

  lemma FrontWithin(ll: seq<Element>, el: Element, Repr: set<Element>)
    requires el in ll && Within(ll, Repr)
    ensures Within(Cut(ll, Position(ll, el)), Repr) && Within([el] + Cut(ll, Position(ll, el)), Repr)
  {
    CutAt(ll, Position(ll, el));
  }

  class EntryCache {
    const capacity: nat
    var ll: seq<Element>          // front = most recently used
    var items: map<Key, Element>
    ghost var Contents: Recency   // what the list stands for
    ghost var Repr: set<Element>

    ghost predicate Linked()
      reads this, ll
    {
      && 1 <= capacity && Listed(ll, items) && Keyed(ll) && Within(ll, Repr)
      && Contents == Entries(ll)
    }

    ghost predicate Valid()
      reads this, ll
    {
      Linked() && |ll| <= capacity
    }

    constructor (size: int)
      ensures Valid() && Contents == [] && Repr == {}
      ensures capacity == if size < 1 then 1 else size
    {
      capacity := if size < 1 then 1 else size;
      ll, items := [], map[];
      Contents, Repr := [], {};
    }

    /** container/list: move an element to the front. */
    method MoveToFront(el: Element)
      requires Linked() && el in ll
      modifies this`ll, this`Contents
      ensures Linked() && |ll| == |old(ll)|
      ensures Contents == [el.entry] + Cut(old(Contents), Position(old(ll), el))
    {
      FrontListed(ll, items, el);
      FrontEntries(ll, el);
      FrontWithin(ll, el, Repr);
      Contents := [el.entry] + Cut(Contents, Position(ll, el));
      ll := [el] + Cut(ll, Position(ll, el));
    }

    /** container/list and map: remove an element. */
    method Remove(el: Element)
      requires Linked() && el in ll
      modifies this`ll, this`items, this`Contents
      ensures Linked() && ll == Cut(old(ll), Position(old(ll), el))
      ensures items == old(items) - {el.key}
      ensures Contents == Cut(old(Contents), Position(old(ll), el))
    {
      CutListed(ll, items, el);
      CutEntries(ll, Position(ll, el));
      FrontWithin(ll, el, Repr);
      Contents := Cut(Contents, Position(ll, el));
      ll, items := Cut(ll, Position(ll, el)), items - {el.key};
    }

    method Get(k: Key) returns (found: Option<Entry>)
      requires Valid()
      modifies this`ll, this`Contents
      ensures Valid()
      ensures found == Lookup(old(Contents), k)
      ensures Contents == Step(old(Contents), capacity, Op.Get(k))
    {
      Located(ll, items, k);
      if k !in items {
        return None;
      }
      var el := items[k];
      MoveToFront(el);
      found := Some(el.entry);
    }

    method Put(e: Entry)
      requires Valid()
      modifies this, Repr
      ensures Valid() && fresh(Repr - old(Repr))
      ensures Contents == Step(old(Contents), capacity, Op.Put(e))
    {
      Located(ll, items, e.key);
      if e.key in items {
        Replace(items[e.key], e);
        return;
      }
      var el := new Element(e);
      Insert(el);
    }

    method Insert(el: Element)
      requires Valid() && el.key !in items && el.entry.key == el.key
      modifies this
      ensures Valid() && Repr == old(Repr) + {el}
      ensures Contents == Take([el.entry] + old(Contents), capacity)
    {
      PushFront(el);
      ghost var longer := Contents;
      assert |longer| == |ll|;
      if |ll| > capacity {
        EvictOldest();
        assert Contents == longer[..capacity];
      }
    }

    /** container/list and map: add an element whose key is not there. */
    method PushFront(el: Element)
      requires Linked() && el.key !in items && el.entry.key == el.key
      modifies this
      ensures Linked() && |ll| == |old(ll)| + 1 && Repr == old(Repr) + {el}
      ensures Contents == [el.entry] + old(Contents)
    {
      ConsListed(el, ll, items);
      ConsEntries(el, ll);
      Contents, Repr := [el.entry] + Contents, Repr + {el};
      ll, items := [el] + ll, items[el.key := el];
    }

    /** The key is resident: the entry is replaced in place and the element moves up. */
    method Replace(el: Element, e: Entry)
      requires Valid() && el in ll && el.key == e.key
      modifies this`ll, this`Contents, el
      ensures Valid()
      ensures Contents == [e] + Without(old(Contents), e.key)
    {
      ghost var s, p := Contents, Position(ll, el);
      Located(ll, items, e.key);
      assert forall j :: 0 <= j < |ll| && ll[j] == el ==> j == p;
      el.entry := e;
      Contents := s[p := e];
      assert Contents == Entries(ll);
      WithoutReplaced(s, p, e);
      MoveToFront(el);
    }

    method EvictOldest()
      requires Linked()
      modifies this`ll, this`items, this`Contents
      ensures Linked()
      ensures ll == if old(ll) == [] then [] else old(ll)[..|old(ll)| - 1]
      ensures Contents == if old(ll) == [] then [] else old(Contents)[..|old(ll)| - 1]
    {
      if ll == [] {
        return;
      }
      var el := ll[|ll| - 1];
      assert Position(ll, el) == |ll| - 1;
      Remove(el);
    }

    method Drop(k: Key)
      requires Valid()
      modifies this`ll, this`items, this`Contents
      ensures Valid()
      ensures Contents == Step(old(Contents), capacity, Op.Drop(k))
    {
      Located(ll, items, k);
      if k in items {
        Remove(items[k]);
      }
    }

    method DropIfOf(k: Key, project: string)
      requires Valid() && k in items
      modifies this`ll, this`items, this`Contents
      ensures Valid()
      ensures items == if k.project == project then old(items) - {k} else old(items)
      ensures WithoutProject(Contents, project) == WithoutProject(old(Contents), project)
    {
      if k.project == project {
        Located(ll, items, k);
        CutOfProject(Contents, IndexOf(Contents, k), project);
        Remove(items[k]);
      }
    }

    /** Deleting from a map while ranging over it still visits every key that stays. */
    method DropProject(project: string)
      requires Valid()
      modifies this`ll, this`items, this`Contents
      ensures Valid()
      ensures Contents == Step(old(Contents), capacity, Op.DropProject(project))
    {
      ghost var s := Contents;
      var todo := items.Keys;
      while todo != {}
        invariant Valid() && forall k :: k in todo ==> k in items
        invariant forall k :: k in items && k !in todo ==> k.project != project
        invariant WithoutProject(Contents, project) == WithoutProject(s, project)
        decreases todo
      {
        var k :| k in todo;
        todo := todo - {k};
        DropIfOf(k, project);
      }
      GoneMeansNone(ll, items, project);
    }
  }

  lemma GoneMeansNone(ll: seq<Element>, items: map<Key, Element>, project: string)
    requires Listed(ll, items) && Keyed(ll)
    requires forall k :: k in items ==> k.project != project
    ensures WithoutProject(Entries(ll), project) == Entries(ll)
  {
    NoneOfProject(Entries(ll), project);
  }

  lemma {:induction false} CutOfProject(s: Recency, i: nat, project: string)
    requires i < |s| && s[i].key.project == project
    ensures WithoutProject(Cut(s, i), project) == WithoutProject(s, project)
  {
    if i == 0 {
      assert Cut(s, 0) == s[1..];
    } else {
      CutOfProject(s[1..], i - 1, project);
      assert Cut(s, i) == [s[0]] + Cut(s[1..], i - 1);
    }
  }

  lemma {:induction false} NoneOfProject(s: Recency, project: string)
    requires forall i :: 0 <= i < |s| ==> s[i].key.project != project
    ensures WithoutProject(s, project) == s
  {
    if s != [] {
      NoneOfProject(s[1..], project);
    }
  }

  // ---- whole runs of cache calls ------------------------------------------------------

  lemma {:induction false} RunShape(capacity: nat, ops: seq<Op>)
    requires capacity >= 1
    ensures Distinct(Run(capacity, ops)) && |Run(capacity, ops)| <= capacity
  {
    if ops != [] {
      RunShape(capacity, ops[..|ops| - 1]);
      StepShape(Run(capacity, ops[..|ops| - 1]), capacity, ops[|ops| - 1]);
    }
  }

  lemma StepShape(s: Recency, capacity: nat, op: Op)
    requires Distinct(s) && |s| <= capacity
    ensures Distinct(Step(s, capacity, op)) && |Step(s, capacity, op)| <= capacity
  {
    match op
    case DropProject(p) => ProjectShape(s, p);
    case Drop(k) => WithoutShape(s, k);
    case Get(k) => WithoutShape(s, k);
    case Put(e) => WithoutShape(s, e.key);
  }

  /** With distinct keys, removing a key removes exactly its entry. */
  lemma WithoutShape(s: Recency, k: Key)
    requires Distinct(s)
    ensures Distinct(Without(s, k)) && |Without(s, k)| <= |s|
    ensures forall e :: e in Without(s, k) <==> e in s && e.key != k
    ensures Resident(s, k) ==> |Without(s, k)| == |s| - 1
  {
    var i := IndexOf(s, k);
    if i < |s| {
      CutAt(s, i);
      assert forall j :: 0 <= j < |s| && j != i ==> s[j].key != k;
    }
  }

  lemma {:induction false} ProjectShape(s: Recency, p: string)
    ensures |WithoutProject(s, p)| <= |s|
    ensures Distinct(s) ==> Distinct(WithoutProject(s, p))
    ensures forall e :: e in WithoutProject(s, p) <==> e in s && e.key.project != p
  {
    if s != [] {
      ProjectShape(s[1..], p);
      assert s == [s[0]] + s[1..];
    }
  }

  /** The value of the last put of a key, unless the key has been dropped since. */
  function LastPut(ops: seq<Op>, k: Key): Option<Entry> {
    if ops == [] then None
    else match ops[|ops| - 1] {
      case Put(e) => if e.key == k then Some(e) else LastPut(ops[..|ops| - 1], k)
      case Drop(key) => if key == k then None else LastPut(ops[..|ops| - 1], k)
      case DropProject(p) => if k.project == p then None else LastPut(ops[..|ops| - 1], k)
      case Get(_) => LastPut(ops[..|ops| - 1], k)
    }
  }

  /** Whatever the cache still holds for a key is what was put last, never an older value
      and never one dropped since. */
  lemma {:induction false} ResidentIsLastPut(capacity: nat, ops: seq<Op>, k: Key)
    requires capacity >= 1
    ensures Resident(Run(capacity, ops), k) ==> LastPut(ops, k) == Lookup(Run(capacity, ops), k)
  {
    if ops != [] {
      var before := ops[..|ops| - 1];
      var s := Run(capacity, before);
      ResidentIsLastPut(capacity, before, k);
      RunShape(capacity, before);
      match ops[|ops| - 1]
      case DropProject(p) => ProjectLookup(s, p, k);
      case Drop(key) => WithoutLookup(s, key, k);
      case Get(key) => WithoutLookup(s, key, k);
      case Put(e) =>
        WithoutLookup(s, e.key, k);
        TakeLookup([e] + Without(s, e.key), capacity, k);
    }
  }

  lemma LookupIff(s: Recency, k: Key, e: Entry)
    requires Distinct(s)
    ensures Lookup(s, k) == Some(e) <==> e in s && e.key == k
  {
    if e in s && e.key == k {
      var i :| 0 <= i < |s| && s[i] == e;
      assert IndexOf(s, k) == i;
    }
  }

  lemma WithoutLookup(s: Recency, gone: Key, k: Key)
    requires Distinct(s)
    ensures Lookup(Without(s, gone), k) == if k == gone then None else Lookup(s, k)
  {
    WithoutShape(s, gone);
    forall e ensures Lookup(Without(s, gone), k) == Some(e) <==> k != gone && Lookup(s, k) == Some(e) {
      LookupIff(s, k, e);
      LookupIff(Without(s, gone), k, e);
    }
    SameLookup(Lookup(Without(s, gone), k), if k == gone then None else Lookup(s, k));
  }

  lemma SameLookup(a: Option<Entry>, b: Option<Entry>)
    requires forall e :: a == Some(e) <==> b == Some(e)
    ensures a == b
  {
    if a.Some? {
      assert a == Some(a.value);
    } else if b.Some? {
      assert b == Some(b.value);
    }
  }

  /** What was just put is found. */
  lemma PutIsFound(s: Recency, capacity: nat, e: Entry)
    requires capacity >= 1
    ensures Lookup(Step(s, capacity, Put(e)), e.key) == Some(e)
  {
    assert Step(s, capacity, Put(e))[0] == e;
  }

  lemma TakeLookup(s: Recency, n: nat, k: Key)
    ensures Resident(Take(s, n), k) ==> Lookup(Take(s, n), k) == Lookup(s, k)
  {
  }

  lemma ProjectLookup(s: Recency, p: string, k: Key)
    requires Distinct(s)
    ensures Lookup(WithoutProject(s, p), k) == if k.project == p then None else Lookup(s, k)
  {
    ProjectShape(s, p);
    forall e ensures Lookup(WithoutProject(s, p), k) == Some(e) <==> k.project != p && Lookup(s, k) == Some(e) {
      LookupIff(s, k, e);
      LookupIff(WithoutProject(s, p), k, e);
    }
    SameLookup(Lookup(WithoutProject(s, p), k), if k.project == p then None else Lookup(s, k));
  }

  // ---- eviction ---------------------------------------------------------------------

  /** The key an op moves to the front; a get that misses moves nothing. */
  function Touched(s: Recency, op: Op): Option<Key> {
    match op
    case Put(e) => Some(e.key)
    case Get(k) => if Resident(s, k) then Some(k) else None
    case _ => None
  }

  function TouchedSince(capacity: nat, ops: seq<Op>, i: nat): set<Key> {
    if |ops| <= i then {}
    else
      var before := ops[..|ops| - 1];
      var t := Touched(Run(capacity, before), ops[|ops| - 1]);
      TouchedSince(capacity, before, i) + if t.Some? then {t.value} else {}
  }

  predicate Drops(op: Op, k: Key) {
    (op.Drop? && op.key == k) || (op.DropProject? && op.project == k.project)
  }

  /** The keys more recent than k. */
  function Ahead(s: Recency, k: Key): set<Key> {
    if s == [] || s[0].key == k then {} else {s[0].key} + Ahead(s[1..], k)
  }

  lemma {:induction false} AheadElsewhere(s: Recency, k: Key, a: Key)
    requires forall i :: 0 <= i < |s| ==> s[i].key != a
    ensures a !in Ahead(s, k)
  {
    if s != [] {
      AheadElsewhere(s[1..], k, a);
    }
  }

  lemma {:induction false} AheadCount(s: Recency, k: Key)
    requires Distinct(s)
    ensures |Ahead(s, k)| == IndexOf(s, k)
  {
    if s != [] && s[0].key != k {
      AheadCount(s[1..], k);
      AheadElsewhere(s[1..], k, s[0].key);
    }
  }

  lemma {:induction false} AheadWithout(s: Recency, gone: Key, k: Key)
    requires gone != k
    ensures Ahead(Without(s, gone), k) <= Ahead(s, k)
    ensures Resident(Without(s, gone), k) == Resident(s, k)
  {
    if s == [] {
    } else if s[0].key == gone {
      assert Without(s, gone) == s[1..];
    } else {
      AheadWithout(s[1..], gone, k);
      WithoutCons(s[0], s[1..], gone);
      assert s == [s[0]] + s[1..];
      assert Without(s, gone)[1..] == Without(s[1..], gone);
    }
  }

  lemma WithoutCons(e: Entry, s: Recency, k: Key)
    requires e.key != k
    ensures Without([e] + s, k) == [e] + Without(s, k)
  {
    assert ([e] + s)[1..] == s;
  }

  lemma {:induction false} AheadProject(s: Recency, p: string, k: Key)
    requires k.project != p
    ensures Ahead(WithoutProject(s, p), k) <= Ahead(s, k)
    ensures Resident(WithoutProject(s, p), k) == Resident(s, k)
  {
    if s != [] {
      AheadProject(s[1..], p, k);
      var rest := WithoutProject(s[1..], p);
      assert ([s[0]] + rest)[1..] == rest;
    }
  }

  lemma AheadCons(e: Entry, s: Recency, k: Key)
    requires e.key != k
    ensures Ahead([e] + s, k) == {e.key} + Ahead(s, k)
    ensures IndexOf([e] + s, k) == 1 + IndexOf(s, k)
  {
    assert ([e] + s)[1..] == s;
  }

  /** While k has not been touched or dropped, either everything ahead of it was touched in
      the meantime, or `capacity` other keys were. */
  lemma {:induction false} AheadWasTouched(capacity: nat, ops: seq<Op>, i: nat, k: Key)
    requires capacity >= 1 && 0 < i <= |ops|
    requires Touched(Run(capacity, ops[..i - 1]), ops[i - 1]) == Some(k)
    requires k !in TouchedSince(capacity, ops, i)
    requires forall j :: i <= j < |ops| ==> !Drops(ops[j], k)
    ensures var s := Run(capacity, ops);
      || (Resident(s, k) && Ahead(s, k) <= TouchedSince(capacity, ops, i))
      || |TouchedSince(capacity, ops, i)| >= capacity
  {
    var before, op := ops[..|ops| - 1], ops[|ops| - 1];
    var s, s' := Run(capacity, before), Run(capacity, ops);
    RunShape(capacity, before);
    RunShape(capacity, ops);
    if |ops| == i {
      assert before == ops[..i - 1];
      assert s' != [] && s'[0].key == k;
      return;
    }
    assert before[..i - 1] == ops[..i - 1];
    AheadWasTouched(capacity, before, i, k);
    var since, since' := TouchedSince(capacity, before, i), TouchedSince(capacity, ops, i);
    if |since| >= capacity {
      Bigger(since, since');
      return;
    }
    assert !Drops(op, k);
    match op
    case Drop(g) => AheadWithout(s, g, k);
    case DropProject(p) => AheadProject(s, p, k);
    case Get(g) =>
      if Resident(s, g) {
        AheadWithout(s, g, k);
        AheadCons(s[IndexOf(s, g)], Without(s, g), k);
      }
    case Put(e) =>
      AheadWithout(s, e.key, k);
      AheadCons(e, Without(s, e.key), k);
      PutPushes(s, capacity, e, k, since');
  }

  lemma Bigger(a: set<Key>, b: set<Key>)
    requires a <= b
    ensures |a| <= |b|
  {
    assert b == a + (b - a);
  }

  lemma PutPushes(s: Recency, capacity: nat, e: Entry, k: Key, since: set<Key>)
    requires capacity >= 1 && Distinct(s) && |s| <= capacity
    requires e.key != k && Resident(Without(s, e.key), k)
    requires Ahead([e] + Without(s, e.key), k) <= since
    ensures var s' := Step(s, capacity, Put(e));
      (Resident(s', k) && Ahead(s', k) <= since) || |since| >= capacity
  {
    WithoutShape(s, e.key);
    var full := [e] + Without(s, e.key);
    AheadCount(full, k);
    AheadCons(e, Without(s, e.key), k);
    Bigger(Ahead(full, k), since);
    if |full| > capacity && IndexOf(full, k) < capacity {
      AheadTake(full, capacity, k);
    }
  }

  lemma {:induction false} AheadTake(s: Recency, n: nat, k: Key)
    requires n <= |s| && IndexOf(s, k) < n
    ensures IndexOf(s[..n], k) == IndexOf(s, k) && Ahead(s[..n], k) == Ahead(s, k)
  {
    if s[0].key != k {
      AheadTake(s[1..], n - 1, k);
      assert s[..n][1..] == s[1..][..n - 1];
    }
  }

  /** A key leaves the cache by eviction only after at least `capacity` distinct other keys
      have been touched since its own last touch. */
  lemma EvictionTakesCapacity(capacity: nat, ops: seq<Op>, i: nat, k: Key)
    requires capacity >= 1 && 0 < i <= |ops|
    requires Touched(Run(capacity, ops[..i - 1]), ops[i - 1]) == Some(k)
    requires k !in TouchedSince(capacity, ops, i)
    requires forall j :: i <= j < |ops| ==> !Drops(ops[j], k)
    requires !Resident(Run(capacity, ops), k)
    ensures |TouchedSince(capacity, ops, i)| >= capacity
  {
    AheadWasTouched(capacity, ops, i, k);
  }
}
