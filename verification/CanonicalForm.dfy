/**
 * Sorting the keys of every object by a comparison in which distinct keys may tie. The sort is stable, as JavaScript's
 * is. Registration replay and contract creation hash forms of this kind.
 */
module CanonicalForm {
  import opened JsonValues
  import opened KeyOrder

  /** Whether the first key may come no later than the second. */
  type Comparison = (string, string) -> bool

  ghost predicate TotalPreorder(le: Comparison) {
    && (forall a, b :: le(a, b) || le(b, a))
    && (forall a, b, c :: le(a, b) && le(b, c) ==> le(a, c))
  }

  predicate Tied(le: Comparison, a: string, b: string) { le(a, b) && le(b, a) }

  predicate Strictly(le: Comparison, a: string, b: string) { le(a, b) && !le(b, a) }

  // ---- the form ----

  /** Puts an entry before the entries it does not have to follow; it came ahead of them, so the sort is stable. */
  function Insert(le: Comparison, e: Entry, es: seq<Entry>): (r: seq<Entry>)
    ensures multiset(r) == multiset(es) + multiset{e}
  {
    if es == [] then [e]
    else if Strictly(le, es[0].key, e.key) then
      assert es == [es[0]] + es[1..];
      [es[0]] + Insert(le, e, es[1..])
    else [e] + es
  }

  function SortByKey(le: Comparison, es: seq<Entry>): (r: seq<Entry>)
    ensures multiset(r) == multiset(es)
  {
    if es == [] then []
    else
      assert es == [es[0]] + es[1..];
      Insert(le, es[0], SortByKey(le, es[1..]))
  }

  function Canonical(le: Comparison, v: Json): Json
    decreases v, 1
  {
    match v
    case Arr(items) => Arr(CanonicalItems(le, items))
    case Obj(es) => Obj(CanonicalEntries(le, es))
    case _ => v
  }

  function CanonicalItems(le: Comparison, items: seq<Json>): (r: seq<Json>)
    ensures |r| == |items|
    decreases items, 0
  {
    if items == [] then [] else [Canonical(le, items[0])] + CanonicalItems(le, items[1..])
  }

  /** Entries sorted by key, each value in canonical form. */
  function CanonicalEntries(le: Comparison, es: seq<Entry>): seq<Entry>
    decreases es, 0
  {
    if es == [] then []
    else Insert(le, Entry(es[0].key, Canonical(le, es[0].value)), CanonicalEntries(le, es[1..]))
  }

  // ---- when two values count as the same ----

  /** Equality up to the order of object keys, at every depth. */
  predicate SameUpToKeyOrder(a: Json, b: Json)
    decreases a
  {
    match (a, b)
    case (Arr(xs), Arr(ys)) =>
      |xs| == |ys| && forall i | 0 <= i < |xs| :: SameUpToKeyOrder(xs[i], ys[i])
    case (Obj(es), Obj(fs)) =>
      && Keys(es) == Keys(fs)
      && forall i, j | 0 <= i < |es| && 0 <= j < |fs| && es[i].key == fs[j].key ::
        SameUpToKeyOrder(es[i].value, fs[j].value)
    case _ => a == b
  }

  /** Key a is listed somewhere ahead of key b. */
  predicate Precedes(es: seq<Entry>, a: string, b: string) {
    es != [] && ((es[0].key == a && b in Keys(es[1..])) || Precedes(es[1..], a, b))
  }

  /** Tied keys come in the same relative order. */
  ghost predicate KeepsTies(le: Comparison, es: seq<Entry>, fs: seq<Entry>) {
    forall a, b | Tied(le, a, b) && Precedes(es, a, b) :: Precedes(fs, a, b)
  }

  /** Equality up to key order at every depth, tied keys of each object in the same relative order. */
  ghost predicate SameUpToUntiedOrder(le: Comparison, a: Json, b: Json)
    decreases a
  {
    match (a, b)
    case (Arr(xs), Arr(ys)) =>
      |xs| == |ys| && forall i | 0 <= i < |xs| :: SameUpToUntiedOrder(le, xs[i], ys[i])
    case (Obj(es), Obj(fs)) =>
      && Keys(es) == Keys(fs)
      && KeepsTies(le, es, fs)
      && forall i, j | 0 <= i < |es| && 0 <= j < |fs| && es[i].key == fs[j].key ::
        SameUpToUntiedOrder(le, es[i].value, fs[j].value)
    case _ => a == b
  }

  predicate NoTies(le: Comparison, es: seq<Entry>) {
    forall i, j | 0 <= i < j < |es| :: !Tied(le, es[i].key, es[j].key)
  }

  /** No object at any depth has two tied keys. */
  predicate TieFree(le: Comparison, v: Json) {
    match v
    case Arr(items) => forall i | 0 <= i < |items| :: TieFree(le, items[i])
    case Obj(es) => NoTies(le, es) && forall i | 0 <= i < |es| :: TieFree(le, es[i].value)
    case _ => true
  }

  // ---- how insertion behaves ----

  predicate Ordered(le: Comparison, es: seq<Entry>) {
    forall i, j | 0 <= i < j < |es| :: le(es[i].key, es[j].key)
  }

  lemma KeysOfCons(e: Entry, es: seq<Entry>)
    ensures Keys([e] + es) == Keys(es) + {e.key}
  {
    var all := [e] + es;
    forall k ensures k in Keys(all) <==> k == e.key || k in Keys(es) {
      if k in Keys(es) { var i :| 0 <= i < |es| && es[i].key == k; assert all[i + 1].key == k; }
      if k in Keys(all) { var i :| 0 <= i < |all| && all[i].key == k; assert i > 0 ==> es[i - 1].key == k; }
      assert all[0].key == e.key;
    }
  }

  lemma InsertMembers(le: Comparison, e: Entry, es: seq<Entry>)
    ensures |Insert(le, e, es)| == |es| + 1
    ensures forall x :: x in Insert(le, e, es) <==> x == e || x in es
    ensures Keys(Insert(le, e, es)) == Keys(es) + {e.key}
  {
    var r := Insert(le, e, es);
    assert |multiset(r)| == |es| + 1;
    forall x ensures x in r <==> x == e || x in es {
      assert x in r <==> x in multiset(r);
      assert x in es <==> x in multiset(es);
    }
    forall k ensures k in Keys(r) <==> k == e.key || k in Keys(es) {
      if k in Keys(r) { var i :| 0 <= i < |r| && r[i].key == k; assert r[i] in r; }
      if k in Keys(es) { var i :| 0 <= i < |es| && es[i].key == k; assert es[i] in r; }
      assert e in r;
    }
  }

  lemma {:induction false} InsertOrders(le: Comparison, e: Entry, es: seq<Entry>)
    requires TotalPreorder(le) && Ordered(le, es)
    ensures Ordered(le, Insert(le, e, es))
  {
    if es != [] && Strictly(le, es[0].key, e.key) {
      InsertOrders(le, e, es[1..]);
      var r := Insert(le, e, es[1..]);
      InsertMembers(le, e, es[1..]);
      forall j | 0 <= j < |r| ensures le(es[0].key, r[j].key) { assert r[j] in r; }
    } else if es != [] {
      forall j | 0 <= j < |es| ensures le(e.key, es[j].key) { assert le(e.key, es[0].key); }
    }
  }

  lemma InsertKeepsDistinct(le: Comparison, e: Entry, es: seq<Entry>)
    requires DistinctKeys(es) && e.key !in Keys(es)
    ensures DistinctKeys(Insert(le, e, es))
  {
    if es != [] && Strictly(le, es[0].key, e.key) {
      KeysOfCons(es[0], es[1..]);
      assert es == [es[0]] + es[1..];
      InsertKeepsDistinct(le, e, es[1..]);
      InsertMembers(le, e, es[1..]);
      var r := Insert(le, e, es[1..]);
      forall j | 0 <= j < |r| ensures r[j].key != es[0].key { assert r[j].key in Keys(r); }
    }
  }

  lemma {:induction false} PrecedesKeys(es: seq<Entry>, a: string, b: string)
    requires Precedes(es, a, b)
    ensures a in Keys(es) && b in Keys(es)
  {
    assert es == [es[0]] + es[1..];
    KeysOfCons(es[0], es[1..]);
    if Precedes(es[1..], a, b) { PrecedesKeys(es[1..], a, b); }
  }

  /** Inserting an entry ahead of a list keeps its place among the keys it ties with. */
  lemma {:induction false} InsertIsStable(le: Comparison, e: Entry, es: seq<Entry>, a: string, b: string)
    requires Tied(le, a, b) && Precedes([e] + es, a, b)
    ensures Precedes(Insert(le, e, es), a, b)
  {
    assert ([e] + es)[1..] == es;
    if es != [] && Strictly(le, es[0].key, e.key) {
      assert es == [es[0]] + es[1..];
      KeysOfCons(es[0], es[1..]);
      InsertMembers(le, e, es[1..]);
      var r := Insert(le, e, es[1..]);
      assert ([es[0]] + r)[1..] == r;
      assert ([e] + es[1..])[1..] == es[1..];
      if !(es[0].key == a && b in Keys(es[1..])) {
        InsertIsStable(le, e, es[1..], a, b);
      }
    }
  }

  // ---- what the canonical entries are ----

  lemma {:induction false} ItemsAt(le: Comparison, items: seq<Json>, i: nat)
    requires i < |items|
    ensures CanonicalItems(le, items)[i] == Canonical(le, items[i])
  {
    if i > 0 { ItemsAt(le, items[1..], i - 1); }
  }

  /** Entry e of the source list with its value in canonical form. */
  function Normal(le: Comparison, e: Entry): Entry { Entry(e.key, Canonical(le, e.value)) }

  predicate IsNormalOf(le: Comparison, es: seq<Entry>, x: Entry) {
    exists i | 0 <= i < |es| :: x == Normal(le, es[i])
  }

  /** The canonical entries are the given ones in key order, values normalised, tied keys in their given order. */
  lemma {:induction false} EntriesAreSorted(le: Comparison, es: seq<Entry>)
    requires TotalPreorder(le) && DistinctKeys(es)
    ensures var r := CanonicalEntries(le, es);
            && Ordered(le, r) && DistinctKeys(r) && Keys(r) == Keys(es) && |r| == |es|
            && KeepsTies(le, es, r)
            && forall x :: x in r <==> IsNormalOf(le, es, x)
  {
    if es != [] {
      var rest, e := es[1..], Normal(le, es[0]);
      assert es == [es[0]] + rest;
      EntriesAreSorted(le, rest);
      KeysOfCons(es[0], rest);
      var done := CanonicalEntries(le, rest);
      assert es[0].key !in Keys(rest);
      InsertOrders(le, e, done);
      InsertKeepsDistinct(le, e, done);
      InsertMembers(le, e, done);
      MembersOfCons(le, es);
      forall a, b | Tied(le, a, b) && Precedes(es, a, b) ensures Precedes(CanonicalEntries(le, es), a, b) {
        assert ([e] + done)[1..] == done;
        InsertIsStable(le, e, done, a, b);
      }
    }
  }

  lemma MembersOfCons(le: Comparison, es: seq<Entry>)
    requires es != []
    ensures forall x :: IsNormalOf(le, es, x) <==> x == Normal(le, es[0]) || IsNormalOf(le, es[1..], x)
  {
    forall i | 0 <= i < |es[1..]| ensures es[1..][i] == es[i + 1] {}
    forall x ensures IsNormalOf(le, es, x) <==> x == Normal(le, es[0]) || IsNormalOf(le, es[1..], x) {
      if i :| 0 <= i < |es| && x == Normal(le, es[i]) {
        if i > 0 { assert x == Normal(le, es[1..][i - 1]); }
      }
    }
  }

  lemma HeadIsMember(es: seq<Entry>)
    ensures es == [] || es[0] in es
  {
  }

  /** Two ordered lists with the same entries and the same order among tied keys are the same list. */
  lemma {:induction false} SortedIsUnique(le: Comparison, xs: seq<Entry>, ys: seq<Entry>)
    requires Ordered(le, xs) && Ordered(le, ys) && DistinctKeys(xs) && DistinctKeys(ys)
    requires KeepsTies(le, xs, ys)
    requires forall x :: x in xs <==> x in ys
    ensures xs == ys
  {
    if xs == [] {
      HeadIsMember(ys);
    } else {
      assert xs[0] in ys;
      HeadsAgree(le, xs, ys);
      TailsMatch(le, xs, ys);
      SortedIsUnique(le, xs[1..], ys[1..]);
      assert xs == [xs[0]] + xs[1..] && ys == [ys[0]] + ys[1..];
    }
  }

  lemma TailsMatch(le: Comparison, xs: seq<Entry>, ys: seq<Entry>)
    requires DistinctKeys(xs) && DistinctKeys(ys) && xs != [] && ys != [] && xs[0] == ys[0]
    requires KeepsTies(le, xs, ys)
    requires forall x :: x in xs <==> x in ys
    ensures KeepsTies(le, xs[1..], ys[1..])
    ensures forall x :: x in xs[1..] <==> x in ys[1..]
  {
    var xt, yt := xs[1..], ys[1..];
    forall x ensures x in xt <==> x in yt {
      if x in xt { var i :| 0 <= i < |xt| && xt[i] == x; assert xs[i + 1] == x && x in ys && x.key != xs[0].key; }
      if x in yt { var i :| 0 <= i < |yt| && yt[i] == x; assert ys[i + 1] == x && x in xs && x.key != ys[0].key; }
    }
    forall a, b | Tied(le, a, b) && Precedes(xt, a, b) ensures Precedes(yt, a, b) {
      PrecedesKeys(xt, a, b);
      assert Precedes(xs, a, b);
      var i :| 0 <= i < |xt| && xt[i].key == a;
      assert xs[i + 1].key == a;
    }
  }

  lemma NothingPrecedesTheHead(es: seq<Entry>, a: string)
    requires DistinctKeys(es) && es != []
    ensures !Precedes(es, a, es[0].key)
  {
    assert es[0].key !in Keys(es[1..]);
    if Precedes(es[1..], a, es[0].key) { PrecedesKeys(es[1..], a, es[0].key); }
  }

  lemma HeadsAgree(le: Comparison, xs: seq<Entry>, ys: seq<Entry>)
    requires Ordered(le, xs) && Ordered(le, ys) && DistinctKeys(xs) && DistinctKeys(ys)
    requires KeepsTies(le, xs, ys) && xs != [] && ys != []
    requires forall x :: x in xs <==> x in ys
    ensures xs[0] == ys[0]
  {
    var x, y := xs[0], ys[0];
    assert x in ys && y in xs;
    var i :| 0 <= i < |ys| && ys[i] == x;
    var j :| 0 <= j < |xs| && xs[j] == y;
    if i > 0 && j > 0 {
      assert Tied(le, x.key, y.key);
      assert xs[1..][j - 1].key == y.key;
      assert Precedes(xs, x.key, y.key);
      NothingPrecedesTheHead(ys, x.key);
    }
  }

  // ---- the sort the code performs, and the form above ----

  function MapValues(f: Json -> Json, es: seq<Entry>): (r: seq<Entry>)
    ensures |r| == |es|
  {
    if es == [] then [] else [Entry(es[0].key, f(es[0].value))] + MapValues(f, es[1..])
  }

  lemma {:induction false} InsertMapsValues(le: Comparison, f: Json -> Json, e: Entry, es: seq<Entry>)
    ensures Insert(le, Entry(e.key, f(e.value)), MapValues(f, es)) == MapValues(f, Insert(le, e, es))
  {
    if es != [] && Strictly(le, es[0].key, e.key) {
      InsertMapsValues(le, f, e, es[1..]);
      var inner := Insert(le, e, es[1..]);
      assert ([es[0]] + inner)[1..] == inner;
      assert MapValues(f, es)[1..] == MapValues(f, es[1..]);
    } else {
      assert ([e] + es)[1..] == es;
      assert es != [] ==> MapValues(f, es)[0].key == es[0].key;
    }
  }

  /** Sorting the entries and then normalising their values gives the canonical entries. */
  lemma {:induction false} SortThenNormalise(le: Comparison, es: seq<Entry>)
    ensures CanonicalEntries(le, es) == MapValues(v => Canonical(le, v), SortByKey(le, es))
  {
    if es != [] {
      SortThenNormalise(le, es[1..]);
      InsertMapsValues(le, v => Canonical(le, v), es[0], SortByKey(le, es[1..]));
    }
  }

  // ---- normalising twice ----

  lemma {:induction false} OrderedEntriesStay(le: Comparison, es: seq<Entry>)
    requires TotalPreorder(le) && Ordered(le, es)
    requires forall i | 0 <= i < |es| :: Canonical(le, es[i].value) == es[i].value
    ensures CanonicalEntries(le, es) == es
  {
    if es != [] {
      OrderedEntriesStay(le, es[1..]);
      assert Normal(le, es[0]) == es[0] && es == [es[0]] + es[1..];
    }
  }

  /** For every order, ties or not: normalising twice is normalising once. */
  lemma {:induction false} CanonicalIsIdempotent(le: Comparison, v: Json)
    requires TotalPreorder(le) && WellFormed(v)
    ensures Canonical(le, Canonical(le, v)) == Canonical(le, v)
    decreases v
  {
    match v
    case Arr(items) =>
      var once := CanonicalItems(le, items);
      forall i | 0 <= i < |items| ensures CanonicalItems(le, once)[i] == once[i] {
        ItemsAt(le, once, i);
        ItemsAt(le, items, i);
        CanonicalIsIdempotent(le, items[i]);
      }
      assert CanonicalItems(le, once) == once;
    case Obj(es) =>
      EntriesAreSorted(le, es);
      var once := CanonicalEntries(le, es);
      forall j | 0 <= j < |once| ensures Canonical(le, once[j].value) == once[j].value {
        assert once[j] in once;
        var i :| 0 <= i < |es| && once[j] == Normal(le, es[i]);
        CanonicalIsIdempotent(le, es[i].value);
      }
      OrderedEntriesStay(le, once);
    case _ =>
  }

  // ---- exactly which values share a form ----

  lemma SameItems(le: Comparison, xs: seq<Json>, ys: seq<Json>)
    requires forall i | 0 <= i < |xs| && i < |ys| ::
               Canonical(le, xs[i]) == Canonical(le, ys[i]) <==> SameUpToUntiedOrder(le, xs[i], ys[i])
    ensures CanonicalItems(le, xs) == CanonicalItems(le, ys)
            <==> |xs| == |ys| && forall i | 0 <= i < |xs| :: SameUpToUntiedOrder(le, xs[i], ys[i])
  {
    var cs, ds := CanonicalItems(le, xs), CanonicalItems(le, ys);
    forall i | 0 <= i < |xs| ensures cs[i] == Canonical(le, xs[i]) { ItemsAt(le, xs, i); }
    forall i | 0 <= i < |ys| ensures ds[i] == Canonical(le, ys[i]) { ItemsAt(le, ys, i); }
    if |xs| == |ys| && forall i | 0 <= i < |xs| :: SameUpToUntiedOrder(le, xs[i], ys[i]) { assert cs == ds; }
  }

  ghost predicate SameValues(le: Comparison, es: seq<Entry>, fs: seq<Entry>) {
    forall i, j | 0 <= i < |es| && 0 <= j < |fs| && es[i].key == fs[j].key ::
        Canonical(le, es[i].value) == Canonical(le, fs[j].value)
  }

  lemma TiesAreSymmetric(le: Comparison, es: seq<Entry>, fs: seq<Entry>)
    requires DistinctKeys(es) && DistinctKeys(fs) && Keys(es) == Keys(fs) && KeepsTies(le, es, fs)
    ensures KeepsTies(le, fs, es)
  {
    forall a, b | Tied(le, a, b) && Precedes(fs, a, b) ensures Precedes(es, a, b) {
      PrecedesKeys(fs, a, b);
      PrecedesIsStrict(fs, a, b);
      OneOrTheOther(es, a, b);
    }
  }

  lemma {:induction false} OneOrTheOther(es: seq<Entry>, a: string, b: string)
    requires a in Keys(es) && b in Keys(es) && a != b
    ensures Precedes(es, a, b) || Precedes(es, b, a)
  {
    assert es == [es[0]] + es[1..];
    KeysOfCons(es[0], es[1..]);
    if es[0].key != a && es[0].key != b { OneOrTheOther(es[1..], a, b); }
  }

  lemma {:induction false} PrecedesIsStrict(es: seq<Entry>, a: string, b: string)
    requires DistinctKeys(es) && Precedes(es, a, b)
    ensures a != b && !Precedes(es, b, a)
  {
    var rest := es[1..];
    assert es == [es[0]] + rest;
    assert es[0].key !in Keys(rest);
    if Precedes(rest, b, a) { PrecedesKeys(rest, b, a); }
    if Precedes(rest, a, b) {
      PrecedesKeys(rest, a, b);
      PrecedesIsStrict(rest, a, b);
    }
  }

  lemma SameFormSameTies(le: Comparison, es: seq<Entry>, fs: seq<Entry>)
    requires TotalPreorder(le) && DistinctKeys(es) && DistinctKeys(fs)
    requires CanonicalEntries(le, es) == CanonicalEntries(le, fs)
    ensures Keys(es) == Keys(fs) && KeepsTies(le, es, fs) && SameValues(le, es, fs)
  {
    EntriesAreSorted(le, es);
    EntriesAreSorted(le, fs);
    var r := CanonicalEntries(le, es);
    TiesAreSymmetric(le, fs, r);
    forall i, j | 0 <= i < |es| && 0 <= j < |fs| && es[i].key == fs[j].key
      ensures Canonical(le, es[i].value) == Canonical(le, fs[j].value)
    {
      assert Normal(le, es[i]) in r && Normal(le, fs[j]) in r;
      var k :| 0 <= k < |r| && r[k] == Normal(le, es[i]);
      var l :| 0 <= l < |r| && r[l] == Normal(le, fs[j]);
      assert k == l;
    }
  }

  lemma SameTiesSameForm(le: Comparison, es: seq<Entry>, fs: seq<Entry>)
    requires TotalPreorder(le) && DistinctKeys(es) && DistinctKeys(fs)
    requires Keys(es) == Keys(fs) && KeepsTies(le, es, fs) && SameValues(le, es, fs)
    ensures CanonicalEntries(le, es) == CanonicalEntries(le, fs)
  {
    EntriesAreSorted(le, es);
    EntriesAreSorted(le, fs);
    var r, q := CanonicalEntries(le, es), CanonicalEntries(le, fs);
    TiesAreSymmetric(le, es, r);
    assert KeepsTies(le, r, q);
    SameValuesSameMembers(le, es, fs);
    SortedIsUnique(le, r, q);
  }

  lemma SameValuesSameMembers(le: Comparison, es: seq<Entry>, fs: seq<Entry>)
    requires Keys(es) == Keys(fs) && SameValues(le, es, fs)
    ensures forall x :: IsNormalOf(le, es, x) <==> IsNormalOf(le, fs, x)
  {
    forall i | 0 <= i < |es| ensures IsNormalOf(le, fs, Normal(le, es[i])) {
      assert es[i].key in Keys(fs);
      var j :| 0 <= j < |fs| && fs[j].key == es[i].key;
      assert Normal(le, es[i]) == Normal(le, fs[j]);
    }
    forall j | 0 <= j < |fs| ensures IsNormalOf(le, es, Normal(le, fs[j])) {
      assert fs[j].key in Keys(es);
      var i :| 0 <= i < |es| && es[i].key == fs[j].key;
      assert Normal(le, fs[j]) == Normal(le, es[i]);
    }
  }

  lemma SameObjects(le: Comparison, es: seq<Entry>, fs: seq<Entry>)
    requires TotalPreorder(le) && DistinctKeys(es) && DistinctKeys(fs)
    ensures CanonicalEntries(le, es) == CanonicalEntries(le, fs)
            <==> Keys(es) == Keys(fs) && KeepsTies(le, es, fs) && SameValues(le, es, fs)
  {
    if CanonicalEntries(le, es) == CanonicalEntries(le, fs) {
      SameFormSameTies(le, es, fs);
    } else if Keys(es) == Keys(fs) && KeepsTies(le, es, fs) && SameValues(le, es, fs) {
      SameTiesSameForm(le, es, fs);
    }
  }

  /**
   * Two values share a form exactly when they are equal up to key order and list tied keys of each object in the same
   * order.
   */
  lemma {:induction false} SameFormIffSameUpToUntiedOrder(le: Comparison, a: Json, b: Json)
    requires TotalPreorder(le) && WellFormed(a) && WellFormed(b)
    ensures Canonical(le, a) == Canonical(le, b) <==> SameUpToUntiedOrder(le, a, b)
    decreases a
  {
    match (a, b)
    case (Arr(xs), Arr(ys)) =>
      forall i | 0 <= i < |xs| && i < |ys|
        ensures Canonical(le, xs[i]) == Canonical(le, ys[i]) <==> SameUpToUntiedOrder(le, xs[i], ys[i])
      {
        SameFormIffSameUpToUntiedOrder(le, xs[i], ys[i]);
      }
      SameItems(le, xs, ys);
    case (Obj(es), Obj(fs)) =>
      forall i, j | 0 <= i < |es| && 0 <= j < |fs|
        ensures Canonical(le, es[i].value) == Canonical(le, fs[j].value) <==>
            SameUpToUntiedOrder(le, es[i].value, fs[j].value)
      {
        SameFormIffSameUpToUntiedOrder(le, es[i].value, fs[j].value);
      }
      SameObjects(le, es, fs);
    case _ =>
  }

  lemma {:induction false} FormIsWellFormed(le: Comparison, v: Json)
    requires TotalPreorder(le) && WellFormed(v)
    ensures WellFormed(Canonical(le, v))
    decreases v
  {
    match v
    case Arr(items) =>
      forall i | 0 <= i < |items| ensures WellFormed(CanonicalItems(le, items)[i]) {
        ItemsAt(le, items, i);
        FormIsWellFormed(le, items[i]);
      }
    case Obj(es) =>
      EntriesAreSorted(le, es);
      var r := CanonicalEntries(le, es);
      forall j | 0 <= j < |r| ensures WellFormed(r[j].value) {
        assert r[j] in r;
        var i :| 0 <= i < |es| && r[j] == Normal(le, es[i]);
        FormIsWellFormed(le, es[i].value);
      }
    case _ =>
  }

  /** The form loses nothing but the order of keys. */
  lemma FormKeepsTheValue(le: Comparison, v: Json)
    requires TotalPreorder(le) && WellFormed(v)
    ensures SameUpToKeyOrder(v, Canonical(le, v))
  {
    CanonicalIsIdempotent(le, v);
    FormIsWellFormed(le, v);
    SameFormIffSameUpToUntiedOrder(le, v, Canonical(le, v));
    UntiedOrderImpliesSame(le, v, Canonical(le, v));
  }

  // ---- when plain equality up to key order is enough ----

  lemma {:induction false} PrecedesAt(es: seq<Entry>, a: string, b: string) returns (i: nat, j: nat)
    requires Precedes(es, a, b)
    ensures i < j < |es| && es[i].key == a && es[j].key == b
  {
    var rest := es[1..];
    if es[0].key == a && b in Keys(rest) {
      i := 0;
      var k :| 0 <= k < |rest| && rest[k].key == b;
      j := k + 1;
    } else {
      i, j := PrecedesAt(rest, a, b);
      i, j := i + 1, j + 1;
    }
  }

  lemma {:induction false} AtPrecedes(es: seq<Entry>, i: nat, j: nat)
    requires i < j < |es|
    ensures Precedes(es, es[i].key, es[j].key)
  {
    var rest := es[1..];
    assert rest[j - 1] == es[j];
    if i > 0 { AtPrecedes(rest, i - 1, j - 1); }
  }

  lemma NoTiesKeepTies(le: Comparison, es: seq<Entry>, fs: seq<Entry>)
    requires NoTies(le, es)
    ensures KeepsTies(le, es, fs)
  {
    forall a, b | Tied(le, a, b) ensures !Precedes(es, a, b) {
      if Precedes(es, a, b) { var i, j := PrecedesAt(es, a, b); }
    }
  }

  lemma {:induction false} UntiedOrderImpliesSame(le: Comparison, a: Json, b: Json)
    requires SameUpToUntiedOrder(le, a, b)
    ensures SameUpToKeyOrder(a, b)
    decreases a
  {
    match (a, b)
    case (Arr(xs), Arr(ys)) =>
      forall i | 0 <= i < |xs| ensures SameUpToKeyOrder(xs[i], ys[i]) { UntiedOrderImpliesSame(le, xs[i], ys[i]); }
    case (Obj(es), Obj(fs)) =>
      forall i, j | 0 <= i < |es| && 0 <= j < |fs| && es[i].key == fs[j].key
          ensures SameUpToKeyOrder(es[i].value, fs[j].value) {
        UntiedOrderImpliesSame(le, es[i].value, fs[j].value);
      }
    case _ =>
  }

  lemma {:induction false} TieFreeNeedsNoOrder(le: Comparison, a: Json, b: Json)
    requires TieFree(le, a) && SameUpToKeyOrder(a, b)
    ensures SameUpToUntiedOrder(le, a, b)
    decreases a
  {
    match (a, b)
    case (Arr(xs), Arr(ys)) =>
      forall i | 0 <= i < |xs| ensures SameUpToUntiedOrder(le, xs[i], ys[i]) { TieFreeNeedsNoOrder(le, xs[i], ys[i]); }
    case (Obj(es), Obj(fs)) =>
      NoTiesKeepTies(le, es, fs);
      forall i, j | 0 <= i < |es| && 0 <= j < |fs| && es[i].key == fs[j].key
        ensures SameUpToUntiedOrder(le, es[i].value, fs[j].value)
      {
        TieFreeNeedsNoOrder(le, es[i].value, fs[j].value);
      }
    case _ =>
  }

  lemma {:induction false} SameAsItself(v: Json)
    requires WellFormed(v)
    ensures SameUpToKeyOrder(v, v)
  {
    match v
    case Arr(xs) => forall i | 0 <= i < |xs| ensures SameUpToKeyOrder(xs[i], xs[i]) { SameAsItself(xs[i]); }
    case Obj(es) =>
      forall i, j | 0 <= i < |es| && 0 <= j < |es| && es[i].key == es[j].key
          ensures SameUpToKeyOrder(es[i].value, es[j].value) {
        SameAsItself(es[i].value);
      }
    case _ =>
  }

  /** No index key ties with any other key. */
  ghost predicate IndexKeysApart(le: Comparison) {
    forall a, b | IsIndex(a) && a != b :: !Tied(le, a, b)
  }

  function Swap(es: seq<Entry>, i: nat, j: nat): seq<Entry>
    requires i < j < |es|
  {
    es[i := es[j]][j := es[i]]
  }

  function Other(i: nat, j: nat, n: nat): nat { if n == i then j else if n == j then i else n }

  lemma SwapKeepsKeys(es: seq<Entry>, i: nat, j: nat)
    requires DistinctKeys(es) && i < j < |es|
    ensures Keys(Swap(es, i, j)) == Keys(es) && DistinctKeys(Swap(es, i, j))
  {
    var fs := Swap(es, i, j);
    forall k ensures k in Keys(es) <==> k in Keys(fs) {
      if k in Keys(es) { var n :| 0 <= n < |es| && es[n].key == k; assert fs[Other(i, j, n)].key == k; }
      if k in Keys(fs) { var n :| 0 <= n < |fs| && fs[n].key == k; assert es[Other(i, j, n)].key == k; }
    }
    forall n, m | 0 <= n < m < |fs| ensures fs[n].key != fs[m].key {
      assert fs[n] == es[Other(i, j, n)] && fs[m] == es[Other(i, j, m)];
    }
  }

  lemma SwapStaysEnumerated(le: Comparison, es: seq<Entry>, i: nat, j: nat)
    requires IndexKeysApart(le) && DistinctKeys(es) && i < j < |es| && Tied(le, es[i].key, es[j].key)
    requires InEnumerationOrder(es)
    ensures InEnumerationOrder(Swap(es, i, j))
  {
    assert !IsIndex(es[i].key) && !IsIndex(es[j].key);
  }

  /** Two tied entries of one object, listed the other way round. */
  lemma SwapChangesTheForm(le: Comparison, es: seq<Entry>, i: nat, j: nat)
    requires TotalPreorder(le) && WellFormed(Obj(es)) && i < j < |es| && Tied(le, es[i].key, es[j].key)
    ensures var fs := Swap(es, i, j);
            && WellFormed(Obj(fs)) && SameUpToKeyOrder(Obj(es), Obj(fs)) && !SameUpToUntiedOrder(le, Obj(es), Obj(fs))
            && (IndexKeysApart(le) && Enumerated(Obj(es)) ==> Enumerated(Obj(fs)))
  {
    var fs := Swap(es, i, j);
    SwapKeepsKeys(es, i, j);
    SwapKeepsValues(es, i, j);
    SwapBreaksTies(le, es, i, j);
    if IndexKeysApart(le) && Enumerated(Obj(es)) { SwapStaysEnumerated(le, es, i, j); }
  }

  lemma SwapKeepsValues(es: seq<Entry>, i: nat, j: nat)
    requires WellFormed(Obj(es)) && i < j < |es|
    ensures forall k, l | 0 <= k < |es| && 0 <= l < |es| && es[k].key == Swap(es, i, j)[l].key ::
              SameUpToKeyOrder(es[k].value, Swap(es, i, j)[l].value)
  {
    var fs := Swap(es, i, j);
    forall k, l | 0 <= k < |es| && 0 <= l < |fs| && es[k].key == fs[l].key
        ensures SameUpToKeyOrder(es[k].value, fs[l].value) {
      assert fs[l] == es[Other(i, j, l)];
      SameAsItself(es[k].value);
    }
  }

  lemma SwapBreaksTies(le: Comparison, es: seq<Entry>, i: nat, j: nat)
    requires DistinctKeys(es) && i < j < |es| && Tied(le, es[i].key, es[j].key)
    ensures !KeepsTies(le, es, Swap(es, i, j))
  {
    var fs := Swap(es, i, j);
    SwapKeepsKeys(es, i, j);
    AtPrecedes(es, i, j);
    AtPrecedes(fs, i, j);
    PrecedesIsStrict(fs, es[j].key, es[i].key);
  }

  /** A value in which two keys tie has a twin: equal up to key order, yet with another form. */
  lemma {:induction false} TiedValuesHaveATwin(le: Comparison, a: Json) returns (b: Json)
    requires TotalPreorder(le) && WellFormed(a) && !TieFree(le, a)
    ensures WellFormed(b) && SameUpToKeyOrder(a, b) && !SameUpToUntiedOrder(le, a, b)
    ensures IndexKeysApart(le) && Enumerated(a) ==> Enumerated(b)
    decreases a
  {
    match a
    case Arr(xs) =>
      var i :| 0 <= i < |xs| && !TieFree(le, xs[i]);
      var x := TiedValuesHaveATwin(le, xs[i]);
      b := Arr(xs[i := x]);
      forall k | 0 <= k < |xs| ensures SameUpToKeyOrder(xs[k], b.items[k]) { if k != i { SameAsItself(xs[k]); } }
    case Obj(es) =>
      if i, j :| 0 <= i < j < |es| && Tied(le, es[i].key, es[j].key) {
        b := Obj(Swap(es, i, j));
        SwapChangesTheForm(le, es, i, j);
      } else {
        var i :| 0 <= i < |es| && !TieFree(le, es[i].value);
        var x := TiedValuesHaveATwin(le, es[i].value);
        b := Obj(es[i := Entry(es[i].key, x)]);
        ReplacingAValue(le, es, i, x);
      }
  }

  lemma ReplacingAValue(le: Comparison, es: seq<Entry>, i: nat, x: Json)
    requires WellFormed(Obj(es)) && i < |es| && WellFormed(x)
    requires SameUpToKeyOrder(es[i].value, x) && !SameUpToUntiedOrder(le, es[i].value, x)
    ensures var fs := es[i := Entry(es[i].key, x)];
            && WellFormed(Obj(fs)) && SameUpToKeyOrder(Obj(es), Obj(fs)) && !SameUpToUntiedOrder(le, Obj(es), Obj(fs))
            && (Enumerated(Obj(es)) && Enumerated(x) ==> Enumerated(Obj(fs)))
  {
    var fs := es[i := Entry(es[i].key, x)];
    forall k | 0 <= k < |es| ensures fs[k].key == es[k].key {}
    assert Keys(fs) == Keys(es) by {
      forall k ensures k in Keys(es) <==> k in Keys(fs) {
        if k in Keys(es) { var n :| 0 <= n < |es| && es[n].key == k; assert fs[n].key == k; }
      }
    }
    forall k, l | 0 <= k < |es| && 0 <= l < |fs| && es[k].key == fs[l].key
        ensures SameUpToKeyOrder(es[k].value, fs[l].value) {
      if k != i { SameAsItself(es[k].value); }
    }
    assert es[i].key == fs[i].key && !SameUpToUntiedOrder(le, es[i].value, fs[i].value);
  }

  /**
   * Sharing a form is the same as equality up to key order exactly for values without tied keys: such a value shares
   * its form with whatever equals it up to key order, and any other value has a twin with another form.
   */
  lemma KeyOrderIsIrrelevantIffTieFree(le: Comparison, a: Json)
    requires TotalPreorder(le) && WellFormed(a)
    ensures TieFree(le, a) <==> forall b | WellFormed(b) ::
        Canonical(le, a) == Canonical(le, b) <==> SameUpToKeyOrder(a, b)
  {
    forall b | WellFormed(b) ensures TieFree(le, a) ==>
        (Canonical(le, a) == Canonical(le, b) <==> SameUpToKeyOrder(a, b)) {
      SameFormIffSameUpToUntiedOrder(le, a, b);
      if SameUpToUntiedOrder(le, a, b) { UntiedOrderImpliesSame(le, a, b); }
      if TieFree(le, a) && SameUpToKeyOrder(a, b) { TieFreeNeedsNoOrder(le, a, b); }
    }
    if !TieFree(le, a) {
      var b := TiedValuesHaveATwin(le, a);
      SameFormIffSameUpToUntiedOrder(le, a, b);
      assert WellFormed(b) && !(Canonical(le, a) == Canonical(le, b) <==> SameUpToKeyOrder(a, b));
    }
  }

  // ---- total orders ----

  /** No two different keys tie. */
  ghost predicate TotalOrder(le: Comparison) {
    TotalPreorder(le) && forall a, b | Tied(le, a, b) :: a == b
  }

  lemma {:induction false} TotalOrdersHaveNoTies(le: Comparison, v: Json)
    requires TotalOrder(le) && WellFormed(v)
    ensures TieFree(le, v)
  {
    match v
    case Arr(xs) => forall i | 0 <= i < |xs| ensures TieFree(le, xs[i]) { TotalOrdersHaveNoTies(le, xs[i]); }
    case Obj(es) => forall i | 0 <= i < |es|
        ensures TieFree(le, es[i].value) { TotalOrdersHaveNoTies(le, es[i].value); }
    case _ =>
  }

  /** Under any total order, equal forms mean equality up to key order, and conversely. */
  lemma TotalOrderForgetsKeyOrder(le: Comparison, a: Json, b: Json)
    requires TotalOrder(le) && WellFormed(a) && WellFormed(b)
    ensures Canonical(le, a) == Canonical(le, b) <==> SameUpToKeyOrder(a, b)
  {
    TotalOrdersHaveNoTies(le, a);
    KeyOrderIsIrrelevantIffTieFree(le, a);
  }

  /** Comparison of keys by code units. */
  predicate CodeUnits(a: string, b: string) { a == b || Less(a, b) }

  lemma CodeUnitsAreATotalOrder()
    ensures TotalOrder(CodeUnits)
  {
    forall a, b ensures CodeUnits(a, b) || CodeUnits(b, a) ensures Tied(CodeUnits, a, b) ==> a == b {
      LessIsTotal(a, b);
    }
    forall a, b, c | CodeUnits(a, b) && CodeUnits(b, c) ensures CodeUnits(a, c) {
      if a != b && b != c { LessIsTransitive(a, b, c); }
    }
  }
}
