/**
 * The request form behind registration replay (lib/agent-registration-replay.ts). Keys are sorted by the runtime's
 * collation, in which distinct keys may tie, and the rebuilt object lists index keys first whatever the sort made of
 * them.
 */
module RegistrationForm {
  import opened CanonicalForm
  import opened JsonText
  import opened JsonValues
  import opened KeyOrder
  import opened Numerals

  // ---- rebuilding an object ----

  /** The keys listed first are exactly the decimal numerals of 0 to 2^32 - 2. */
  lemma IndexKeysAreNumerals(key: string)
    ensures IsIndex(key) <==> exists n: nat :: n <= 4_294_967_294 && key == Digits(n)
  {
    if IsIndex(key) { PlainIffDigits(key); }
    if n: nat :| n <= 4_294_967_294 && key == Digits(n) {
      DigitsRoundTrip(n);
      PlainIffDigits(key);
    }
  }

  predicate AllIndexed(es: seq<Entry>) { forall i | 0 <= i < |es| :: IsIndex(es[i].key) }

  predicate NoneIndexed(es: seq<Entry>) { forall i | 0 <= i < |es| :: !IsIndex(es[i].key) }

  function Indexed(es: seq<Entry>): seq<Entry> {
    if es == [] then [] else (if IsIndex(es[0].key) then [es[0]] else []) + Indexed(es[1..])
  }

  function Named(es: seq<Entry>): seq<Entry> {
    if es == [] then [] else (if IsIndex(es[0].key) then [] else [es[0]]) + Named(es[1..])
  }

  /** Only index keys are ever ranked. */
  function Rank(key: string): nat { if IsIndex(key) then NumberOf(key) else 0 }

  predicate ByNumber(a: string, b: string) { Rank(a) <= Rank(b) }

  /** How an object built from these entries lists them: index keys by number, then the others as given. */
  function FromEntries(es: seq<Entry>): seq<Entry> { SortByKey(ByNumber, Indexed(es)) + Named(es) }

  // ---- the form ----

  function Registered(collate: Comparison, v: Json): Json
    decreases v, 1
  {
    match v
    case Arr(items) => Arr(RegisteredItems(collate, items))
    case Obj(es) => Obj(FromEntries(RegisteredEntries(collate, es)))
    case _ => v
  }

  function RegisteredItems(collate: Comparison, items: seq<Json>): (r: seq<Json>)
    ensures |r| == |items|
    decreases items, 0
  {
    if items == [] then [] else [Registered(collate, items[0])] + RegisteredItems(collate, items[1..])
  }

  /** Entries sorted by collation, each value in its own form. */
  function RegisteredEntries(collate: Comparison, es: seq<Entry>): seq<Entry>
    decreases es, 0
  {
    if es == [] then []
    else Insert(collate, Entry(es[0].key, Registered(collate, es[0].value)), RegisteredEntries(collate, es[1..]))
  }

  /** The entries are sorted first and their values normalised afterwards, as the code does it. */
  lemma {:induction false} RegisteredSortsThenNormalises(collate: Comparison, es: seq<Entry>)
    ensures RegisteredEntries(collate, es) == MapValues(v => Registered(collate, v), SortByKey(collate, es))
  {
    if es != [] {
      RegisteredSortsThenNormalises(collate, es[1..]);
      InsertMapsValues(collate, v => Registered(collate, v), es[0], SortByKey(collate, es[1..]));
    }
  }

  // ---- one comparison that does both ----

  /** Index keys by number ahead of all others, which are collated. */
  function IndexFirst(collate: Comparison): Comparison {
    (a, b) =>
      if IsIndex(a) && IsIndex(b) then NumberOf(a) <= NumberOf(b)
      else if IsIndex(a) then true
      else if IsIndex(b) then false
      else collate(a, b)
  }

  lemma IndexFirstIsAPreorder(collate: Comparison)
    requires TotalPreorder(collate)
    ensures TotalPreorder(IndexFirst(collate))
  {
  }

  /** Only keys that are no index keys tie, and only if they tie in the collation. */
  lemma OnlyCollationTies(collate: Comparison)
    ensures IndexKeysApart(IndexFirst(collate))
    ensures forall a, b | a != b && Tied(IndexFirst(collate), a, b) :: !IsIndex(a) && !IsIndex(b) && Tied(collate, a, b)
  {
    forall a, b | a != b && IsIndex(a) && IsIndex(b) ensures NumberOf(a) != NumberOf(b) {
      if NumberOf(a) == NumberOf(b) { PlainIsUnique(a, b); }
    }
  }

  lemma {:induction false} IndexedMembers(es: seq<Entry>)
    ensures AllIndexed(Indexed(es)) && forall x :: x in Indexed(es) <==> x in es && IsIndex(x.key)
  {
    if es != [] {
      IndexedMembers(es[1..]);
      assert es == [es[0]] + es[1..];
    }
  }

  lemma {:induction false} NamedMembers(es: seq<Entry>)
    ensures NoneIndexed(Named(es)) && forall x :: x in Named(es) <==> x in es && !IsIndex(x.key)
  {
    if es != [] {
      NamedMembers(es[1..]);
      assert es == [es[0]] + es[1..];
    }
  }

  lemma {:induction false} IndexedStaysDistinct(es: seq<Entry>)
    requires DistinctKeys(es)
    ensures DistinctKeys(Indexed(es))
  {
    if es != [] {
      var part := Indexed(es[1..]);
      IndexedStaysDistinct(es[1..]);
      IndexedMembers(es[1..]);
      forall i | 0 <= i < |part| ensures part[i].key != es[0].key { assert part[i] in es[1..]; }
    }
  }

  /** The entries that belong ahead of this key come first. */
  predicate Parted(le: Comparison, key: string, es: seq<Entry>) {
    forall i, j | 0 <= i < j < |es| && Strictly(le, es[j].key, key) :: Strictly(le, es[i].key, key)
  }

  lemma StrictlyIsMonotone(le: Comparison, a: string, b: string, c: string)
    requires TotalPreorder(le) && le(a, b) && Strictly(le, b, c)
    ensures Strictly(le, a, c)
  {
    assert le(c, a) ==> le(c, b);
  }

  lemma OrderedIsParted(le: Comparison, key: string, es: seq<Entry>)
    requires TotalPreorder(le) && Ordered(le, es)
    ensures Parted(le, key, es)
  {
    forall i, j | 0 <= i < j < |es| && Strictly(le, es[j].key, key) ensures Strictly(le, es[i].key, key) {
      StrictlyIsMonotone(le, es[i].key, es[j].key, key);
    }
  }

  lemma NamedHeadIsLater(le: Comparison, e: Entry, es: seq<Entry>)
    requires Parted(le, e.key, es) && es != [] && !Strictly(le, es[0].key, e.key)
    ensures Named(es) == [] || !Strictly(le, Named(es)[0].key, e.key)
  {
    NamedMembers(es);
    if Named(es) != [] {
      var x := Named(es)[0];
      assert x in es;
      var i :| 0 <= i < |es| && es[i] == x;
    }
  }

  lemma NamedCons(e: Entry, es: seq<Entry>)
    ensures Named([e] + es) == (if IsIndex(e.key) then [] else [e]) + Named(es)
  {
    assert ([e] + es)[1..] == es;
  }

  lemma InsertPast(le: Comparison, e: Entry, head: Entry, es: seq<Entry>)
    requires Strictly(le, head.key, e.key)
    ensures Insert(le, e, [head] + es) == [head] + Insert(le, e, es)
  {
    assert ([head] + es)[1..] == es;
  }

  function NamedInsert(le: Comparison, e: Entry, es: seq<Entry>): seq<Entry> {
    if IsIndex(e.key) then Named(es) else Insert(le, e, Named(es))
  }

  lemma NamedOfFrontInsert(le: Comparison, e: Entry, es: seq<Entry>)
    requires Parted(le, e.key, es) && (es == [] || !Strictly(le, es[0].key, e.key))
    ensures Named(Insert(le, e, es)) == NamedInsert(le, e, es)
  {
    NamedCons(e, es);
    if es != [] { NamedHeadIsLater(le, e, es); }
  }

  lemma NamedOfPassing(le: Comparison, e: Entry, head: Entry, es: seq<Entry>)
    requires Strictly(le, head.key, e.key) && Named(Insert(le, e, es)) == NamedInsert(le, e, es)
    ensures Named(Insert(le, e, [head] + es)) == NamedInsert(le, e, [head] + es)
  {
    InsertPast(le, e, head, es);
    NamedCons(head, Insert(le, e, es));
    NamedCons(head, es);
    InsertPast(le, e, head, Named(es));
    if IsIndex(head.key) { assert [] + Named(es) == Named(es); }
  }

  lemma {:induction false} NamedOfInsert(le: Comparison, e: Entry, es: seq<Entry>)
    requires Parted(le, e.key, es)
    ensures Named(Insert(le, e, es)) == NamedInsert(le, e, es)
  {
    if es != [] && Strictly(le, es[0].key, e.key) {
      NamedOfInsert(le, e, es[1..]);
      NamedOfPassing(le, e, es[0], es[1..]);
      assert es == [es[0]] + es[1..];
    } else {
      NamedOfFrontInsert(le, e, es);
    }
  }

  lemma {:induction false} IndexedOfInsert(le: Comparison, e: Entry, es: seq<Entry>)
    requires !IsIndex(e.key)
    ensures Indexed(Insert(le, e, es)) == Indexed(es)
  {
    if es != [] && Strictly(le, es[0].key, e.key) {
      var inner := Insert(le, e, es[1..]);
      assert ([es[0]] + inner)[1..] == inner;
      IndexedOfInsert(le, e, es[1..]);
    } else {
      assert ([e] + es)[1..] == es;
    }
  }

  /** What sorting distinct index keys by number gives, whatever order they come in. */
  lemma {:induction false} SortedByNumber(es: seq<Entry>)
    requires AllIndexed(es) && DistinctKeys(es)
    ensures var r := SortByKey(ByNumber, es);
            Ordered(ByNumber, r) && AllIndexed(r) && DistinctKeys(r) && forall x :: x in r <==> x in es
  {
    if es != [] {
      var rest := es[1..];
      assert es == [es[0]] + rest;
      SortedByNumber(rest);
      var done := SortByKey(ByNumber, rest);
      forall i | 0 <= i < |done| ensures done[i].key != es[0].key {
        assert done[i] in rest;
      }
      InsertMembers(ByNumber, es[0], done);
      InsertKeepsDistinct(ByNumber, es[0], done);
      InsertOrders(ByNumber, es[0], done);
      assert AllIndexed(Insert(ByNumber, es[0], done)) by {
        var r := Insert(ByNumber, es[0], done);
        forall i | 0 <= i < |r| ensures IsIndex(r[i].key) { assert r[i] in r; }
      }
    }
  }

  /** Distinct index keys have one order by number. */
  lemma NumberOrderIsUnique(xs: seq<Entry>, ys: seq<Entry>)
    requires AllIndexed(xs) && AllIndexed(ys) && DistinctKeys(xs) && DistinctKeys(ys)
    requires forall x :: x in xs <==> x in ys
    ensures SortByKey(ByNumber, xs) == SortByKey(ByNumber, ys)
  {
    SortedByNumber(xs);
    SortedByNumber(ys);
    var r, q := SortByKey(ByNumber, xs), SortByKey(ByNumber, ys);
    forall a, b | Tied(ByNumber, a, b) ensures !Precedes(r, a, b) {
      if Precedes(r, a, b) {
        var i, j := PrecedesAt(r, a, b);
        PlainIsUnique(a, b);
      }
    }
    SortedIsUnique(ByNumber, r, q);
  }

  // ---- inserting under the one comparison ----

  lemma {:induction false} InsertPastIndexed(le: Comparison, e: Entry, xs: seq<Entry>, ys: seq<Entry>)
    requires AllIndexed(xs) && !IsIndex(e.key) && NoneIndexed(ys)
    ensures Insert(IndexFirst(le), e, xs + ys) == xs + Insert(le, e, ys)
  {
    if xs == [] {
      assert xs + ys == ys;
      InsertNamed(le, e, ys);
    } else {
      assert (xs + ys)[1..] == xs[1..] + ys;
      InsertPastIndexed(le, e, xs[1..], ys);
    }
  }

  lemma {:induction false} InsertNamed(le: Comparison, e: Entry, ys: seq<Entry>)
    requires !IsIndex(e.key) && NoneIndexed(ys)
    ensures Insert(IndexFirst(le), e, ys) == Insert(le, e, ys)
  {
    if ys != [] { InsertNamed(le, e, ys[1..]); }
  }

  lemma {:induction false} InsertAmongIndexed(le: Comparison, e: Entry, xs: seq<Entry>, ys: seq<Entry>)
    requires AllIndexed(xs) && IsIndex(e.key) && NoneIndexed(ys)
    ensures Insert(IndexFirst(le), e, xs + ys) == Insert(ByNumber, e, xs) + ys
  {
    if xs == [] {
      assert xs + ys == ys;
    } else {
      assert (xs + ys)[1..] == xs[1..] + ys;
      InsertAmongIndexed(le, e, xs[1..], ys);
    }
  }

  lemma IndexedInsertSorts(collate: Comparison, e: Entry, es: seq<Entry>)
    requires DistinctKeys(es) && e.key !in Keys(es) && IsIndex(e.key)
    ensures SortByKey(ByNumber, Indexed(Insert(collate, e, es))) == Insert(ByNumber, e,
        SortByKey(ByNumber, Indexed(es)))
  {
    var one, after := [e] + Indexed(es), Indexed(Insert(collate, e, es));
    assert one[1..] == Indexed(es);
    IndexedMembers(es);
    IndexedMembers(Insert(collate, e, es));
    InsertMembers(collate, e, es);
    InsertKeepsDistinct(collate, e, es);
    IndexedStaysDistinct(es);
    IndexedStaysDistinct(Insert(collate, e, es));
    forall i | 0 <= i < |Indexed(es)| ensures Indexed(es)[i].key != e.key { assert Indexed(es)[i] in es; }
    NumberOrderIsUnique(after, one);
  }

  /** Sorting by collation and rebuilding the object inserts each entry as the one comparison does. */
  lemma InsertThenRebuild(collate: Comparison, e: Entry, es: seq<Entry>)
    requires TotalPreorder(collate) && Ordered(collate, es) && DistinctKeys(es) && e.key !in Keys(es)
    ensures FromEntries(Insert(collate, e, es)) == Insert(IndexFirst(collate), e, FromEntries(es))
  {
    OrderedIsParted(collate, e.key, es);
    NamedOfInsert(collate, e, es);
    IndexedStaysDistinct(es);
    IndexedMembers(es);
    NamedMembers(es);
    SortedByNumber(Indexed(es));
    if IsIndex(e.key) {
      IndexedInsertSorts(collate, e, es);
      InsertAmongIndexed(collate, e, SortByKey(ByNumber, Indexed(es)), Named(es));
    } else {
      IndexedOfInsert(collate, e, es);
      InsertPastIndexed(collate, e, SortByKey(ByNumber, Indexed(es)), Named(es));
    }
  }

  lemma {:induction false} RegisteredEntriesAreSorted(collate: Comparison, es: seq<Entry>)
    requires TotalPreorder(collate) && DistinctKeys(es)
    ensures var r := RegisteredEntries(collate, es); Ordered(collate, r) && DistinctKeys(r) && Keys(r) == Keys(es)
  {
    if es != [] {
      var rest := es[1..];
      assert es == [es[0]] + rest;
      KeysOfCons(es[0], rest);
      RegisteredEntriesAreSorted(collate, rest);
      var e, done := Entry(es[0].key, Registered(collate, es[0].value)), RegisteredEntries(collate, rest);
      assert es[0].key !in Keys(rest);
      InsertOrders(collate, e, done);
      InsertKeepsDistinct(collate, e, done);
      InsertMembers(collate, e, done);
    }
  }

  lemma {:induction false} EntriesRebuild(collate: Comparison, es: seq<Entry>)
    requires TotalPreorder(collate) && DistinctKeys(es)
    requires forall i | 0 <= i < |es| :: Registered(collate, es[i].value) == Canonical(IndexFirst(collate), es[i].value)
    ensures FromEntries(RegisteredEntries(collate, es)) == CanonicalEntries(IndexFirst(collate), es)
  {
    if es != [] {
      var rest := es[1..];
      assert es == [es[0]] + rest;
      EntriesRebuild(collate, rest);
      RegisteredEntriesAreSorted(collate, rest);
      assert es[0].key !in Keys(rest);
      InsertThenRebuild(collate, Entry(es[0].key, Registered(collate, es[0].value)), RegisteredEntries(collate, rest));
    }
  }

  /** What the code computes is the canonical form under one comparison, index keys first. */
  lemma {:induction false} RegisteredIsCanonical(collate: Comparison, v: Json)
    requires TotalPreorder(collate) && WellFormed(v)
    ensures Registered(collate, v) == Canonical(IndexFirst(collate), v)
    decreases v
  {
    match v
    case Arr(items) =>
      var le := IndexFirst(collate);
      forall i | 0 <= i < |items| ensures RegisteredItems(collate, items)[i] == CanonicalItems(le, items)[i] {
        RegisteredItemsAt(collate, items, i);
        ItemsAt(le, items, i);
        RegisteredIsCanonical(collate, items[i]);
      }
      assert RegisteredItems(collate, items) == CanonicalItems(le, items);
    case Obj(es) =>
      forall i | 0 <= i < |es| ensures Registered(collate, es[i].value) == Canonical(IndexFirst(collate), es[i].value) {
        RegisteredIsCanonical(collate, es[i].value);
      }
      EntriesRebuild(collate, es);
    case _ =>
  }

  lemma {:induction false} RegisteredItemsAt(collate: Comparison, items: seq<Json>, i: nat)
    requires i < |items|
    ensures RegisteredItems(collate, items)[i] == Registered(collate, items[i])
  {
    if i > 0 { RegisteredItemsAt(collate, items[1..], i - 1); }
  }

  // ---- what replay may rely on ----

  /** For every collation: normalising twice is normalising once, and only the order of keys is lost. */
  lemma RegistrationIsIdempotent(collate: Comparison, v: Json)
    requires TotalPreorder(collate) && WellFormed(v)
    ensures Registered(collate, Registered(collate, v)) == Registered(collate, v)
    ensures SameUpToKeyOrder(v, Registered(collate, v))
  {
    IndexFirstIsAPreorder(collate);
    var le := IndexFirst(collate);
    RegisteredIsCanonical(collate, v);
    FormIsWellFormed(le, v);
    RegisteredIsCanonical(collate, Registered(collate, v));
    CanonicalIsIdempotent(le, v);
    FormKeepsTheValue(le, v);
  }

  /** What the hashed text says: the form, with null for every number that is not finite. */
  function HashedText(collate: Comparison, v: Json): Json { Printed(Registered(collate, v)) }

  /** Printing and normalising may be done in either order, so the text is the form of the printed request. */
  lemma TextIsTheFormOfThePrinted(collate: Comparison, v: Json)
    requires TotalPreorder(collate) && WellFormed(v)
    ensures WellFormed(Printed(v)) && HashedText(collate, v) == Canonical(IndexFirst(collate), Printed(v))
  {
    RegisteredIsCanonical(collate, v);
    LeavesCommute(IndexFirst(collate), Print, v);
    LeavesKeepWellFormed(Print, v);
  }

  /**
   * Two requests are taken for the same exactly when, as printed, they are equal up to key order and list colliding
   * keys in the same order.
   */
  lemma SameRegistrationIff(collate: Comparison, a: Json, b: Json)
    requires TotalPreorder(collate) && WellFormed(a) && WellFormed(b)
    ensures HashedText(collate, a) == HashedText(collate, b)
       <==> SameUpToUntiedOrder(IndexFirst(collate), Printed(a), Printed(b))
    ensures AllFinite(a) && AllFinite(b) ==>
              (HashedText(collate, a) == HashedText(collate, b) <==> SameUpToUntiedOrder(IndexFirst(collate), a, b))
  {
    IndexFirstIsAPreorder(collate);
    TextIsTheFormOfThePrinted(collate, a);
    TextIsTheFormOfThePrinted(collate, b);
    SameFormIffSameUpToUntiedOrder(IndexFirst(collate), Printed(a), Printed(b));
    FinitePrintsAsItIs(a);
    FinitePrintsAsItIs(b);
  }

  /**
   * A request is recognised under every order of its keys, and only then, exactly when no object in it has two keys
   * that collide in the collation; requests are compared as they print.
   */
  lemma ReplayIgnoresKeyOrderIffNoCollisions(collate: Comparison, a: Json)
    requires TotalPreorder(collate) && WellFormed(a) && Enumerated(a)
    ensures TieFree(IndexFirst(collate), a)
       <==> forall b | WellFormed(b) && Enumerated(b) ::
           HashedText(collate, a) == HashedText(collate, b) <==> SameUpToKeyOrder(Printed(a), Printed(b))
  {
    LeavesKeepTies(IndexFirst(collate), Print, a);
    forall b | WellFormed(b) && TieFree(IndexFirst(collate), a)
      ensures HashedText(collate, a) == HashedText(collate, b) <==> SameUpToKeyOrder(Printed(a), Printed(b))
    {
      WithoutCollisionsOrderIsFree(collate, a, b);
    }
    if !TieFree(IndexFirst(collate), a) {
      var b := CollisionsHaveATwin(collate, a);
      assert !(HashedText(collate, a) == HashedText(collate, b) <==> SameUpToKeyOrder(Printed(a), Printed(b)));
    }
  }

  lemma WithoutCollisionsOrderIsFree(collate: Comparison, a: Json, b: Json)
    requires TotalPreorder(collate) && WellFormed(a) && WellFormed(b) && TieFree(IndexFirst(collate), a)
    ensures HashedText(collate, a) == HashedText(collate, b) <==> SameUpToKeyOrder(Printed(a), Printed(b))
  {
    var le, x, y := IndexFirst(collate), Printed(a), Printed(b);
    SameRegistrationIff(collate, a, b);
    LeavesKeepTies(le, Print, a);
    if SameUpToUntiedOrder(le, x, y) { UntiedOrderImpliesSame(le, x, y); }
    if SameUpToKeyOrder(x, y) { TieFreeNeedsNoOrder(le, x, y); }
  }

  /** A request with a collision has a reordering with another hash, and that one prints as it is. */
  lemma CollisionsHaveATwin(collate: Comparison, a: Json) returns (b: Json)
    requires TotalPreorder(collate) && WellFormed(a) && Enumerated(a) && !TieFree(IndexFirst(collate), a)
    ensures WellFormed(b) && Enumerated(b) && Printed(b) == b
    ensures SameUpToKeyOrder(Printed(a), b) && HashedText(collate, a) != HashedText(collate, b)
  {
    var le := IndexFirst(collate);
    IndexFirstIsAPreorder(collate);
    OnlyCollationTies(collate);
    LeavesKeepTies(le, Print, a);
    LeavesKeepWellFormed(Print, a);
    LeavesKeepOrder(Print, a);
    b := TiedValuesHaveATwin(le, Printed(a));
    PrintedTwice(a);
    UnmovedUpToKeyOrder(Print, Printed(a), b);
    UnmovedStays(Print, b);
    SameRegistrationIff(collate, a, b);
  }

  /** In a collation without collisions key order never matters. */
  lemma TotalCollationsIgnoreKeyOrder(collate: Comparison, a: Json, b: Json)
    requires TotalOrder(collate) && WellFormed(a) && WellFormed(b)
    ensures HashedText(collate, a) == HashedText(collate, b) <==> SameUpToKeyOrder(Printed(a), Printed(b))
  {
    IndexFirstIsAPreorder(collate);
    OnlyCollationTies(collate);
    TotalOrdersHaveNoTies(IndexFirst(collate), a);
    WithoutCollisionsOrderIsFree(collate, a, b);
  }

  // ---- null and what prints as null ----

  /**
   * A recognised replay is the same request up to key order, whatever it is, exactly when the first request has no null
   * and no number beyond the finite range: every other request shares its hash with one that is not the same.
   */
  lemma ReplayIsTheSameRequestIffExact(collate: Comparison, a: Json)
    requires TotalPreorder(collate) && WellFormed(a) && Enumerated(a)
    ensures Exact(a)
       <==> forall b | WellFormed(b) && Enumerated(b) && HashedText(collate, a) == HashedText(collate, b) ::
           SameUpToKeyOrder(a, b)
  {
    FinitePrintsAsItIs(a);
    OnlyNullOverflows(a);
    if Exact(a) {
      forall b | WellFormed(b) && HashedText(collate, a) == HashedText(collate, b) ensures SameUpToKeyOrder(a, b) {
        SameRegistrationIff(collate, a, b);
        UntiedOrderImpliesSame(IndexFirst(collate), Printed(a), Printed(b));
        UnmovedStays(Print, a);
        UnmovedUpToKeyOrder(Overflow, a, Printed(b));
        WithoutNullNothingIsLost(b);
      }
    } else {
      var b := InexactRequestsAreMistaken(collate, a);
    }
  }

  /** An exact hash match that is no replay: null and an overflowing number, one for the other. */
  lemma InexactRequestsAreMistaken(collate: Comparison, a: Json) returns (b: Json)
    requires TotalPreorder(collate) && WellFormed(a) && Enumerated(a) && !Exact(a)
    ensures WellFormed(b) && Enumerated(b)
    ensures HashedText(collate, a) == HashedText(collate, b) && !SameUpToKeyOrder(a, b)
  {
    FinitePrintsAsItIs(a);
    OnlyNullOverflows(a);
    var f := if AllFinite(a) then Overflow else Print;
    b := OnLeaves(f, a);
    LeavesKeepWellFormed(f, a);
    LeavesKeepOrder(f, a);
    MovedIsAnother(f, a);
    PrintedTwice(a);
    OverflowPrintsTheSame(a);
    assert Printed(a) == Printed(b);
    TextIsTheFormOfThePrinted(collate, a);
    TextIsTheFormOfThePrinted(collate, b);
  }

  // ---- a collision ----

  const COMPOSED: string := ['\U{E9}']
  const DECOMPOSED: string := ['e', '\U{301}']

  /** The two spellings of one accented letter compare equal, as canonically equivalent strings must. */
  function Fold(key: string): string { if key == DECOMPOSED then COMPOSED else key }

  predicate Folding(a: string, b: string) { CodeUnits(Fold(a), Fold(b)) }

  lemma FoldingIsAPreorder()
    ensures TotalPreorder(Folding)
  {
    CodeUnitsAreATotalOrder();
  }

  lemma SpellingsAreNoIndexKeys()
    ensures COMPOSED != DECOMPOSED && !IsIndex(COMPOSED) && !IsIndex(DECOMPOSED)
  {
    assert |COMPOSED| != |DECOMPOSED| && !IsDigit(COMPOSED[0]) && !IsDigit(DECOMPOSED[0]);
  }

  /** One object with both spellings, listed either way. */
  function Spelled(first: string, second: string, x: Json, y: Json): Json { Obj([Entry(first, x), Entry(second, y)]) }

  lemma SpelledIsProper(first: string, second: string, x: Json, y: Json)
    requires first != second && !IsIndex(first) && !IsIndex(second)
    requires WellFormed(x) && WellFormed(y) && Enumerated(x) && Enumerated(y)
    ensures WellFormed(Spelled(first, second, x, y)) && Enumerated(Spelled(first, second, x, y))
  {
  }

  /** The field of a registration whose items are kept as they were sent, at whatever depth. */
  const TOOLS: string := "tools_config"

  /** A registration with this one tool in place of the tools it lists at i. */
  function WithTool(es: seq<Entry>, i: nat, tool: Json): seq<Entry>
    requires i < |es|
  {
    es[i := Entry(TOOLS, Arr([tool]))]
  }

  /**
   * In any collation with that collision, a registration whose tool has both spellings as keys is not recognised when
   * it is sent again with the two swapped.
   */
  lemma CollidingKeysBreakReplay(collate: Comparison, es: seq<Entry>, i: nat, x: Json, y: Json)
    requires TotalPreorder(collate) && Tied(collate, COMPOSED, DECOMPOSED)
    requires WellFormed(Obj(es)) && Enumerated(Obj(es)) && i < |es| && es[i].key == TOOLS
    requires WellFormed(x) && WellFormed(y) && Enumerated(x) && Enumerated(y)
    ensures var a := Obj(WithTool(es, i, Spelled(COMPOSED, DECOMPOSED, x, y)));
            var b := Obj(WithTool(es, i, Spelled(DECOMPOSED, COMPOSED, y, x)));
            && WellFormed(a) && WellFormed(b) && Enumerated(a) && Enumerated(b)
            && SameUpToKeyOrder(a, b)
            && HashedText(collate, a) != HashedText(collate, b)
  {
    var le := IndexFirst(collate);
    SpellingsAreNoIndexKeys();
    ToolsOfBothSpellings(le, es, i, x, y);
    LeavesKeepWellFormed(Print, Obj(es));
    LeavesKeepOrder(Print, Obj(es));
    LeavesKeepWellFormed(Print, x);
    LeavesKeepWellFormed(Print, y);
    LeavesKeepOrder(Print, x);
    LeavesKeepOrder(Print, y);
    ToolsOfBothSpellings(le, Printed(Obj(es)).entries, i, Printed(x), Printed(y));
    PrintedTools(es, i, COMPOSED, DECOMPOSED, x, y);
    PrintedTools(es, i, DECOMPOSED, COMPOSED, y, x);
    SameRegistrationIff(collate, Obj(WithTool(es, i, Spelled(COMPOSED, DECOMPOSED, x, y))),
                        Obj(WithTool(es, i, Spelled(DECOMPOSED, COMPOSED, y, x))));
  }

  lemma PrintedTools(es: seq<Entry>, i: nat, k: string, l: string, x: Json, y: Json)
    requires i < |es|
    ensures Printed(Obj(WithTool(es, i, Spelled(k, l, x, y))))
         == Obj(WithTool(Printed(Obj(es)).entries, i, Spelled(k, l, Printed(x), Printed(y))))
  {
    var tool := Spelled(k, l, x, y);
    assert Printed(tool).entries == [Entry(k, Printed(x)), Entry(l, Printed(y))];
    assert Printed(Arr([tool])).items == [Printed(tool)];
    assert Printed(Obj(WithTool(es, i, tool))).entries
        == WithTool(Printed(Obj(es)).entries, i, Spelled(k, l, Printed(x), Printed(y)));
  }

  lemma ToolsOfBothSpellings(le: Comparison, es: seq<Entry>, i: nat, x: Json, y: Json)
    requires Tied(le, COMPOSED, DECOMPOSED) && WellFormed(Obj(es)) && Enumerated(Obj(es))
    requires i < |es| && es[i].key == TOOLS
    requires WellFormed(x) && WellFormed(y) && Enumerated(x) && Enumerated(y)
    ensures var a := Obj(WithTool(es, i, Spelled(COMPOSED, DECOMPOSED, x, y)));
            var b := Obj(WithTool(es, i, Spelled(DECOMPOSED, COMPOSED, y, x)));
            && WellFormed(a) && WellFormed(b) && Enumerated(a) && Enumerated(b)
            && SameUpToKeyOrder(a, b) && !SameUpToUntiedOrder(le, a, b)
  {
    var one, two := Spelled(COMPOSED, DECOMPOSED, x, y), Spelled(DECOMPOSED, COMPOSED, y, x);
    SpellingsAreNoIndexKeys();
    SpelledIsProper(COMPOSED, DECOMPOSED, x, y);
    SpelledIsProper(DECOMPOSED, COMPOSED, y, x);
    TwoTiedKeys(le, COMPOSED, DECOMPOSED, x, y);
    ReplacingTools(es, i, one);
    var fs := WithTool(es, i, one);
    assert WithTool(es, i, two) == fs[i := Entry(fs[i].key, Arr([two]))];
    assert Arr([one]).items[0] == one && Arr([two]).items[0] == two;
    ReplacingAValue(le, fs, i, Arr([two]));
  }

  lemma ReplacingTools(es: seq<Entry>, i: nat, tool: Json)
    requires WellFormed(Obj(es)) && Enumerated(Obj(es)) && i < |es| && es[i].key == TOOLS
    requires WellFormed(tool) && Enumerated(tool)
    ensures WellFormed(Obj(WithTool(es, i, tool))) && Enumerated(Obj(WithTool(es, i, tool)))
  {
    var fs := WithTool(es, i, tool);
    forall k | 0 <= k < |es| ensures fs[k].key == es[k].key {}
  }

  lemma TwoTiedKeys(le: Comparison, k: string, l: string, x: Json, y: Json)
    requires k != l && Tied(le, k, l) && WellFormed(x) && WellFormed(y)
    ensures SameUpToKeyOrder(Spelled(k, l, x, y), Spelled(l, k, y, x))
    ensures !SameUpToUntiedOrder(le, Spelled(k, l, x, y), Spelled(l, k, y, x))
  {
    var es, fs := [Entry(k, x), Entry(l, y)], [Entry(l, y), Entry(k, x)];
    assert DistinctKeys(es) && Swap(es, 0, 1) == fs;
    SwapKeepsKeys(es, 0, 1);
    SwapKeepsValues(es, 0, 1);
    SwapBreaksTies(le, es, 0, 1);
  }

  lemma FoldingCollides()
    ensures TotalPreorder(Folding) && Tied(Folding, COMPOSED, DECOMPOSED)
  {
    FoldingIsAPreorder();
  }
}
