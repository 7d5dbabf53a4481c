/** What the JSON text of a value still tells: JSON.stringify writes null for every number that is not finite. */
module JsonText {
  import opened JsonValues
  import opened CanonicalForm

  // ---- rewriting the leaves of a value ----

  predicate Leaf(v: Json) { !v.Arr? && !v.Obj? }

  ghost predicate KeepsLeaves(f: Json -> Json) { forall v | Leaf(v) :: Leaf(f(v)) }

  function OnLeaves(f: Json -> Json, v: Json): Json {
    match v
    case Arr(items) => Arr(seq(|items|, i requires 0 <= i < |items| => OnLeaves(f, items[i])))
    case Obj(es) => Obj(seq(|es|, i requires 0 <= i < |es| => Entry(es[i].key, OnLeaves(f, es[i].value))))
    case _ => f(v)
  }

  /** Every leaf is left as it is. */
  predicate Unmoved(f: Json -> Json, v: Json) {
    match v
    case Arr(items) => forall i | 0 <= i < |items| :: Unmoved(f, items[i])
    case Obj(es) => forall i | 0 <= i < |es| :: Unmoved(f, es[i].value)
    case _ => f(v) == v
  }

  lemma SameKeys(es: seq<Entry>, fs: seq<Entry>)
    requires |es| == |fs| && forall i | 0 <= i < |es| :: es[i].key == fs[i].key
    ensures Keys(es) == Keys(fs)
  {
    forall k ensures k in Keys(es) <==> k in Keys(fs) {
      if k in Keys(es) { var i :| 0 <= i < |es| && es[i].key == k; assert fs[i].key == k; }
      if k in Keys(fs) { var i :| 0 <= i < |fs| && fs[i].key == k; assert es[i].key == k; }
    }
  }

  lemma {:induction false} LeavesKeepWellFormed(f: Json -> Json, v: Json)
    requires KeepsLeaves(f)
    ensures WellFormed(OnLeaves(f, v)) <==> WellFormed(v)
  {
    match v
    case Arr(items) =>
      forall i | 0 <= i < |items| ensures WellFormed(OnLeaves(f, v).items[i]) <==> WellFormed(items[i]) {
        LeavesKeepWellFormed(f, items[i]);
      }
    case Obj(es) =>
      forall i | 0 <= i < |es| ensures WellFormed(OnLeaves(f, v).entries[i].value) <==> WellFormed(es[i].value) {
        LeavesKeepWellFormed(f, es[i].value);
      }
    case _ =>
  }

  lemma {:induction false} LeavesKeepOrder(f: Json -> Json, v: Json)
    requires KeepsLeaves(f)
    ensures Enumerated(OnLeaves(f, v)) <==> Enumerated(v)
  {
    match v
    case Arr(items) =>
      forall i | 0 <= i < |items| ensures Enumerated(OnLeaves(f, v).items[i]) <==> Enumerated(items[i]) {
        LeavesKeepOrder(f, items[i]);
      }
    case Obj(es) =>
      forall i | 0 <= i < |es| ensures Enumerated(OnLeaves(f, v).entries[i].value) <==> Enumerated(es[i].value) {
        LeavesKeepOrder(f, es[i].value);
      }
    case _ =>
  }

  lemma {:induction false} LeavesKeepTies(le: Comparison, f: Json -> Json, v: Json)
    requires KeepsLeaves(f)
    ensures TieFree(le, OnLeaves(f, v)) <==> TieFree(le, v)
  {
    match v
    case Arr(items) =>
      forall i | 0 <= i < |items| ensures TieFree(le, OnLeaves(f, v).items[i]) <==> TieFree(le, items[i]) {
        LeavesKeepTies(le, f, items[i]);
      }
    case Obj(es) =>
      forall i | 0 <= i < |es| ensures TieFree(le, OnLeaves(f, v).entries[i].value) <==> TieFree(le, es[i].value) {
        LeavesKeepTies(le, f, es[i].value);
      }
    case _ =>
  }

  /** Sorting keys and rewriting leaves may be done in either order. */
  lemma {:induction false} LeavesCommute(le: Comparison, f: Json -> Json, v: Json)
    requires KeepsLeaves(f)
    ensures OnLeaves(f, Canonical(le, v)) == Canonical(le, OnLeaves(f, v))
    decreases v
  {
    match v
    case Arr(items) =>
      var there, back := CanonicalItems(le, items), OnLeaves(f, v).items;
      forall i | 0 <= i < |items| ensures OnLeaves(f, there[i]) == CanonicalItems(le, back)[i] {
        ItemsAt(le, items, i);
        ItemsAt(le, back, i);
        LeavesCommute(le, f, items[i]);
      }
      assert OnLeaves(f, Arr(there)) == Arr(CanonicalItems(le, back));
    case Obj(es) =>
      forall i | 0 <= i < |es| ensures OnLeaves(f, Canonical(le, es[i].value)) == Canonical(le,
          OnLeaves(f, es[i].value)) {
        LeavesCommute(le, f, es[i].value);
      }
      EntriesCommute(le, w => OnLeaves(f, w), es);
      EntriesAreMapped(f, es);
      EntriesAreMapped(f, CanonicalEntries(le, es));
    case _ =>
  }

  lemma {:induction false} EntriesAreMapped(f: Json -> Json, es: seq<Entry>)
    ensures OnLeaves(f, Obj(es)) == Obj(MapValues(v => OnLeaves(f, v), es))
  {
    if es != [] {
      EntriesAreMapped(f, es[1..]);
      var all, rest := OnLeaves(f, Obj(es)).entries, OnLeaves(f, Obj(es[1..])).entries;
      assert all == [all[0]] + rest;
    }
  }

  lemma {:induction false} EntriesCommute(le: Comparison, g: Json -> Json, es: seq<Entry>)
    requires forall i | 0 <= i < |es| :: g(Canonical(le, es[i].value)) == Canonical(le, g(es[i].value))
    ensures MapValues(g, CanonicalEntries(le, es)) == CanonicalEntries(le, MapValues(g, es))
  {
    if es != [] {
      EntriesCommute(le, g, es[1..]);
      InsertMapsValues(le, g, Normal(le, es[0]), CanonicalEntries(le, es[1..]));
      assert MapValues(g, es)[1..] == MapValues(g, es[1..]);
    }
  }

  lemma {:induction false} UnmovedStays(f: Json -> Json, v: Json)
    requires Unmoved(f, v)
    ensures OnLeaves(f, v) == v
  {
    match v
    case Arr(items) =>
      forall i | 0 <= i < |items| ensures OnLeaves(f, items[i]) == items[i] { UnmovedStays(f, items[i]); }
    case Obj(es) =>
      forall i | 0 <= i < |es| ensures OnLeaves(f, es[i].value) == es[i].value { UnmovedStays(f, es[i].value); }
      assert OnLeaves(f, v).entries == es;
    case _ =>
  }

  /** A leaf that changes makes another value, whatever the order of keys. */
  lemma {:induction false} MovedIsAnother(f: Json -> Json, v: Json)
    requires KeepsLeaves(f) && !Unmoved(f, v)
    ensures !SameUpToKeyOrder(v, OnLeaves(f, v))
  {
    match v
    case Arr(items) =>
      var i :| 0 <= i < |items| && !Unmoved(f, items[i]);
      MovedIsAnother(f, items[i]);
    case Obj(es) =>
      var i :| 0 <= i < |es| && !Unmoved(f, es[i].value);
      MovedIsAnother(f, es[i].value);
      assert OnLeaves(f, v).entries[i].key == es[i].key;
    case _ =>
  }

  lemma {:induction false} UnmovedUpToKeyOrder(f: Json -> Json, a: Json, b: Json)
    requires SameUpToKeyOrder(a, b) && Unmoved(f, a)
    ensures Unmoved(f, b)
    decreases a
  {
    match (a, b)
    case (Arr(xs), Arr(ys)) =>
      forall i | 0 <= i < |ys| ensures Unmoved(f, ys[i]) { UnmovedUpToKeyOrder(f, xs[i], ys[i]); }
    case (Obj(es), Obj(fs)) =>
      forall j | 0 <= j < |fs| ensures Unmoved(f, fs[j].value) {
        assert fs[j].key in Keys(fs);
        var i :| 0 <= i < |es| && es[i].key == fs[j].key;
        UnmovedUpToKeyOrder(f, es[i].value, fs[j].value);
      }
    case _ =>
  }

  // ---- what the text keeps ----

  function Print(v: Json): Json { if v.Number? && v.n.NonFinite? then Null else v }

  /** The value that the text of v describes. Values without such numbers have different texts if they differ. */
  function Printed(v: Json): Json { OnLeaves(Print, v) }

  function Overflow(v: Json): Json { if v == Null then Number(NonFinite) else v }

  /** Neither null nor a number that would print as null. */
  predicate Exact(v: Json) { AllFinite(v) && NoNull(v) }

  /** Printing leaves exactly the values as they are whose numbers are all finite. */
  lemma FinitePrintsAsItIs(v: Json)
    ensures Unmoved(Print, v) <==> AllFinite(v)
    ensures AllFinite(v) ==> Printed(v) == v
  {
    OnlyFiniteIsUnmoved(v);
    if AllFinite(v) { UnmovedStays(Print, v); }
  }

  lemma {:induction false} OnlyFiniteIsUnmoved(v: Json)
    ensures Unmoved(Print, v) <==> AllFinite(v)
  {
    match v
    case Arr(items) =>
      forall i | 0 <= i < |items| ensures Unmoved(Print, items[i]) <==> AllFinite(items[i]) {
        OnlyFiniteIsUnmoved(items[i]);
      }
    case Obj(es) =>
      forall i | 0 <= i < |es| ensures Unmoved(Print, es[i].value) <==> AllFinite(es[i].value) {
        OnlyFiniteIsUnmoved(es[i].value);
      }
    case _ =>
  }

  lemma {:induction false} OnlyNullOverflows(v: Json)
    ensures Unmoved(Overflow, v) <==> NoNull(v)
  {
    match v
    case Arr(items) =>
      forall i | 0 <= i < |items| ensures Unmoved(Overflow, items[i]) <==> NoNull(items[i]) {
        OnlyNullOverflows(items[i]);
      }
    case Obj(es) =>
      forall i | 0 <= i < |es| ensures Unmoved(Overflow, es[i].value) <==> NoNull(es[i].value) {
        OnlyNullOverflows(es[i].value);
      }
    case _ =>
  }

  lemma PrintedTwice(v: Json)
    ensures Unmoved(Print, Printed(v)) && Printed(Printed(v)) == Printed(v)
  {
    PrintedIsUnmoved(v);
    UnmovedStays(Print, Printed(v));
  }

  lemma {:induction false} PrintedIsUnmoved(v: Json)
    ensures Unmoved(Print, Printed(v))
  {
    match v
    case Arr(items) => forall i | 0 <= i < |items| ensures Unmoved(Print, Printed(v).items[i]) {
        PrintedIsUnmoved(items[i]);
      }
    case Obj(es) => forall i | 0 <= i < |es| ensures Unmoved(Print, Printed(v).entries[i].value) {
        PrintedIsUnmoved(es[i].value);
      }
    case _ =>
  }

  /** A value and the one with infinity for every null have the same text. */
  lemma {:induction false} OverflowPrintsTheSame(v: Json)
    ensures Printed(OnLeaves(Overflow, v)) == Printed(v)
  {
    match v
    case Arr(items) =>
      forall i | 0 <= i < |items| ensures Printed(OnLeaves(Overflow, items[i])) == Printed(items[i]) {
        OverflowPrintsTheSame(items[i]);
      }
      assert Printed(OnLeaves(Overflow, v)).items == Printed(v).items;
    case Obj(es) =>
      forall i | 0 <= i < |es| ensures Printed(OnLeaves(Overflow, es[i].value)) == Printed(es[i].value) {
        OverflowPrintsTheSame(es[i].value);
      }
      assert Printed(OnLeaves(Overflow, v)).entries == Printed(v).entries;
    case _ =>
  }

  /** A text without null comes from the value it describes. */
  lemma {:induction false} WithoutNullNothingIsLost(v: Json)
    requires Unmoved(Overflow, Printed(v))
    ensures Printed(v) == v
  {
    match v
    case Arr(items) =>
      forall i | 0 <= i < |items| ensures Printed(items[i]) == items[i] {
        assert Unmoved(Overflow, Printed(v).items[i]);
        WithoutNullNothingIsLost(items[i]);
      }
      assert Printed(v).items == items;
    case Obj(es) =>
      forall i | 0 <= i < |es| ensures Printed(es[i].value) == es[i].value {
        assert Unmoved(Overflow, Printed(v).entries[i].value);
        WithoutNullNothingIsLost(es[i].value);
      }
      assert Printed(v).entries == es;
    case _ =>
  }
}
