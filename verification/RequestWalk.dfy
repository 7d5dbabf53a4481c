/** The bounded explicit-stack walk over contract creation input (lib/contract-creation.ts). */
module RequestWalk {
  import opened JsonValues

  const MAX_NODES: nat := 4096
  const MAX_DEPTH: nat := 12

  // ---- the recursive definition the walk must agree with ----

  function Size(v: Json): nat
    decreases v, 1
  {
    match v
    case Arr(items) => 1 + SizeOfItems(items)
    case Obj(es) => 1 + SizeOfEntries(es)
    case _ => 1
  }

  function SizeOfItems(vs: seq<Json>): nat
    decreases vs, 0
  {
    if vs == [] then 0 else Size(vs[0]) + SizeOfItems(vs[1..])
  }

  function SizeOfEntries(es: seq<Entry>): nat
    decreases es, 0
  {
    if es == [] then 0 else Size(es[0].value) + SizeOfEntries(es[1..])
  }

  /** No value nested in v lies more than d levels below it. */
  predicate Shallow(v: Json, d: int) {
    && 0 <= d
    && match v
       case Arr(items) => forall i | 0 <= i < |items| :: Shallow(items[i], d - 1)
       case Obj(es) => forall i | 0 <= i < |es| :: Shallow(es[i].value, d - 1)
       case _ => true
  }

  predicate WithinBounds(v: Json) {
    Size(v) <= MAX_NODES && Shallow(v, MAX_DEPTH) && AllFinite(v)
  }

  // ---- the walk ----

  datatype Pending = Pending(value: Json, depth: nat)

  function PendingSize(stack: seq<Pending>): nat {
    if stack == [] then 0 else PendingSize(stack[..|stack| - 1]) + Size(stack[|stack| - 1].value)
  }

  /** Everything still to be visited lies shallow enough and holds only finite numbers. */
  predicate Sound(stack: seq<Pending>) {
    forall i | 0 <= i < |stack| :: Acceptable(stack[i])
  }

  predicate Acceptable(p: Pending) {
    Shallow(p.value, MAX_DEPTH - p.depth) && AllFinite(p.value)
  }

  function Pushed(cs: seq<Json>, d: nat): (ps: seq<Pending>)
    ensures |ps| == |cs|
    ensures forall i | 0 <= i < |cs| :: ps[i] == Pending(cs[i], d)
  {
    seq(|cs|, i requires 0 <= i < |cs| => Pending(cs[i], d))
  }

  lemma {:induction false} PendingSizeOfPush(stack: seq<Pending>, cs: seq<Json>, d: nat)
    ensures PendingSize(stack + Pushed(cs, d)) == PendingSize(stack) + SizeOfItems(cs)
    decreases |cs|
  {
    if cs == [] {
      assert stack + Pushed(cs, d) == stack;
    } else {
      var grown := stack + [Pending(cs[0], d)];
      assert grown[..|grown| - 1] == stack;
      PendingSizeOfPush(grown, cs[1..], d);
      assert stack + Pushed(cs, d) == grown + Pushed(cs[1..], d);
    }
  }

  lemma {:induction false} EntriesSizeIsItemsSize(es: seq<Entry>)
    ensures SizeOfEntries(es) == SizeOfItems(seq(|es|, i requires 0 <= i < |es| => es[i].value))
  {
    if es != [] {
      EntriesSizeIsItemsSize(es[1..]);
      var vs := seq(|es|, i requires 0 <= i < |es| => es[i].value);
      assert vs[1..] == seq(|es[1..]|, i requires 0 <= i < |es[1..]| => es[1..][i].value);
    }
  }

  lemma SizeByChildren(v: Json)
    ensures Size(v) == 1 + SizeOfItems(Children(v))
  {
    if v.Obj? { EntriesSizeIsItemsSize(v.entries); }
  }

  lemma AcceptableByChildren(p: Pending)
    requires p.depth <= MAX_DEPTH && !(p.value.Number? && p.value.n.NonFinite?)
    ensures Acceptable(p) <==> Sound(Pushed(Children(p.value), p.depth + 1))
  {
    var ps := Pushed(Children(p.value), p.depth + 1);
    if p.value.Obj? {
      forall i | 0 <= i < |ps| ensures ps[i].value == p.value.entries[i].value {}
      if Sound(ps) {
        forall i | 0 <= i < |p.value.entries|
          ensures Shallow(p.value.entries[i].value, MAX_DEPTH - p.depth - 1) && AllFinite(p.value.entries[i].value)
        {
          assert Acceptable(ps[i]);
        }
      }
    } else if p.value.Arr? && Sound(ps) {
      forall i | 0 <= i < |p.value.items|
        ensures Shallow(p.value.items[i], MAX_DEPTH - p.depth - 1) && AllFinite(p.value.items[i])
      {
        assert Acceptable(ps[i]);
      }
    }
  }

  lemma SoundOfConcat(a: seq<Pending>, b: seq<Pending>)
    ensures Sound(a + b) <==> Sound(a) && Sound(b)
  {
    if Sound(a + b) {
      forall i | 0 <= i < |a| ensures Acceptable(a[i]) { assert Acceptable((a + b)[i]); }
      forall i | 0 <= i < |b| ensures Acceptable(b[i]) { assert Acceptable((a + b)[|a| + i]); }
    }
  }

  /** What one popped node contributes to the verdict on everything still to be visited. */
  lemma PopIsExact(rest: seq<Pending>, top: Pending)
    requires top.depth <= MAX_DEPTH && !(top.value.Number? && top.value.n.NonFinite?)
    ensures Sound(rest + [top]) <==> Sound(rest + Pushed(Children(top.value), top.depth + 1))
  {
    assert Sound([top]) <==> Acceptable(top) by { assert [top][0] == top; }
    SoundOfConcat(rest, [top]);
    SoundOfConcat(rest, Pushed(Children(top.value), top.depth + 1));
    AcceptableByChildren(top);
  }

  predicate Refused(p: Pending) { p.depth > MAX_DEPTH || (p.value.Number? && p.value.n.NonFinite?) }

  lemma RefusedTopSpoilsTheStack(stack: seq<Pending>)
    requires stack != [] && Refused(stack[|stack| - 1])
    ensures !Sound(stack)
  {
    assert !Acceptable(stack[|stack| - 1]);
  }

  /** Visiting the top counts one node. */
  lemma VisitCountsOne(rest: seq<Pending>, top: Pending)
    ensures PendingSize(rest + Pushed(Children(top.value), top.depth + 1)) + 1 == PendingSize(rest + [top])
  {
    SizeByChildren(top.value);
    PendingSizeOfPush(rest, Children(top.value), top.depth + 1);
    assert (rest + [top])[..|rest|] == rest;
  }

  /** True when the loop runs to its end, false when it throws the input-limit error. */
  method Walk(input: Json) returns (accepted: bool)
    ensures accepted <==> WithinBounds(input)
  {
    var stack := [Pending(input, 0)];
    var nodes: nat := 0;
    assert PendingSize(stack) == Size(input) by { assert stack[..0] == []; }
    assert Sound(stack) <==> Acceptable(stack[0]);
    while stack != []
      invariant nodes <= MAX_NODES
      invariant nodes + PendingSize(stack) == Size(input)
      invariant Sound(stack) <==> Shallow(input, MAX_DEPTH) && AllFinite(input)
      decreases MAX_NODES - nodes
    {
      var top, rest := stack[|stack| - 1], stack[..|stack| - 1];
      assert stack == rest + [top];
      nodes := nodes + 1;
      if nodes > MAX_NODES {
        assert Size(top.value) >= 1;
        return false;
      }
      if top.depth > MAX_DEPTH || (top.value.Number? && top.value.n.NonFinite?) {
        RefusedTopSpoilsTheStack(stack);
        return false;
      }
      VisitCountsOne(rest, top);
      PopIsExact(rest, top);
      stack := rest + Pushed(Children(top.value), top.depth + 1);
    }
    return true;
  }
}
