/** What holds of the credit ledger after any run of deposits, reservations, settlements and transfers. */
module CreditRuns {
  import opened Options
  import opened CreditLedger

  // ---- sums over the log ----

  function Available(es: seq<Entry>, u: Principal): int {
    if es == [] then 0
    else Available(es[..|es| - 1], u) + if es[|es| - 1].user == u then es[|es| - 1].available else 0
  }

  function Escrow(es: seq<Entry>, u: Principal): int {
    if es == [] then 0
    else Escrow(es[..|es| - 1], u) + if es[|es| - 1].user == u then es[|es| - 1].escrow else 0
  }

  /**
   * What a reservation still holds: a trade's all until it is settled, a contract's whatever was not released from it.
   */
  function Due(log: seq<Entry>, u: Principal, e: Entry): int {
    if e.reference.ContractRef? then Remainder(log, u, e.reference)
    else if HasEntry(log, u, e.reference, Settlement) then 0
    else e.escrow
  }

  /** What the user's reservations in the given part of a log still hold, by the whole log. */
  function Outstanding(part: seq<Entry>, log: seq<Entry>, u: Principal): int {
    if part == [] then 0
    else
      var e := part[|part| - 1];
      Outstanding(part[..|part| - 1], log, u) + if e.user == u && e.kind == Purchase then Due(log, u, e) else 0
  }

  // ---- sums over a table ----

  ghost function Sum<K(!new)>(m: map<K, int>): int {
    if m == map[] then 0
    else
      var k :| k in m;
      m[k] + Sum(m - {k})
  }

  lemma {:induction false} SumRemove<K(!new)>(m: map<K, int>, k: K)
    requires k in m
    ensures Sum(m) == m[k] + Sum(m - {k})
  {
    var j :| j in m && Sum(m) == m[j] + Sum(m - {j});
    if j != k {
      SumRemove(m - {j}, k);
      SumRemove(m - {k}, j);
      assert m - {j} - {k} == m - {k} - {j};
    }
  }

  lemma SumUpdate<K(!new)>(m: map<K, int>, k: K, v: int)
    ensures Sum(m[k := v]) == Sum(m) + v - (if k in m then m[k] else 0)
  {
    SumRemove(m[k := v], k);
    if k in m {
      SumRemove(m, k);
      assert m[k := v] - {k} == m - {k};
    } else {
      assert m[k := v] - {k} == m;
    }
  }

  function Holdings(s: Tables): map<Principal, int> {
    map u | u in s.accounts :: s.accounts[u].available + s.accounts[u].escrow
  }

  function ConfirmedAmounts(s: Tables): map<DepositId, int> {
    map d | d in s.deposits :: if s.deposits[d].confirmed then s.deposits[d].amount else 0
  }

  // ---- the invariant ----

  predicate BalancedFor(s: Tables, u: Principal) {
    && BalanceOf(s, u) == Account(Available(s.entries, u), Escrow(s.entries, u))
    && 0 <= BalanceOf(s, u).available && 0 <= BalanceOf(s, u).escrow
  }

  ghost predicate Balanced(s: Tables) { forall u :: BalancedFor(s, u) }

  predicate KindInLog(es: seq<Entry>, r: Reference, k: Kind) {
    exists i | 0 <= i < |es| :: es[i].kind == k && es[i].reference == r
  }

  /** What an entry may look like after the given log. */
  predicate EntryFits(es: seq<Entry>, e: Entry) {
    && !HasEntry(es, e.user, e.reference, e.kind)
    && match e.kind
       case Purchase => (e.reference.TradeRef? || e.reference.ContractRef?) && Safe(e.escrow) && e.escrow > 0
       case Settlement =>
         && e.reference.TradeRef?
         && HasEntry(es, e.user, e.reference, Purchase)
         && FindEntry(es, e.user, e.reference, Purchase).value.escrow == -e.escrow
       case Sale => e.escrow == 0 && KindInLog(es, e.reference, Settlement)
       case ContractSettlement(_) =>
         && e.reference.ContractRef? && HasEntry(es, e.user, e.reference, Purchase)
         && e.escrow < 0 && Remainder(es, e.user, e.reference) + e.escrow >= 0
       case ContractSale(op) => e.escrow == 0 && KindInLog(es, e.reference, ContractSettlement(op))
       case TransferIn => e.escrow == 0 && FindByReference(es, e.reference, TransferOut).Some?
       case _ => e.escrow == 0
  }

  /** Every entry fitted the log before it. */
  predicate Logged(es: seq<Entry>) {
    es == [] || (Logged(es[..|es| - 1]) && EntryFits(es[..|es| - 1], es[|es| - 1]))
  }

  /** Escrow is exactly what the user's reservations still hold. */
  ghost predicate EscrowIsOutstanding(s: Tables) {
    forall u :: Escrow(s.entries, u) == Outstanding(s.entries, s.entries, u)
  }

  ghost predicate DepositsSound(s: Tables) {
    && (forall d | d in s.deposits :: s.deposits[d].amount > 0)
    && (forall d, e | d in s.deposits && e in s.deposits && d != e ::
        s.deposits[d].user != s.deposits[e].user || s.deposits[d].client != s.deposits[e].client)
    && (forall d, e | d in s.deposits && e in s.deposits && d != e && s.deposits[d].hash.Some? ::
        s.deposits[d].hash != s.deposits[e].hash)
    && (forall d | d in s.deposits && s.deposits[d].confirmed ::
        s.deposits[d].hash.Some? && s.deposits[d].hash.value in s.receipts)
    // a deposit is credited to its user exactly when it is confirmed, for its own amount
    && (forall d | d in s.deposits ::
        s.deposits[d].confirmed <==> HasEntry(s.entries, s.deposits[d].user, DepositRef(d), DepositKind))
    && (forall i | 0 <= i < |s.entries| && s.entries[i].kind == DepositKind ::
          && s.entries[i].reference.DepositRef?
          && var d := s.entries[i].reference.deposit;
             d in s.deposits && s.deposits[d].user == s.entries[i].user
                 && s.entries[i].available == s.deposits[d].amount)
  }

  /** All the money in the accounts came in through confirmed deposits. */
  ghost predicate Conserved(s: Tables) { Sum(Holdings(s)) == Sum(ConfirmedAmounts(s)) }

  /** The invariant without conservation, which a first leg alone may break. */
  ghost predicate LegInv(s: Tables) { Balanced(s) && Logged(s.entries) && EscrowIsOutstanding(s) && DepositsSound(s) }

  ghost predicate Inv(s: Tables) { LegInv(s) && Conserved(s) }

  // ---- one leg ----

  lemma LastOf(es: seq<Entry>, e: Entry)
    ensures (es + [e])[..|es + [e]| - 1] == es && (es + [e])[|es + [e]| - 1] == e
  {
  }

  lemma HasAfter(es: seq<Entry>, e: Entry, u: Principal, r: Reference, k: Kind)
    ensures HasEntry(es + [e], u, r, k) <==> HasEntry(es, u, r, k) || (e.user == u && e.reference == r && e.kind == k)
  {
    if i :| 0 <= i < |es + [e]| && (es + [e])[i].user == u && (es + [e])[i].reference == r && (es + [e])[i].kind == k {
      if i < |es| { assert es[i] == (es + [e])[i]; }
    }
    if i :| 0 <= i < |es| && es[i].user == u && es[i].reference == r && es[i].kind == k {
      assert (es + [e])[i] == es[i];
    }
    assert (es + [e])[|es|] == e;
  }

  predicate Matches(e: Entry, u: Principal, r: Reference, k: Kind) { e.user == u && e.reference == r && e.kind == k }

  lemma FindCons(e: Entry, es: seq<Entry>, u: Principal, r: Reference, k: Kind)
    ensures FindEntry([e] + es, u, r, k) == if Matches(e, u, r, k) then Some(e) else FindEntry(es, u, r, k)
  {
    assert ([e] + es)[1..] == es;
  }

  lemma {:induction false} FindAfter(es: seq<Entry>, e: Entry, u: Principal, r: Reference, k: Kind)
    ensures FindEntry(es + [e], u, r, k)
         == if FindEntry(es, u, r, k).Some? then FindEntry(es, u, r, k)
             else if Matches(e, u, r, k) then Some(e) else None
  {
    if es == [] {
      assert [] + [e] == [e] + [];
      FindCons(e, [], u, r, k);
    } else {
      var head, rest := es[0], es[1..];
      assert es == [head] + rest && es + [e] == [head] + (rest + [e]);
      FindCons(head, rest, u, r, k);
      FindCons(head, rest + [e], u, r, k);
      FindAfter(rest, e, u, r, k);
    }
  }

  /** The entry a leg writes. */
  ghost predicate Leg(s: Tables, s': Tables, e: Entry) {
    && s'.entries == s.entries + [e] && !HasEntry(s.entries, e.user, e.reference, e.kind)
    && s'.deposits == s.deposits && s'.receipts == s.receipts
    && var was := BalanceOf(s, e.user);
       && was.available + e.available >= 0 && was.escrow + e.escrow >= 0
       && s'.accounts == s.accounts[e.user := Account(was.available + e.available, was.escrow + e.escrow)]
  }

  lemma ChangeIsLeg(s: Tables, u: Principal, r: Reference, k: Kind, available: int, escrow: int)
    ensures var o := Change(s, u, r, k, available, escrow);
            o.Committed? ==> Leg(s, o.tables, Entry(u, r, k, available, escrow)) && Safe(available) && Safe(escrow)
  {
  }

  /** A leg keeps every balance equal to its log and moves the holdings by what it adds. */
  lemma LegKeepsBalances(s: Tables, s': Tables, e: Entry)
    requires Balanced(s) && Leg(s, s', e)
    ensures Balanced(s') && Sum(Holdings(s')) == Sum(Holdings(s)) + e.available + e.escrow
  {
    LastOf(s.entries, e);
    forall u ensures BalancedFor(s', u) { assert BalancedFor(s, u); }
    var after := BalanceOf(s', e.user);
    assert Holdings(s') == Holdings(s)[e.user := after.available + after.escrow];
    SumUpdate(Holdings(s), e.user, after.available + after.escrow);
  }

  // ---- escrow ----

  lemma RemainderAfter(es: seq<Entry>, e: Entry, u: Principal, r: Reference)
    ensures Remainder(es + [e], u, r) == Remainder(es, u, r) + if e.user == u && e.reference == r then e.escrow else 0
  {
    LastOf(es, e);
  }

  /** An entry that settles nothing of u and moves none of its contract escrow leaves the outstanding sum as it was. */
  lemma {:induction false} OutstandingIgnores(part: seq<Entry>, log: seq<Entry>, e: Entry, u: Principal)
    requires e.user == u ==> e.kind != Settlement && (e.reference.ContractRef? ==> e.escrow == 0)
    ensures Outstanding(part, log + [e], u) == Outstanding(part, log, u)
  {
    if part != [] {
      var last := part[|part| - 1];
      OutstandingIgnores(part[..|part| - 1], log, e, u);
      HasAfter(log, e, u, last.reference, Settlement);
      RemainderAfter(log, e, u, last.reference);
    }
  }

  /** A first settlement takes its own reservation out of the outstanding sum. */
  lemma {:induction false} OutstandingSettles(part: seq<Entry>, log: seq<Entry>, e: Entry, u: Principal)
    requires Logged(part) && e.user == u && e.kind == Settlement && e.reference.TradeRef?
        && !HasEntry(log, u, e.reference, Settlement)
    ensures Outstanding(part, log + [e], u) == Outstanding(part, log, u) - Reserved(part, u, e.reference)
  {
    if part != [] {
      var rest, last := part[..|part| - 1], part[|part| - 1];
      OutstandingSettles(rest, log, e, u);
      HasAfter(log, e, u, last.reference, Settlement);
      RemainderAfter(log, e, u, last.reference);
      ReservedAfter(rest, last, u, e.reference);
      assert part == rest + [last];
    }
  }

  /** What was reserved under a reference. */
  function Reserved(es: seq<Entry>, u: Principal, r: Reference): int {
    var found := FindEntry(es, u, r, Purchase);
    if found.Some? then found.value.escrow else 0
  }

  lemma ReservedAfter(es: seq<Entry>, e: Entry, u: Principal, r: Reference)
    requires EntryFits(es, e)
    ensures Reserved(es + [e], u, r) == Reserved(es, u, r) + if e.user == u && e.reference == r && e.kind == Purchase
        then e.escrow else 0
  {
    FindAfter(es, e, u, r, Purchase);
  }

  /** An entry under a contract moves the outstanding sum if that contract's reservation is part of it. */
  lemma {:induction false} OutstandingMoves(part: seq<Entry>, log: seq<Entry>, e: Entry, u: Principal)
    requires Logged(part) && e.user == u && e.reference.ContractRef?
    ensures Outstanding(part, log + [e], u)
         == Outstanding(part, log, u) + if HasEntry(part, u, e.reference, Purchase) then e.escrow else 0
  {
    if part != [] {
      var rest, last := part[..|part| - 1], part[|part| - 1];
      OutstandingMoves(rest, log, e, u);
      HasAfter(log, e, u, last.reference, Settlement);
      RemainderAfter(log, e, u, last.reference);
      HasAfter(rest, last, u, e.reference, Purchase);
      assert part == rest + [last];
    }
  }

  /**
   * Nothing is left under a reference that nothing was reserved for, and nothing is ever released beyond the
   * reservation.
   */
  lemma {:induction false} RemainderBounds(es: seq<Entry>, u: Principal, r: Reference)
    requires Logged(es)
    ensures r.ContractRef? ==> 0 <= Remainder(es, u, r) <= Reserved(es, u, r)
    ensures !HasEntry(es, u, r, Purchase) ==> Remainder(es, u, r) == 0
  {
    if es != [] {
      var rest, last := es[..|es| - 1], es[|es| - 1];
      assert es == rest + [last];
      RemainderBounds(rest, u, r);
      RemainderAfter(rest, last, u, r);
      ReservedAfter(rest, last, u, r);
      HasAfter(rest, last, u, r, Purchase);
    }
  }

  /** Every reservation is part of the outstanding sum with what it still holds. */
  lemma {:induction false} OutstandingCovers(part: seq<Entry>, log: seq<Entry>, u: Principal, r: Reference)
    requires Logged(part) && Logged(log)
    ensures 0 <= Outstanding(part, log, u)
    ensures HasEntry(part, u, r, Purchase) ==>
        Due(log, u, FindEntry(part, u, r, Purchase).value) <= Outstanding(part, log, u)
    ensures HasEntry(part, u, r, Purchase) ==>
        0 < FindEntry(part, u, r, Purchase).value.escrow && Safe(FindEntry(part, u, r, Purchase).value.escrow)
  {
    if part != [] {
      var rest, last := part[..|part| - 1], part[|part| - 1];
      OutstandingCovers(rest, log, u, r);
      HasAfter(rest, last, u, r, Purchase);
      FindAfter(rest, last, u, r, Purchase);
      RemainderBounds(log, u, last.reference);
      assert part == rest + [last];
    }
  }

  lemma {:induction false} SettlementHasPurchase(es: seq<Entry>, u: Principal, r: Reference)
    requires Logged(es) && HasEntry(es, u, r, Settlement)
    ensures HasEntry(es, u, r, Purchase)
  {
    var rest, last := es[..|es| - 1], es[|es| - 1];
    assert es == rest + [last];
    HasAfter(rest, last, u, r, Settlement);
    HasAfter(rest, last, u, r, Purchase);
    if HasEntry(rest, u, r, Settlement) { SettlementHasPurchase(rest, u, r); }
  }

  /** No entry is ever posted twice. */
  lemma {:induction false} EntriesAreUnique(es: seq<Entry>, i: nat, j: nat)
    requires Logged(es) && i < j < |es|
    ensures !(es[i].user == es[j].user && es[i].reference == es[j].reference && es[i].kind == es[j].kind)
  {
    if j < |es| - 1 {
      EntriesAreUnique(es[..|es| - 1], i, j);
    } else {
      assert es[..j][i] == es[i];
    }
  }

  lemma AppendKeepsOutstanding(es: seq<Entry>, e: Entry, u: Principal)
    requires Logged(es) && EntryFits(es, e) && Escrow(es, u) == Outstanding(es, es, u)
    ensures Escrow(es + [e], u) == Outstanding(es + [e], es + [e], u)
  {
    LastOf(es, e);
    HasAfter(es, e, u, e.reference, Settlement);
    if e.user == u && e.kind == Settlement {
      OutstandingSettles(es, es, e, u);
    } else if e.user == u && e.reference.ContractRef? {
      OutstandingMoves(es, es, e, u);
      RemainderAfter(es, e, u, e.reference);
      RemainderBounds(es, u, e.reference);
    } else {
      OutstandingIgnores(es, es, e, u);
      if HasEntry(es, u, e.reference, Settlement) { SettlementHasPurchase(es, u, e.reference); }
    }
  }

  /** Appending a fitting entry keeps the escrow part of the invariant. */
  lemma AppendKeepsEscrow(s: Tables, s': Tables, e: Entry)
    requires Logged(s.entries) && EscrowIsOutstanding(s) && EntryFits(s.entries, e) && s'.entries == s.entries + [e]
    ensures Logged(s'.entries) && EscrowIsOutstanding(s')
  {
    LastOf(s.entries, e);
    forall u ensures Escrow(s'.entries, u) == Outstanding(s'.entries, s'.entries, u) {
      AppendKeepsOutstanding(s.entries, e, u);
    }
  }

  /** Entries of other kinds leave the deposits as sound as they were. */
  lemma AppendKeepsDeposits(s: Tables, s': Tables, e: Entry)
    requires DepositsSound(s) && e.kind != DepositKind
    requires s'.entries == s.entries + [e] && s'.deposits == s.deposits && s'.receipts == s.receipts
    ensures DepositsSound(s')
  {
    forall d | d in s.deposits ensures s.deposits[d].confirmed <==>
        HasEntry(s'.entries, s.deposits[d].user, DepositRef(d), DepositKind) {
      HasAfter(s.entries, e, s.deposits[d].user, DepositRef(d), DepositKind);
    }
    forall i | 0 <= i < |s'.entries| && s'.entries[i].kind == DepositKind
        ensures s'.entries[i] == s.entries[i] && i < |s.entries| {}
  }

  lemma LegKeepsInv(s: Tables, s': Tables, e: Entry)
    requires LegInv(s) && Leg(s, s', e) && EntryFits(s.entries, e) && e.kind != DepositKind
    ensures LegInv(s') && Sum(Holdings(s')) == Sum(Holdings(s)) + e.available + e.escrow && s'.deposits == s.deposits
  {
    LegKeepsBalances(s, s', e);
    AppendKeepsEscrow(s, s', e);
    AppendKeepsDeposits(s, s', e);
  }

  /** Two legs that cancel out. */
  lemma TwoLegsKeepInv(s: Tables, s1: Tables, s2: Tables, e: Entry, f: Entry)
    requires Inv(s) && Leg(s, s1, e) && Leg(s1, s2, f)
    requires EntryFits(s.entries, e) && EntryFits(s1.entries, f) && e.kind != DepositKind && f.kind != DepositKind
    requires e.available + e.escrow + f.available + f.escrow == 0
    ensures Inv(s2)
  {
    LegKeepsInv(s, s1, e);
    LegKeepsInv(s1, s2, f);
    SameDepositsSameSum(s, s2);
  }

  lemma OneLegKeepsInv(s: Tables, s1: Tables, e: Entry)
    requires Inv(s) && Leg(s, s1, e) && EntryFits(s.entries, e) && e.kind != DepositKind
    requires e.available + e.escrow == 0
    ensures Inv(s1)
  {
    LegKeepsInv(s, s1, e);
    SameDepositsSameSum(s, s1);
  }

  // ---- whole transactions keep the invariant ----

  lemma SameDepositsSameSum(s: Tables, s': Tables)
    requires s'.deposits == s.deposits
    ensures Sum(ConfirmedAmounts(s')) == Sum(ConfirmedAmounts(s))
  {
    assert ConfirmedAmounts(s') == ConfirmedAmounts(s);
  }

  lemma ReserveLegs(s: Tables, a: Reservation) returns (s1: Tables, e: Entry, f: Entry)
    requires Reserve(s, a).Committed?
    ensures e == Entry(a.buyer, RefOf(a.deal), Purchase, -a.total, a.seller) && Leg(s, s1, e) && EntryFits(s.entries, e)
    ensures f == Entry(a.feeRecipient, RefOf(a.deal), Fee, a.fee, 0)
    ensures a.total == a.seller + a.fee
    ensures if a.fee == 0 then s1 == Reserve(s, a).tables
        else Leg(s1, Reserve(s, a).tables, f) && EntryFits(s1.entries, f)
  {
    s1 := Change(s, a.buyer, RefOf(a.deal), Purchase, -a.total, a.seller).tables;
    e, f := Entry(a.buyer, RefOf(a.deal), Purchase, -a.total, a.seller),
        Entry(a.feeRecipient, RefOf(a.deal), Fee, a.fee, 0);
    ChangeIsLeg(s, a.buyer, RefOf(a.deal), Purchase, -a.total, a.seller);
    ChangeIsLeg(s1, a.feeRecipient, RefOf(a.deal), Fee, a.fee, 0);
  }

  lemma ReserveKeepsInv(s: Tables, a: Reservation)
    requires Inv(s) && Reserve(s, a).Committed?
    ensures Inv(Reserve(s, a).tables)
  {
    var s1, e, f := ReserveLegs(s, a);
    if a.fee == 0 { OneLegKeepsInv(s, s1, e); } else { TwoLegsKeepInv(s, s1, Reserve(s, a).tables, e, f); }
  }

  lemma SettleLegs(s: Tables, t: Trade, buyerMinor: int) returns (s1: Tables, e: Entry, f: Entry)
    requires Settle(s, t, buyerMinor).Committed?
    ensures e == Entry(t.buyer, TradeRef(t.id), Settlement, buyerMinor, -t.total) && Leg(s, s1, e)
        && EntryFits(s.entries, e)
    ensures f == Entry(t.seller, TradeRef(t.id), Sale, t.total - buyerMinor, 0)
    ensures if t.total == buyerMinor then s1 == Settle(s, t, buyerMinor).tables
        else Leg(s1, Settle(s, t, buyerMinor).tables, f) && EntryFits(s1.entries, f)
  {
    s1 := Change(s, t.buyer, TradeRef(t.id), Settlement, buyerMinor, -t.total).tables;
    e, f := Entry(t.buyer, TradeRef(t.id), Settlement, buyerMinor, -t.total),
        Entry(t.seller, TradeRef(t.id), Sale, t.total - buyerMinor, 0);
    ChangeIsLeg(s, t.buyer, TradeRef(t.id), Settlement, buyerMinor, -t.total);
    ChangeIsLeg(s1, t.seller, TradeRef(t.id), Sale, t.total - buyerMinor, 0);
    assert s1.entries[|s.entries|] == e;
  }

  lemma SettleKeepsInv(s: Tables, t: Trade, buyerMinor: int)
    requires Inv(s) && Settle(s, t, buyerMinor).Committed?
    ensures Inv(Settle(s, t, buyerMinor).tables)
  {
    var s1, e, f := SettleLegs(s, t, buyerMinor);
    if t.total == buyerMinor {
      OneLegKeepsInv(s, s1, e);
    } else {
      TwoLegsKeepInv(s, s1, Settle(s, t, buyerMinor).tables, e, f);
    }
  }

  lemma DistributeLegs(s: Tables, p: Party, minor: int, refund: int, op: Operation)
    returns (s1: Tables, e: Entry, f: Entry)
    requires Distribute(s, p, minor, refund, op).Committed?
    ensures e == Entry(p.buyer, ContractRef(p.contract), ContractSettlement(op), refund, -minor) && Leg(s, s1, e)
        && EntryFits(s.entries, e)
    ensures if minor == refund then s1 == Distribute(s, p, minor, refund, op).tables
            else
              && p.seller.Some? && f == Entry(p.seller.value, ContractRef(p.contract), ContractSale(op), minor - refund,
                  0)
              && Leg(s1, Distribute(s, p, minor, refund, op).tables, f) && EntryFits(s1.entries, f)
  {
    var r := ContractRef(p.contract);
    s1, e := Change(s, p.buyer, r, ContractSettlement(op), refund, -minor).tables,
        Entry(p.buyer, r, ContractSettlement(op), refund, -minor);
    f := e;
    ChangeIsLeg(s, p.buyer, r, ContractSettlement(op), refund, -minor);
    if minor != refund {
      f := Entry(p.seller.value, r, ContractSale(op), minor - refund, 0);
      ChangeIsLeg(s1, p.seller.value, r, ContractSale(op), minor - refund, 0);
      assert s1.entries[|s.entries|] == e;
    }
  }

  lemma DistributeKeepsInv(s: Tables, p: Party, minor: int, refund: int, op: Operation)
    requires Inv(s) && Distribute(s, p, minor, refund, op).Committed?
    ensures Inv(Distribute(s, p, minor, refund, op).tables)
  {
    var s1, e, f := DistributeLegs(s, p, minor, refund, op);
    if minor == refund {
      OneLegKeepsInv(s, s1, e);
    } else {
      TwoLegsKeepInv(s, s1, Distribute(s, p, minor, refund, op).tables, e, f);
    }
  }

  lemma FundLegs(s: Tables, owner: Principal, agent: AgentId, minor: int, client: ClientRef, owned: bool)
    returns (s1: Tables, e: Entry, f: Entry)
    requires FundAgent(s, owner, agent, minor, client, owned).Committed?
    ensures e == Entry(owner, FundingRef(owner, client), TransferOut, -minor, 0) && Leg(s, s1, e)
        && EntryFits(s.entries, e)
    ensures f == Entry(AgentWallet(agent), FundingRef(owner, client), TransferIn, minor, 0)
    ensures Leg(s1, FundAgent(s, owner, agent, minor, client, owned).tables, f) && EntryFits(s1.entries, f)
  {
    var r := FundingRef(owner, client);
    s1 := Change(s, owner, r, TransferOut, -minor, 0).tables;
    e, f := Entry(owner, r, TransferOut, -minor, 0), Entry(AgentWallet(agent), r, TransferIn, minor, 0);
    ChangeIsLeg(s, owner, r, TransferOut, -minor, 0);
    ChangeIsLeg(s1, AgentWallet(agent), r, TransferIn, minor, 0);
    FindOverAppend(s.entries, [e], r, TransferOut);
  }

  lemma {:induction false} FindOverAppend(es: seq<Entry>, more: seq<Entry>, r: Reference, k: Kind)
    ensures FindByReference(es + more, r, k) == if FindByReference(es, r, k).Some? then FindByReference(es, r, k)
        else FindByReference(more, r, k)
  {
    if es == [] {
      assert [] + more == more;
    } else {
      assert (es + more)[1..] == es[1..] + more && (es + more)[0] == es[0];
      FindOverAppend(es[1..], more, r, k);
    }
  }

  lemma FundKeepsInv(s: Tables, owner: Principal, agent: AgentId, minor: int, client: ClientRef, owned: bool)
    requires Inv(s) && FundAgent(s, owner, agent, minor, client, owned).Committed?
    ensures Inv(FundAgent(s, owner, agent, minor, client, owned).tables)
  {
    var s1, e, f := FundLegs(s, owner, agent, minor, client, owned);
    TwoLegsKeepInv(s, s1, FundAgent(s, owner, agent, minor, client, owned).tables, e, f);
  }

  /** Two states that agree on what the invariant reads of the accounts and the log. */
  lemma SameMoney(s: Tables, s': Tables)
    requires s'.accounts == s.accounts && s'.entries == s.entries
    ensures Holdings(s') == Holdings(s)
    ensures Balanced(s) ==> Balanced(s')
    ensures Logged(s.entries) && EscrowIsOutstanding(s) ==> EscrowIsOutstanding(s')
  {
    forall v ensures BalancedFor(s, v) ==> BalancedFor(s', v) {}
  }

  lemma CreditLegs(s: Tables, u: Principal, d: DepositId, h: Hash) returns (s0: Tables, s1: Tables, e: Entry)
    requires d in s.deposits && CreditDeposit(s, u, d, h).Committed?
    ensures s0 == s.(receipts := s.receipts + {h}) && e == Entry(u, DepositRef(d), DepositKind, s.deposits[d].amount, 0)
    ensures Leg(s0, s1, e) && EntryFits(s.entries, e) && !s.deposits[d].confirmed
    ensures CreditDeposit(s, u, d, h).tables == s1.(deposits := s.deposits[d := s.deposits[d].(confirmed := true)])
  {
    s0 := s.(receipts := s.receipts + {h});
    e := Entry(u, DepositRef(d), DepositKind, s.deposits[d].amount, 0);
    s1 := Change(s0, u, DepositRef(d), DepositKind, s.deposits[d].amount, 0).tables;
    ChangeIsLeg(s0, u, DepositRef(d), DepositKind, s.deposits[d].amount, 0);
  }

  lemma CreditKeepsInv(s: Tables, u: Principal, d: DepositId, h: Hash)
    requires Inv(s) && d in s.deposits && s.deposits[d].user == u && s.deposits[d].hash == Some(h)
    requires CreditDeposit(s, u, d, h).Committed?
    ensures Inv(CreditDeposit(s, u, d, h).tables)
  {
    var s' := CreditDeposit(s, u, d, h).tables;
    var s0, s1, e := CreditLegs(s, u, d, h);
    SameMoney(s, s0);
    LegKeepsBalances(s0, s1, e);
    SameMoney(s1, s');
    AppendKeepsEscrow(s, s', e);
    CreditKeepsDeposits(s, s', d, e);
    ConfirmingAddsAmount(s, s', d);
  }

  lemma ConfirmingAddsAmount(s: Tables, s': Tables, d: DepositId)
    requires d in s.deposits && !s.deposits[d].confirmed
        && s'.deposits == s.deposits[d := s.deposits[d].(confirmed := true)]
    ensures Sum(ConfirmedAmounts(s')) == Sum(ConfirmedAmounts(s)) + s.deposits[d].amount
  {
    assert ConfirmedAmounts(s') == ConfirmedAmounts(s)[d := s.deposits[d].amount];
    SumUpdate(ConfirmedAmounts(s), d, s.deposits[d].amount);
  }

  lemma CreditKeepsDeposits(s: Tables, s': Tables, d: DepositId, e: Entry)
    requires DepositsSound(s) && d in s.deposits && !s.deposits[d].confirmed && s.deposits[d].hash.Some?
    requires e == Entry(s.deposits[d].user, DepositRef(d), DepositKind, s.deposits[d].amount, 0)
    requires s'.entries == s.entries + [e] && s'.deposits == s.deposits[d := s.deposits[d].(confirmed := true)]
    requires s'.receipts == s.receipts + {s.deposits[d].hash.value}
    ensures DepositsSound(s')
  {
    forall c | c in s'.deposits ensures s'.deposits[c].confirmed <==>
        HasEntry(s'.entries, s'.deposits[c].user, DepositRef(c), DepositKind) {
      HasAfter(s.entries, e, s'.deposits[c].user, DepositRef(c), DepositKind);
      assert s'.deposits[c].user == s.deposits[c].user;
    }
    forall i | 0 <= i < |s'.entries| ensures s'.entries[i] == if i < |s.entries| then s.entries[i] else e {}
  }

  lemma SaveKeepsInv(s: Tables, u: Principal, d: DepositId, h: Hash, proofOk: bool)
    requires Inv(s) && SaveHash(s, u, d, h, proofOk).Committed?
    ensures Inv(SaveHash(s, u, d, h, proofOk).tables)
  {
    var s' := SaveHash(s, u, d, h, proofOk).tables;
    SameMoney(s, s');
    assert ConfirmedAmounts(s') == ConfirmedAmounts(s);
    assert DepositsSound(s') by {
      forall c | c in s'.deposits ensures s'.deposits[c].confirmed <==>
          HasEntry(s'.entries, s'.deposits[c].user, DepositRef(c), DepositKind) {
        assert s'.deposits[c].user == s.deposits[c].user;
      }
    }
  }

  lemma UnknownDepositsHaveNoEntry(s: Tables, d: DepositId, u: Principal)
    requires DepositsSound(s) && d !in s.deposits
    ensures !HasEntry(s.entries, u, DepositRef(d), DepositKind)
  {
  }

  lemma OpenKeepsInv(s: Tables, u: Principal, amount: int, payer: Payer, client: ClientRef, newId: DepositId,
      supported: bool)
    requires Inv(s) && CreateDeposit(s, u, amount, payer, client, newId, supported).Committed?
    ensures Inv(CreateDeposit(s, u, amount, payer, client, newId, supported).tables)
  {
    var s' := CreateDeposit(s, u, amount, payer, client, newId, supported).tables;
    SameMoney(s, s');
    assert ConfirmedAmounts(s') == ConfirmedAmounts(s)[newId := 0];
    SumUpdate(ConfirmedAmounts(s), newId, 0);
    OpenKeepsDeposits(s, s', newId, Deposit(u, client, amount, payer, None, false));
  }

  lemma OpenKeepsDeposits(s: Tables, s': Tables, newId: DepositId, row: Deposit)
    requires DepositsSound(s) && newId !in s.deposits && row.amount > 0 && row.hash.None? && !row.confirmed
    requires forall d | d in s.deposits :: s.deposits[d].user != row.user || s.deposits[d].client != row.client
    requires s'.deposits == s.deposits[newId := row] && s'.entries == s.entries && s'.receipts == s.receipts
    ensures DepositsSound(s')
  {
    UnknownDepositsHaveNoEntry(s, newId, row.user);
  }

  // ---- runs ----

  datatype Event =
    | ReserveFor(reservation: Reservation)
    | SettleFor(trade: Trade, buyerMinor: int)
    | DistributeFor(party: Party, released: int, refund: int, op: Operation)
    | Fund(owner: Principal, agent: AgentId, minor: int, client: ClientRef, owned: bool)
    | OpenDeposit(user: Principal, amount: int, payer: Payer, client: ClientRef, newId: DepositId, supported: bool)
    | Save(user: Principal, deposit: DepositId, hash: Hash, proofOk: bool)
    | Credit(user: Principal, deposit: DepositId, hash: Hash)
    | ReceiptElsewhere(hash: Hash)  // another payment is received with this transaction

  /**
   * saved holds the confirmation calls that got past the first transaction; any of them may go on to the second, in any
   * order.
   */
  datatype World = World(tables: Tables, saved: set<(Principal, DepositId, Hash)>)

  function OutcomeOf(w: World, e: Event): Outcome {
    match e
    case ReserveFor(a) => Reserve(w.tables, a)
    case SettleFor(t, buyerMinor) => Settle(w.tables, t, buyerMinor)
    case DistributeFor(p, minor, refund, op) => Distribute(w.tables, p, minor, refund, op)
    case Fund(o, a, minor, c, owned) => FundAgent(w.tables, o, a, minor, c, owned)
    case OpenDeposit(u, amount, p, c, id, ok) => CreateDeposit(w.tables, u, amount, p, c, id, ok)
    case Save(u, d, h, ok) => SaveHash(w.tables, u, d, h, ok)
    case Credit(u, d, h) =>
      if (u, d, h) in w.saved && d in w.tables.deposits then CreditDeposit(w.tables, u, d, h) else Refused(NotFound)
    case ReceiptElsewhere(h) => Committed(w.tables.(receipts := w.tables.receipts + {h}))
  }

  function Apply(w: World, e: Event): World {
    var o := OutcomeOf(w, e);
    if !o.Committed? then w
    else World(o.tables, if e.Save? then w.saved + {(e.user, e.deposit, e.hash)} else w.saved)
  }

  ghost predicate WorldInv(w: World) {
    && Inv(w.tables)
    && forall u, d, h | (u, d, h) in w.saved ::
        d in w.tables.deposits && w.tables.deposits[d].user == u && w.tables.deposits[d].hash == Some(h)
  }

  /** A deposit's terms and saved hash never change, and a confirmation is never undone. */
  ghost predicate DepositKept(a: Deposit, b: Deposit) {
    && b.(hash := None, confirmed := false) == a.(hash := None, confirmed := false)
    && (a.hash.Some? ==> b.hash == a.hash)
    && (a.confirmed ==> b.confirmed)
  }

  lemma StepKeepsDeposit(w: World, e: Event, d: DepositId)
    requires d in w.tables.deposits
    ensures d in Apply(w, e).tables.deposits && DepositKept(w.tables.deposits[d], Apply(w, e).tables.deposits[d])
  {
  }

  lemma CommittedKeepsInv(w: World, e: Event)
    requires WorldInv(w) && OutcomeOf(w, e).Committed?
    ensures Inv(OutcomeOf(w, e).tables)
  {
    var s := w.tables;
    match e
    case ReserveFor(a) => ReserveKeepsInv(s, a);
    case SettleFor(t, b) => SettleKeepsInv(s, t, b);
    case DistributeFor(p, minor, refund, op) => DistributeKeepsInv(s, p, minor, refund, op);
    case Fund(ow, a, m, c, owned) => FundKeepsInv(s, ow, a, m, c, owned);
    case OpenDeposit(u, amount, p, c, id, ok) => OpenKeepsInv(s, u, amount, p, c, id, ok);
    case Save(u, d, h, ok) => SaveKeepsInv(s, u, d, h, ok);
    case Credit(u, d, h) => CreditKeepsInv(s, u, d, h);
    case ReceiptElsewhere(h) => ReceiptKeepsInv(s, h);
  }

  lemma SavedCallsStaySaved(w: World, e: Event, u: Principal, d: DepositId, h: Hash)
    requires WorldInv(w) && (u, d, h) in Apply(w, e).saved
    ensures d in Apply(w, e).tables.deposits && Apply(w, e).tables.deposits[d].user == u
        && Apply(w, e).tables.deposits[d].hash == Some(h)
  {
    if (u, d, h) in w.saved {
      StepKeepsDeposit(w, e, d);
      assert w.tables.deposits[d].(hash := None, confirmed := false).user == u;
      assert Apply(w, e).tables.deposits[d].(hash := None, confirmed := false).user == u;
    }
  }

  lemma StepKeepsInv(w: World, e: Event)
    requires WorldInv(w)
    ensures WorldInv(Apply(w, e))
  {
    if OutcomeOf(w, e).Committed? { CommittedKeepsInv(w, e); }
    forall u, d, h | (u, d, h) in Apply(w, e).saved
      ensures d in Apply(w, e).tables.deposits && Apply(w, e).tables.deposits[d].user == u
          && Apply(w, e).tables.deposits[d].hash == Some(h)
    {
      SavedCallsStaySaved(w, e, u, d, h);
    }
  }

  lemma ReceiptKeepsInv(s: Tables, h: Hash)
    requires Inv(s)
    ensures Inv(s.(receipts := s.receipts + {h}))
  {
    var s' := s.(receipts := s.receipts + {h});
    SameMoney(s, s');
    assert ConfirmedAmounts(s') == ConfirmedAmounts(s);
  }

  ghost predicate Run(ws: seq<World>, es: seq<Event>) {
    && |ws| == |es| + 1
    && WorldInv(ws[0])
    && forall k | 0 <= k < |es| :: ws[k + 1] == Apply(ws[k], es[k])
  }

  /**
   * After any run every balance is non-negative, agrees with the log, and all of them sum to the confirmed deposits.
   */
  lemma {:induction false} LedgerIsSound(ws: seq<World>, es: seq<Event>, k: nat)
    requires Run(ws, es) && k <= |es|
    ensures WorldInv(ws[k])
  {
    if k > 0 {
      LedgerIsSound(ws, es, k - 1);
      StepKeepsInv(ws[k - 1], es[k - 1]);
    }
  }

  lemma EmptyLedgerIsSound()
    ensures WorldInv(World(Tables(map[], [], map[], {}), {}))
  {
    var s := Tables(map[], [], map[], {});
    assert Holdings(s) == map[] && ConfirmedAmounts(s) == map[];
  }

  lemma ReservationsAreCovered(s: Tables, t: Trade)
    requires Inv(s) && Locked(s, t) && !HasEntry(s.entries, t.buyer, TradeRef(t.id), Settlement)
    ensures 0 < t.total <= BalanceOf(s, t.buyer).escrow && Safe(t.total)
  {
    OutstandingCovers(s.entries, s.entries, t.buyer, TradeRef(t.id));
    assert BalancedFor(s, t.buyer);
  }

  function Release(s: Tables, t: Trade, buyerMinor: int): Outcome {
    Change(s, t.buyer, TradeRef(t.id), Settlement, buyerMinor, -t.total)
  }

  function Payout(s: Tables, t: Trade, buyerMinor: int): Outcome {
    Change(s, t.seller, TradeRef(t.id), Sale, t.total - buyerMinor, 0)
  }

  lemma ReleaseCommits(s: Tables, t: Trade, buyerMinor: int)
    requires Inv(s) && LegalSplit(t, buyerMinor) && Locked(s, t)
        && !HasEntry(s.entries, t.buyer, TradeRef(t.id), Settlement)
    ensures Release(s, t, buyerMinor).Committed? && Safe(t.total)
    ensures Leg(s, Release(s, t, buyerMinor).tables, Entry(t.buyer, TradeRef(t.id), Settlement, buyerMinor, -t.total))
    ensures Balanced(Release(s, t, buyerMinor).tables)
  {
    ReservationsAreCovered(s, t);
    assert BalancedFor(s, t.buyer);
    ChangeIsLeg(s, t.buyer, TradeRef(t.id), Settlement, buyerMinor, -t.total);
    LegKeepsBalances(s, Release(s, t, buyerMinor).tables,
        Entry(t.buyer, TradeRef(t.id), Settlement, buyerMinor, -t.total));
  }

  lemma PayoutCommits(s: Tables, s1: Tables, t: Trade, buyerMinor: int)
    requires Balanced(s1) && LegalSplit(t, buyerMinor) && Safe(t.total)
    requires s1.entries == s.entries + [Entry(t.buyer, TradeRef(t.id), Settlement, buyerMinor, -t.total)]
    ensures if HasEntry(s.entries, t.seller, TradeRef(t.id), Sale)
        then Payout(s1, t, buyerMinor) == Refused(DuplicateEntry)
            else Payout(s1, t, buyerMinor).Committed?
  {
    assert BalancedFor(s1, t.seller);
    HasAfter(s.entries, Entry(t.buyer, TradeRef(t.id), Settlement, buyerMinor, -t.total), t.seller, TradeRef(t.id),
        Sale);
  }

  /**
   * A settlement commits exactly when the split is legal, the reservation matches, and neither of its entries has been
   * posted before; lack of credit is reported only to a repeated settlement.
   */
  lemma SettlementNeverLacksEscrow(s: Tables, t: Trade, buyerMinor: int)
    requires Inv(s)
    ensures Settle(s, t, buyerMinor).Committed? <==>
              && LegalSplit(t, buyerMinor)
              && Locked(s, t)
              && !HasEntry(s.entries, t.buyer, TradeRef(t.id), Settlement)
              && (t.total == buyerMinor || !HasEntry(s.entries, t.seller, TradeRef(t.id), Sale))
    ensures Settle(s, t, buyerMinor) == Refused(InsufficientCredit) ==>
        HasEntry(s.entries, t.buyer, TradeRef(t.id), Settlement)
  {
    if LegalSplit(t, buyerMinor) && Locked(s, t) && !HasEntry(s.entries, t.buyer, TradeRef(t.id), Settlement) {
      ReleaseCommits(s, t, buyerMinor);
      PayoutCommits(s, Release(s, t, buyerMinor).tables, t, buyerMinor);
    }
  }

  /** Behind every sale entry stand a settlement and the reservation it settled. */
  lemma {:induction false} SaleTrail(es: seq<Entry>, v: Principal, r: Reference) returns (buyer: Principal)
    requires Logged(es) && HasEntry(es, v, r, Sale)
    ensures HasEntry(es, buyer, r, Settlement) && HasEntry(es, buyer, r, Purchase)
  {
    var rest, last := es[..|es| - 1], es[|es| - 1];
    assert es == rest + [last];
    HasAfter(rest, last, v, r, Sale);
    if HasEntry(rest, v, r, Sale) {
      buyer := SaleTrail(rest, v, r);
    } else {
      var i :| 0 <= i < |rest| && rest[i].kind == Settlement && rest[i].reference == r;
      buyer := rest[i].user;
      SettlementHasPurchase(rest, buyer, r);
    }
    HasAfter(rest, last, buyer, r, Settlement);
    HasAfter(rest, last, buyer, r, Purchase);
  }

  /** A reservation made for one buyer and not yet settled can be settled with every legal split. */
  lemma LiveReservationsAlwaysSettle(s: Tables, t: Trade, buyerMinor: int)
    requires Inv(s) && Locked(s, t) && LegalSplit(t, buyerMinor)
    requires !HasEntry(s.entries, t.buyer, TradeRef(t.id), Settlement)
    requires forall u | HasEntry(s.entries, u, TradeRef(t.id), Purchase) :: u == t.buyer
    ensures Settle(s, t, buyerMinor).Committed?
  {
    if HasEntry(s.entries, t.seller, TradeRef(t.id), Sale) {
      var buyer := SaleTrail(s.entries, t.seller, TradeRef(t.id));
    }
    SettlementNeverLacksEscrow(s, t, buyerMinor);
  }

  /** Along any run a deposit's hash is written once and its confirmation is final. */
  lemma {:induction false} DepositsArePermanent(ws: seq<World>, es: seq<Event>, i: nat, j: nat, d: DepositId)
    requires Run(ws, es) && i <= j <= |es| && d in ws[i].tables.deposits
    ensures d in ws[j].tables.deposits && DepositKept(ws[i].tables.deposits[d], ws[j].tables.deposits[d])
    decreases j - i
  {
    if i < j {
      StepKeepsDeposit(ws[i], es[i], d);
      DepositsArePermanent(ws, es, i + 1, j, d);
    }
  }

  ghost predicate Credits(w: World, e: Event, d: DepositId, h: Hash) {
    e.Credit? && e.deposit == d && e.hash == h && OutcomeOf(w, e).Committed?
  }

  /**
   * Whatever the retries and races, a deposit is credited at most once and a transaction hash credits at most one
   * deposit.
   */
  lemma EachDepositAndHashCreditsOnce(ws: seq<World>, es: seq<Event>, i: nat, j: nat, d: DepositId, c: DepositId,
      h: Hash, g: Hash)
    requires Run(ws, es) && i < j < |es|
    requires Credits(ws[i], es[i], d, h) && Credits(ws[j], es[j], c, g)
    ensures d != c && h != g
  {
    LedgerIsSound(ws, es, i);
    LedgerIsSound(ws, es, j);
    assert d in ws[i + 1].tables.deposits && ws[i + 1].tables.deposits[d].confirmed;
    assert ws[i].tables.deposits[d].hash == Some(h) && ws[i + 1].tables.deposits[d].hash == Some(h);
    DepositsArePermanent(ws, es, i + 1, j, d);
    assert ws[j].tables.deposits[c].hash == Some(g) && !ws[j].tables.deposits[c].confirmed;
  }

  // ---- client references ----

  lemma StepGrowsLog(w: World, e: Event)
    ensures w.tables.entries <= Apply(w, e).tables.entries
  {
  }

  lemma {:induction false} LogOnlyGrows(ws: seq<World>, es: seq<Event>, i: nat, j: nat)
    requires Run(ws, es) && i <= j <= |es|
    ensures ws[i].tables.entries <= ws[j].tables.entries
    decreases j - i
  {
    if i < j {
      StepGrowsLog(ws[i], es[i]);
      LogOnlyGrows(ws, es, i + 1, j);
    }
  }

  /** A transfer reference that was never used has no incoming entry either. */
  lemma {:induction false} NoIncomingWithoutOutgoing(es: seq<Entry>, r: Reference)
    requires Logged(es) && FindByReference(es, r, TransferOut).None?
    ensures FindByReference(es, r, TransferIn).None?
  {
    if es != [] {
      var rest, last := es[..|es| - 1], es[|es| - 1];
      assert es == rest + [last];
      FindOverAppend(rest, [last], r, TransferOut);
      FindOverAppend(rest, [last], r, TransferIn);
      NoIncomingWithoutOutgoing(rest, r);
    }
  }

  /** What a committed transfer leaves under its reference. */
  lemma FundingLeavesItsEntries(s: Tables, owner: Principal, agent: AgentId, minor: int, client: ClientRef)
    requires Logged(s.entries) && FundAgent(s, owner, agent, minor, client, true).Committed?
    ensures var r, after := FundingRef(owner, client), FundAgent(s, owner, agent, minor, client, true).tables.entries;
            && FindByReference(after, r, TransferOut) == Some(Entry(owner, r, TransferOut, -minor, 0))
            && FindByReference(after, r, TransferIn) == Some(Entry(AgentWallet(agent), r, TransferIn, minor, 0))
  {
    var r := FundingRef(owner, client);
    var s1, e, f := FundLegs(s, owner, agent, minor, client, true);
    NoIncomingWithoutOutgoing(s.entries, r);
    FindOverAppend(s.entries, [e], r, TransferOut);
    FindOverAppend(s.entries, [e], r, TransferIn);
    FindOverAppend(s.entries + [e], [f], r, TransferOut);
    FindOverAppend(s.entries + [e], [f], r, TransferIn);
  }

  /**
   * After an owner's transfer, its reference moves nothing more: the same transfer is a replay, any other a conflict.
   */
  lemma TransfersHappenOncePerReference(ws: seq<World>, es: seq<Event>, i: nat, j: nat, agent: AgentId, minor: int)
    requires Run(ws, es) && i < j <= |es|
    requires es[i].Fund? && es[i].owned && OutcomeOf(ws[i], es[i]).Committed?
    ensures FundAgent(ws[j].tables, es[i].owner, agent, minor, es[i].client, true)
         == if agent == es[i].agent && minor == es[i].minor then Replayed else Refused(ReferenceConflict)
  {
    var e, r := es[i], FundingRef(es[i].owner, es[i].client);
    LedgerIsSound(ws, es, i);
    FundingLeavesItsEntries(ws[i].tables, e.owner, e.agent, e.minor, e.client);
    LogOnlyGrows(ws, es, i + 1, j);
    var was, now := ws[i + 1].tables.entries, ws[j].tables.entries;
    assert now == was + now[|was|..];
    FindOverAppend(was, now[|was|..], r, TransferOut);
    FindOverAppend(was, now[|was|..], r, TransferIn);
  }

  /** After a deposit is opened, its reference opens no other: the same terms are a replay, any others a conflict. */
  lemma DepositReferencesOpenOnce(ws: seq<World>, es: seq<Event>, i: nat, j: nat, amount: int, payer: Payer,
      newId: DepositId, supported: bool)
    requires Run(ws, es) && i < j <= |es|
    requires es[i].OpenDeposit? && OutcomeOf(ws[i], es[i]).Committed?
    ensures CreateDeposit(ws[j].tables, es[i].user, amount, payer, es[i].client, newId, supported)
         == if amount == es[i].amount && payer == es[i].payer then Replayed else Refused(ReferenceConflict)
  {
    var e := es[i];
    DepositsArePermanent(ws, es, i + 1, j, e.newId);
    LedgerIsSound(ws, es, j);
    var a, b := ws[i + 1].tables.deposits[e.newId].(hash := None, confirmed := false),
        ws[j].tables.deposits[e.newId].(hash := None, confirmed := false);
    assert a == b && ClientRefUsed(ws[j].tables, e.user, e.client, e.newId) by {
      assert b.user == e.user && b.client == e.client;
    }
    assert b.amount == e.amount && b.payer == e.payer;
    assert ws[j].tables.deposits[e.newId].amount == e.amount && ws[j].tables.deposits[e.newId].payer == e.payer;
  }
}
