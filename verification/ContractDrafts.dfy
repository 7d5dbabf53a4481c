/**
 * Creating contract drafts under a buyer's reference, and recovering them (lib/contract-creation.ts). Amounts are whole
 * cents.
 */
module ContractDrafts {
  import opened Options
  import opened JsonValues
  import opened CanonicalForm
  import RequestWalk
  import S = ContractStates

  type ContractId = nat
  type Person = nat
  type ListingId = nat
  type ClientRef = string

  /**
   * body is the whole parsed input, from which the other fields are read; fits tells that its canonical text is within
   * the byte limit.
   */
  datatype Input = Input(reference: Option<ClientRef>, seller: Option<Person>, listing: Option<ListingId>,
      amounts: seq<int>, body: Json, fits: bool)

  datatype Contract = Contract(buyer: Person, seller: Person, listing: Option<ListingId>, total: int, fee: int,
      escrow: int,
                               state: S.Contract, milestones: seq<Milestone>)

  datatype Milestone = Milestone(amount: int, state: S.Milestone)

  /** The digest is injective, so the stored one is the canonical form of the request itself. */
  datatype Creation = Creation(contract: ContractId, digest: Json)

  datatype Tables = Tables(contracts: map<ContractId, Contract>, creations: map<(Person, ClientRef), Creation>)

  /**
   * What admission finds: funding ready, payments paused, the listing's seller, and whether a seller is public and
   * known.
   */
  datatype Admission = Admission(ready: bool, paused: bool, listingSeller: Option<Person>, sellerPublic: bool,
      sellerKnown: bool)

  datatype Code =
    | InputLimit | CreationConflict | RecordInvalid | FundingUnavailable | Paused | ListingUnavailable | SellerRequired
    | SelfPurchase
    | SellerUnavailable | SellerNotFound | IdTaken

  datatype Outcome =
    | Created(tables: Tables, contract: ContractId) | Recovered(contract: ContractId) | Refused(code: Code)

  function Total(amounts: seq<int>): int {
    if amounts == [] then 0 else Total(amounts[..|amounts| - 1]) + amounts[|amounts| - 1]
  }

  /** Five percent, rounded half up to a cent. */
  function Fee(total: int): int { (5 * total + 50) / 100 }

  function Pending(amounts: seq<int>): (ms: seq<Milestone>)
    ensures |ms| == |amounts| && forall i | 0 <= i < |ms| :: ms[i] == Milestone(amounts[i], S.Pending)
  {
    seq(|amounts|, i requires 0 <= i < |amounts| => Milestone(amounts[i], S.Pending))
  }

  function Drafted(buyer: Person, seller: Person, input: Input): Contract {
    var total := Total(input.amounts);
    Contract(buyer, seller, input.listing, total, Fee(total), total + Fee(total), S.Draft, Pending(input.amounts))
  }

  /** The original creation under a reference, checked against a digest when one is given; None when there is none. */
  function Original(s: Tables, buyer: Person, r: ClientRef, digest: Option<Json>): Option<Outcome> {
    if (buyer, r) !in s.creations then None
    else
      var made := s.creations[(buyer, r)];
      if digest.Some? && digest.value != made.digest then Some(Refused(CreationConflict))
      else if made.contract !in s.contracts || s.contracts[made.contract].buyer != buyer
          then Some(Refused(RecordInvalid))
      else Some(Recovered(made.contract))
  }

  predicate WithinLimits(input: Input) { RequestWalk.WithinBounds(input.body) && input.fits }

  /** Whose draft a fresh creation makes, or why none is made. */
  function Seller(buyer: Person, input: Input, a: Admission): (Option<Code>, Person) {
    if !a.ready then (Some(FundingUnavailable), 0)
    else if a.paused then (Some(Paused), 0)
    else if input.listing.Some? && a.listingSeller.None? then (Some(ListingUnavailable), 0)
    else
      var seller := if input.listing.Some? then a.listingSeller else input.seller;
      if seller.None? then (Some(SellerRequired), 0)
      else if seller.value == buyer then (Some(SelfPurchase), 0)
      else if !a.sellerPublic then (Some(SellerUnavailable), 0)
      else if !a.sellerKnown then (Some(SellerNotFound), 0)
      else (None, seller.value)
  }

  function Create(s: Tables, buyer: Person, input: Input, a: Admission, newId: ContractId): Outcome {
    if input.reference.Some? && !WithinLimits(input) then Refused(InputLimit)
    else
      var prior := if input.reference.Some?
          then Original(s, buyer, input.reference.value, Some(Canonical(CodeUnits, input.body))) else None;
      if prior.Some? then prior.value
      else
        var (code, seller) := Seller(buyer, input, a);
        if code.Some? then Refused(code.value)
        else if newId in s.contracts then Refused(IdTaken)
        else
          var contracts := s.contracts[newId := Drafted(buyer, seller, input)];
          Created(if input.reference.Some?
                  then Tables(contracts, s.creations[(buyer, input.reference.value) := Creation(newId,
                      Canonical(CodeUnits, input.body))])
                  else s.(contracts := contracts),
                  newId)
  }

  // ---- the store ----

  class DraftStore {
    var contracts: map<ContractId, Contract>
    var creations: map<(Person, ClientRef), Creation>

    ghost function Contents(): Tables
      reads this
    {
      Tables(contracts, creations)
    }

    constructor ()
      ensures Contents() == Tables(map[], map[])
    {
      contracts, creations := map[], map[];
    }

    method CreateContractDraft(buyer: Person, input: Input, a: Admission, newId: ContractId) returns (o: Outcome)
      modifies this
      ensures o == Create(old(Contents()), buyer, input, a, newId)
      ensures Contents() == if o.Created? then o.tables else old(Contents())
    {
      if input.reference.Some? {
        var bounded := RequestWalk.Walk(input.body);
        if !bounded || !input.fits { return Refused(InputLimit); }
        var prior := Original(Tables(contracts, creations), buyer, input.reference.value,
            Some(Canonical(CodeUnits, input.body)));
        if prior.Some? { return prior.value; }
      }
      var (code, seller) := Seller(buyer, input, a);
      if code.Some? { return Refused(code.value); }
      if newId in contracts { return Refused(IdTaken); }
      contracts := contracts[newId := Drafted(buyer, seller, input)];
      if input.reference.Some? {
        creations := creations[(buyer, input.reference.value) := Creation(newId, Canonical(CodeUnits, input.body))];
      }
      return Created(Tables(contracts, creations), newId);
    }
  }

  // ---- money ----

  function TotalOf(ms: seq<Milestone>): int {
    if ms == [] then 0 else TotalOf(ms[..|ms| - 1]) + ms[|ms| - 1].amount
  }

  lemma {:induction false} MilestonesSumToTotal(amounts: seq<int>)
    ensures TotalOf(Pending(amounts)) == Total(amounts)
  {
    if amounts != [] {
      var rest := amounts[..|amounts| - 1];
      MilestonesSumToTotal(rest);
      assert Pending(amounts)[..|rest|] == Pending(rest);
    }
  }

  /**
   * A draft's total is what its milestones sum to, its escrow covers total and fee, and the fee is the nearest cent to
   * five percent.
   */
  lemma DraftsAddUp(buyer: Person, seller: Person, input: Input)
    ensures var c := Drafted(buyer, seller, input);
            && TotalOf(c.milestones) == c.total
            && c.escrow == c.total + c.fee
            && 2 * c.total - 20 < 40 * c.fee <= 2 * c.total + 20
  {
    MilestonesSumToTotal(input.amounts);
  }

  // ---- exactly when a draft is made ----

  /** The seller of the listing if one is named, and otherwise the seller the request names. */
  function ChosenSeller(input: Input, a: Admission): Option<Person> {
    if input.listing.Some? then a.listingSeller else input.seller
  }

  /**
   * A draft is made exactly while funding is ready and open, for a known public seller other than the buyer, and, under
   * a reference, for a request within the limits whose reference this buyer has not used.
   */
  lemma CreationIff(s: Tables, buyer: Person, input: Input, a: Admission, newId: ContractId)
    ensures Create(s, buyer, input, a, newId).Created?
       <==> && (input.reference.Some? ==>
                  RequestWalk.WithinBounds(input.body) && input.fits && (buyer, input.reference.value) !in s.creations)
            && a.ready && !a.paused
            && ChosenSeller(input, a).Some? && ChosenSeller(input, a).value != buyer && a.sellerPublic && a.sellerKnown
            && newId !in s.contracts
  {
  }

  /** It is an unfunded draft of the request's milestones with that seller, and its reference names it. */
  lemma CreationWrites(s: Tables, buyer: Person, input: Input, a: Admission, newId: ContractId)
    requires Create(s, buyer, input, a, newId).Created?
    ensures var s' := Create(s, buyer, input, a, newId).tables;
            && Create(s, buyer, input, a, newId).contract == newId && newId in s'.contracts
            && s'.contracts == s.contracts[newId := s'.contracts[newId]]
            && var c := s'.contracts[newId];
               && c.buyer == buyer && Some(c.seller) == ChosenSeller(input, a) && c.listing == input.listing
               && c.state == S.Draft && |c.milestones| == |input.amounts|
               && (forall i | 0 <= i < |input.amounts| ::
                   c.milestones[i].amount == input.amounts[i] && c.milestones[i].state == S.Pending)
               && TotalOf(c.milestones) == c.total && c.escrow == c.total + c.fee
    ensures var s' := Create(s, buyer, input, a, newId).tables;
            if input.reference.None? then s'.creations == s.creations
            else
              var k := (buyer, input.reference.value);
              && k in s'.creations && s'.creations == s.creations[k := s'.creations[k]]
              && s'.creations[k].contract == newId && s'.creations[k].digest == Canonical(CodeUnits, input.body)
  {
    MilestonesSumToTotal(input.amounts);
  }

  // ---- runs ----

  /**
   * Creations, and later work on a contract, which never changes its buyer; contracts with a creation record are never
   * deleted.
   */
  datatype Event =
    | CreateCall(buyer: Person, input: Input, admission: Admission, newId: ContractId)
    | Progress(id: ContractId, state: S.Contract, milestones: seq<Milestone>)

  function Apply(s: Tables, e: Event): Tables {
    match e
    case CreateCall(buyer, input, a, newId) =>
      var o := Create(s, buyer, input, a, newId);
      if o.Created? then o.tables else s
    case Progress(id, state, ms) =>
      if id in s.contracts then
        s.(contracts := s.contracts[id := s.contracts[id].(state := state, milestones := ms)])
      else s
  }

  /** Every reference names one contract of its own buyer, and no contract has two references. */
  ghost predicate Inv(s: Tables) {
    && (forall k | k in s.creations ::
        s.creations[k].contract in s.contracts && s.contracts[s.creations[k].contract].buyer == k.0)
    && (forall k, l | k in s.creations && l in s.creations && k != l ::
        s.creations[k].contract != s.creations[l].contract)
  }

  /** Empty tables are a sound start. */
  lemma EmptyTablesAreSound()
    ensures Inv(Tables(map[], map[]))
  {
  }

  ghost predicate Run(ss: seq<Tables>, es: seq<Event>) {
    && |ss| == |es| + 1
    && Inv(ss[0])
    && forall k | 0 <= k < |es| :: ss[k + 1] == Apply(ss[k], es[k])
  }

  lemma StepKeepsCreations(s: Tables, e: Event)
    requires Inv(s)
    ensures Inv(Apply(s, e)) && forall k | k in s.creations ::
        k in Apply(s, e).creations && Apply(s, e).creations[k] == s.creations[k]
  {
    var s' := Apply(s, e);
    if e.Progress? {
      assert s'.creations == s.creations;
    } else if s'.creations != s.creations {
      assert s'.creations == s.creations[(e.buyer, e.input.reference.value) := Creation(e.newId,
          Canonical(CodeUnits, e.input.body))];
    }
  }

  lemma {:induction false} ReferencesAreForever(ss: seq<Tables>, es: seq<Event>, i: nat, j: nat, k: (Person, ClientRef))
    requires Run(ss, es) && i <= j <= |es| && k in ss[i].creations
    ensures Inv(ss[j]) && k in ss[j].creations && ss[j].creations[k] == ss[i].creations[k]
    decreases j
  {
    if i < j {
      ReferencesAreForever(ss, es, i, j - 1, k);
      StepKeepsCreations(ss[j - 1], es[j - 1]);
    } else if j > 0 {
      AlwaysSound(ss, es, j);
    }
  }

  lemma {:induction false} AlwaysSound(ss: seq<Tables>, es: seq<Event>, k: nat)
    requires Run(ss, es) && k <= |es|
    ensures Inv(ss[k])
  {
    if k > 0 {
      AlwaysSound(ss, es, k - 1);
      StepKeepsCreations(ss[k - 1], es[k - 1]);
    }
  }

  /**
   * Once a referenced draft exists, the reference creates nothing more, whatever admission says: a request equal to the
   * first up to key order recovers the first contract, any other within the limits is a conflict, and one beyond them
   * is refused as such.
   */
  lemma ReplaysRecoverTheOriginal(ss: seq<Tables>, es: seq<Event>, i: nat, j: nat, first: Input, again: Input,
      a: Admission, newId: ContractId)
    requires Run(ss, es) && i < j <= |es|
    requires es[i].CreateCall? && es[i].input == first && first.reference.Some?
        && Create(ss[i], es[i].buyer, first, es[i].admission, es[i].newId).Created?
    requires again.reference == first.reference && WellFormed(first.body) && WellFormed(again.body)
    ensures Create(ss[j], es[i].buyer, again, a, newId)
         == if !WithinLimits(again) then Refused(InputLimit)
            else if SameUpToKeyOrder(again.body, first.body) then Recovered(es[i].newId)
            else Refused(CreationConflict)
  {
    var k := (es[i].buyer, first.reference.value);
    assert ss[i + 1].creations[k] == Creation(es[i].newId, Canonical(CodeUnits, first.body));
    ReferencesAreForever(ss, es, i + 1, j, k);
    CodeUnitsAreATotalOrder();
    TotalOrderForgetsKeyOrder(CodeUnits, again.body, first.body);
  }

  /** Every contract a reference made is its own: two creations of one run never answer with the same contract. */
  lemma CreationsMakeDistinctContracts(ss: seq<Tables>, es: seq<Event>, k: nat, r: (Person, ClientRef),
      q: (Person, ClientRef))
    requires Run(ss, es) && k <= |es| && r in ss[k].creations && q in ss[k].creations && r != q
    ensures ss[k].creations[r].contract != ss[k].creations[q].contract
    ensures Original(ss[k], r.0, r.1, None) == Some(Recovered(ss[k].creations[r].contract))
  {
    AlwaysSound(ss, es, k);
  }
}
