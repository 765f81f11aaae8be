/** When each event's batch can be built, and what it does to every account. */
module BatchProperties {
  import opened Prelude
  import opened Batches

  // --- Sums over entries before they are collected ---

  function Weigh(made: seq<Made>, weight: Entry -> int): int {
    if made == [] then 0
    else (if made[0].Ok? then weight(made[0].value) else 0) + Weigh(made[1..], weight)
  }

  lemma {:induction false} SumJoins(a: seq<Entry>, b: seq<Entry>, weight: Entry -> int)
    ensures Sum(a + b, weight) == Sum(a, weight) + Sum(b, weight)
  {
    if b == [] {
      assert a + b == a;
    } else {
      assert (a + b)[..|a + b| - 1] == a + b[..|b| - 1];
      SumJoins(a, b[..|b| - 1], weight);
    }
  }

  lemma {:induction false} CollectedWeight(made: seq<Made>, weight: Entry -> int)
    requires Collect(made).Ok?
    ensures Sum(Collect(made).value, weight) == Weigh(made, weight)
  {
    if made != [] {
      CollectedWeight(made[1..], weight);
      var first := made[0].value;
      assert Sum([first], weight) == weight(first) by { assert [first][..0] == []; }
      SumJoins([first], Collect(made[1..]).value, weight);
    }
  }

  lemma {:induction false} WeighJoins(a: seq<Made>, b: seq<Made>, weight: Entry -> int)
    ensures Weigh(a + b, weight) == Weigh(a, weight) + Weigh(b, weight)
  {
    if a == [] {
      assert a + b == b;
    } else {
      assert (a + b)[1..] == a[1..] + b;
      WeighJoins(a[1..], b, weight);
    }
  }

  predicate AllMade(made: seq<Made>) { forall e :: e in made ==> e.Ok? }

  predicate ExactlyWeighed(made: seq<Made>) {
    Weigh(made, OnSide(Debit)) <= EXACT && Weigh(made, OnSide(Credit)) <= EXACT
  }

  /** A batch is built just when every entry is and, within exact totals, its sides are equal. */
  lemma BuiltExact(kind: Kind, currency: string, made: seq<Made>)
    requires made != [] && (forall e :: e in made ==> IsMade(e)) && ExactlyWeighed(made)
    ensures Built(kind, currency, made).Ok?
            <==> IsCurrency(currency) && AllMade(made) && Weigh(made, OnSide(Debit)) == Weigh(made, OnSide(Credit))
  {
    CollectedAreEntries(made);
    if AllMade(made) {
      var entries := Collect(made).value;
      CollectedWeight(made, OnSide(Debit));
      CollectedWeight(made, OnSide(Credit));
      EffectIsDifference(entries);
      ComposedExact(kind, currency, entries);
    }
  }

  /** What a built batch does to a slice is what its lines say. */
  lemma BuiltEffect(kind: Kind, currency: string, made: seq<Made>, slice: Slice)
    requires Built(kind, currency, made).Ok?
    ensures Effect(Built(kind, currency, made).value.entries, slice) == Weigh(made, Over(slice))
    ensures Built(kind, currency, made).value.currency == currency
  {
    CollectedWeight(made, Over(slice));
  }

  // --- Orders and refunds ---

  function Positive(n: int): int { if n > 0 then n else 0 }

  lemma WeighOne(e: Made, weight: Entry -> int)
    ensures Weigh([e], weight) == if e.Ok? then weight(e.value) else 0
  {
    assert [e][1..] == [];
  }

  lemma MadeOne(account: Account, side: Side, amount: int, org: Option<string>)
    ensures IsMade(MakeEntry(account, side, amount, org))
    ensures MakeEntry(account, side, amount, org).Ok? <==> IsAmount(amount)
  {
  }

  predicate OrderAmounts(captured: int, organizerNet: int, fee: int, tax: int, discount: int) {
    && IsAmount(captured) && (organizerNet == 0 || IsAmount(organizerNet))
    && fee <= MAX_ENTRY && tax <= MAX_ENTRY && discount <= MAX_ENTRY
  }

  lemma OrderPaidLines(captured: int, organizerNet: int, fee: int, tax: int, discount: int, org: Option<string>,
      weight: Entry -> int)
    requires OrderAmounts(captured, organizerNet, fee, tax, discount)
    requires forall a, side, o :: weight(Entry(a, side, 0, o)) == 0
    ensures Weigh(OrderPaidEntries(captured, organizerNet, fee, tax, discount, org), weight)
            == weight(Entry(ProcessorClearing, Debit, captured, org))
             + weight(Entry(PromotionalDiscount, Debit, Positive(discount), org))
             + weight(Entry(OrganizerPayable, Credit, organizerNet, org))
             + weight(Entry(PlatformFeeRevenue, Credit, Positive(fee), org))
             + weight(Entry(TaxPayable, Credit, Positive(tax), org))
  {
    var capture := [MakeEntry(ProcessorClearing, Debit, captured, org)];
    var given := IfPositive(PromotionalDiscount, Debit, discount, org);
    var net := if organizerNet != 0 then [MakeEntry(OrganizerPayable, Credit, organizerNet, org)] else [];
    var fees := IfPositive(PlatformFeeRevenue, Credit, fee, org);
    var taxes := IfPositive(TaxPayable, Credit, tax, org);
    WeighJoins(capture, given, weight);
    WeighJoins(capture + given, net, weight);
    WeighJoins(capture + given + net, fees, weight);
    WeighJoins(capture + given + net + fees, taxes, weight);
    WeighOne(MakeEntry(ProcessorClearing, Debit, captured, org), weight);
    WeighOne(MakeEntry(PromotionalDiscount, Debit, discount, org), weight);
    WeighOne(MakeEntry(OrganizerPayable, Credit, organizerNet, org), weight);
    WeighOne(MakeEntry(PlatformFeeRevenue, Credit, fee, org), weight);
    WeighOne(MakeEntry(TaxPayable, Credit, tax, org), weight);
  }

  lemma OrderPaidMade(captured: int, organizerNet: int, fee: int, tax: int, discount: int, org: Option<string>)
    ensures var made := OrderPaidEntries(captured, organizerNet, fee, tax, discount, org);
            && (forall e :: e in made ==> IsMade(e))
            && (AllMade(made) <==> OrderAmounts(captured, organizerNet, fee, tax, discount))
  {
    var made := OrderPaidEntries(captured, organizerNet, fee, tax, discount, org);
    assert MakeEntry(ProcessorClearing, Debit, captured, org) in made;
    assert discount > 0 ==> MakeEntry(PromotionalDiscount, Debit, discount, org) in made;
    assert organizerNet != 0 ==> MakeEntry(OrganizerPayable, Credit, organizerNet, org) in made;
    assert fee > 0 ==> MakeEntry(PlatformFeeRevenue, Credit, fee, org) in made;
    assert tax > 0 ==> MakeEntry(TaxPayable, Credit, tax, org) in made;
  }

  /**
   * The order batch is built just when what was captured, with the discount, is what it is made of.
   * A negative fee, tax or discount is left out rather than refused.
   */
  lemma OrderPaidExact(
      captured: int, organizerNet: int, fee: int, tax: int, discount: int, currency: string, org: Option<string>)
    requires captured + Positive(discount) <= EXACT && organizerNet + Positive(fee) + Positive(tax) <= EXACT
    ensures Built(OrderPaid, currency, OrderPaidEntries(captured, organizerNet, fee, tax, discount, org)).Ok?
            <==> && IsCurrency(currency) && OrderAmounts(captured, organizerNet, fee, tax, discount)
                 && captured + Positive(discount) == organizerNet + Positive(fee) + Positive(tax)
  {
    hide Weigh, OrderPaidEntries;
    var made := OrderPaidEntries(captured, organizerNet, fee, tax, discount, org);
    OrderPaidMade(captured, organizerNet, fee, tax, discount, org);
    if AllMade(made) {
      OrderPaidLines(captured, organizerNet, fee, tax, discount, org, OnSide(Debit));
      OrderPaidLines(captured, organizerNet, fee, tax, discount, org, OnSide(Credit));
      OrderPaidSome(captured, organizerNet, fee, tax, discount, org);
      BuiltExact(OrderPaid, currency, made);
    } else {
      CollectedAreEntries(made);
    }
  }

  lemma OrderPaidSome(captured: int, organizerNet: int, fee: int, tax: int, discount: int, org: Option<string>)
    ensures OrderPaidEntries(captured, organizerNet, fee, tax, discount, org) != []
  {
  }

  predicate RefundAmounts(refunded: int, organizerShare: int, fee: int, tax: int) {
    IsAmount(refunded) && IsAmount(organizerShare) && fee <= MAX_ENTRY && tax <= MAX_ENTRY
  }

  lemma RefundLines(refunded: int, organizerShare: int, fee: int, tax: int, org: Option<string>, weight: Entry -> int)
    requires RefundAmounts(refunded, organizerShare, fee, tax)
    requires forall a, side, o :: weight(Entry(a, side, 0, o)) == 0
    ensures Weigh(RefundEntries(refunded, organizerShare, fee, tax, org), weight)
            == weight(Entry(OrganizerPayable, Debit, organizerShare, org))
             + weight(Entry(PlatformFeeRevenue, Debit, Positive(fee), org))
             + weight(Entry(TaxPayable, Debit, Positive(tax), org))
             + weight(Entry(RefundClearing, Credit, refunded, org))
  {
    var share := [MakeEntry(OrganizerPayable, Debit, organizerShare, org)];
    var fees := IfPositive(PlatformFeeRevenue, Debit, fee, org);
    var taxes := IfPositive(TaxPayable, Debit, tax, org);
    var owed := [MakeEntry(RefundClearing, Credit, refunded, org)];
    WeighJoins(share, fees, weight);
    WeighJoins(share + fees, taxes, weight);
    WeighJoins(share + fees + taxes, owed, weight);
    WeighOne(MakeEntry(OrganizerPayable, Debit, organizerShare, org), weight);
    WeighOne(MakeEntry(PlatformFeeRevenue, Debit, fee, org), weight);
    WeighOne(MakeEntry(TaxPayable, Debit, tax, org), weight);
    WeighOne(MakeEntry(RefundClearing, Credit, refunded, org), weight);
  }

  lemma RefundMade(refunded: int, organizerShare: int, fee: int, tax: int, org: Option<string>)
    ensures var made := RefundEntries(refunded, organizerShare, fee, tax, org);
            && made != [] && (forall e :: e in made ==> IsMade(e))
            && (AllMade(made) <==> RefundAmounts(refunded, organizerShare, fee, tax))
  {
    var made := RefundEntries(refunded, organizerShare, fee, tax, org);
    assert MakeEntry(OrganizerPayable, Debit, organizerShare, org) in made;
    assert MakeEntry(RefundClearing, Credit, refunded, org) in made;
    assert fee > 0 ==> MakeEntry(PlatformFeeRevenue, Debit, fee, org) in made;
    assert tax > 0 ==> MakeEntry(TaxPayable, Debit, tax, org) in made;
  }

  /** A refund is built just when its parts add up and the organiser bears some of it. */
  lemma RefundExact(
      refunded: int, organizerShare: int, fee: int, tax: int, currency: string, org: Option<string>)
    requires refunded <= EXACT && organizerShare + Positive(fee) + Positive(tax) <= EXACT
    ensures Built(Refund, currency, RefundEntries(refunded, organizerShare, fee, tax, org)).Ok?
            <==> && IsCurrency(currency) && RefundAmounts(refunded, organizerShare, fee, tax)
                 && organizerShare + Positive(fee) + Positive(tax) == refunded
  {
    hide Weigh, RefundEntries;
    var made := RefundEntries(refunded, organizerShare, fee, tax, org);
    RefundMade(refunded, organizerShare, fee, tax, org);
    if AllMade(made) {
      RefundLines(refunded, organizerShare, fee, tax, org, OnSide(Debit));
      RefundLines(refunded, organizerShare, fee, tax, org, OnSide(Credit));
      BuiltExact(Refund, currency, made);
    } else {
      CollectedAreEntries(made);
    }
  }

  // --- Movements ---

  /** A movement is built for every valid amount and currency, whatever the amount's size. */
  lemma MovedExact(kind: Kind, from: Account, to: Account, amount: int, currency: string, org: Option<string>)
    ensures Moved(kind, from, to, amount, currency, org).Ok? <==> IsAmount(amount) && IsCurrency(currency)
  {
    hide Weigh, Built, Collect, IsCurrency, OnSide;
    var debit, credit := MakeEntry(from, Debit, amount, org), MakeEntry(to, Credit, amount, org);
    var made: seq<Made> := [debit, credit];
    assert debit in made && credit in made;
    assert AllMade(made) <==> IsAmount(amount);
    if IsAmount(amount) {
      MovedWeight(from, to, amount, org, OnSide(Debit));
      MovedWeight(from, to, amount, org, OnSide(Credit));
      SideWeights(from, to, amount, org);
      BuiltExact(kind, currency, made);
    } else {
      NotBuilt(kind, currency, made);
    }
  }

  /** And refused for its amount before its currency. */
  lemma MovedRefused(kind: Kind, from: Account, to: Account, amount: int, currency: string, org: Option<string>)
    requires Moved(kind, from, to, amount, currency, org).Err?
    ensures Moved(kind, from, to, amount, currency, org).error
            == if amount <= 0 then AmountNotPositive
               else if amount > 9_007_199_254_740_991 then AmountTooLarge
               else BadCurrency
  {
    MovedExact(kind, from, to, amount, currency, org);
    hide IsCurrency, Total;
    var made: seq<Made> := [MakeEntry(from, Debit, amount, org), MakeEntry(to, Credit, amount, org)];
    assert made[1..] == [MakeEntry(to, Credit, amount, org)] && made[1..][1..] == [];
    if amount <= 0 || amount > 9_007_199_254_740_991 {
      assert Collect(made) == Err(made[0].error);
    } else {
      CollectedAreEntries(made);
    }
  }

  lemma SideWeights(from: Account, to: Account, amount: int, org: Option<string>)
    ensures OnSide(Debit)(Entry(from, Debit, amount, org)) == amount
            && OnSide(Debit)(Entry(to, Credit, amount, org)) == 0
    ensures OnSide(Credit)(Entry(from, Debit, amount, org)) == 0
            && OnSide(Credit)(Entry(to, Credit, amount, org)) == amount
  {
  }

  lemma NotBuilt(kind: Kind, currency: string, made: seq<Made>)
    requires (forall e :: e in made ==> IsMade(e)) && !AllMade(made)
    ensures Built(kind, currency, made).Err?
  {
    CollectedAreEntries(made);
  }

  lemma MovedWeight(from: Account, to: Account, amount: int, org: Option<string>, weight: Entry -> int)
    requires IsAmount(amount)
    ensures Weigh([MakeEntry(from, Debit, amount, org), MakeEntry(to, Credit, amount, org)], weight)
            == weight(Entry(from, Debit, amount, org)) + weight(Entry(to, Credit, amount, org))
  {
    WeighJoins([MakeEntry(from, Debit, amount, org)], [MakeEntry(to, Credit, amount, org)], weight);
    WeighOne(MakeEntry(from, Debit, amount, org), weight);
    WeighOne(MakeEntry(to, Credit, amount, org), weight);
    assert [MakeEntry(from, Debit, amount, org)] + [MakeEntry(to, Credit, amount, org)]
        == [MakeEntry(from, Debit, amount, org), MakeEntry(to, Credit, amount, org)];
  }

  /** A movement takes the amount to the one account from the other, and touches nothing else. */
  lemma MovedEffect(
      kind: Kind, from: Account, to: Account, amount: int, currency: string, org: Option<string>, slice: Slice)
    requires Moved(kind, from, to, amount, currency, org).Ok?
    ensures Effect(Moved(kind, from, to, amount, currency, org).value.entries, slice)
            == (if slice(from, org) then amount else 0) - if slice(to, org) then amount else 0
    ensures Moved(kind, from, to, amount, currency, org).value.currency == currency
  {
    hide Weigh, Sum;
    MovedExact(kind, from, to, amount, currency, org);
    MovedWeight(from, to, amount, org, Over(slice));
    BuiltEffect(kind, currency, [MakeEntry(from, Debit, amount, org), MakeEntry(to, Credit, amount, org)], slice);
  }

  // --- What each movement is ---

  function In(slice: Slice, account: Account, org: Option<string>, amount: int): int {
    if slice(account, org) then amount else 0
  }

  predicate Movable(amount: int, currency: string) {
    0 < amount <= 9_007_199_254_740_991 && |currency| == 3 && forall c :: c in currency ==> 'A' <= c <= 'Z'
  }

  /** A settled refund leaves the processor, and refund clearing with it. */
  lemma RefundSettledEffect(refunded: int, currency: string, org: Option<string>, slice: Slice)
    ensures var r := RefundSettledBatch(refunded, currency, org);
            && (r.Ok? <==> Movable(refunded, currency))
            && (r.Ok? ==> Effect(r.value.entries, slice)
                          == In(slice, RefundClearing, org, refunded) - In(slice, ProcessorClearing, org, refunded))
  {
    hide Moved, Effect;
    MovedExact(Refund, RefundClearing, ProcessorClearing, refunded, currency, org);
    if Movable(refunded, currency) {
      MovedEffect(Refund, RefundClearing, ProcessorClearing, refunded, currency, org, slice);
    }
  }

  /** A dispute holds the amount from one of two accounts; won, it goes back there, and lost, the processor takes it. */
  lemma DisputeEffects(disputed: int, heldFrom: Account, currency: string, org: Option<string>, slice: Slice)
    ensures var held := DisputeOpenedBatch(disputed, heldFrom, currency, org);
            var won := DisputeResolvedBatch(disputed, true, heldFrom, currency, org);
            var lost := DisputeResolvedBatch(disputed, false, heldFrom, currency, org);
            var allowed :=
              (heldFrom == OrganizerPayable || heldFrom == PlatformFeeRevenue) && Movable(disputed, currency);
            && (held.Ok? <==> allowed) && (won.Ok? <==> allowed) && (lost.Ok? <==> allowed)
            && (allowed ==>
                  && Effect(held.value.entries, slice)
                     == In(slice, heldFrom, org, disputed) - In(slice, DisputeClearing, org, disputed)
                  && Effect(won.value.entries, slice) == -Effect(held.value.entries, slice)
                  && Effect(lost.value.entries, slice)
                     == In(slice, DisputeClearing, org, disputed) - In(slice, ProcessorClearing, org, disputed))
  {
    hide Moved, Effect;
    MovedExact(DisputeOpened, heldFrom, DisputeClearing, disputed, currency, org);
    MovedExact(DisputeResolved, DisputeClearing, heldFrom, disputed, currency, org);
    MovedExact(DisputeResolved, DisputeClearing, ProcessorClearing, disputed, currency, org);
    if Movable(disputed, currency) {
      MovedEffect(DisputeOpened, heldFrom, DisputeClearing, disputed, currency, org, slice);
      MovedEffect(DisputeResolved, DisputeClearing, heldFrom, disputed, currency, org, slice);
      MovedEffect(DisputeResolved, DisputeClearing, ProcessorClearing, disputed, currency, org, slice);
    }
  }

  /** A transfer takes from what the organiser is owed into transfer clearing, and its reversal puts it back. */
  lemma TransferEffects(amount: int, currency: string, org: Option<string>, slice: Slice)
    ensures var (sent, back) := (TransferBatch(amount, currency, org), TransferReversalBatch(amount, currency, org));
            && (sent.Ok? <==> Movable(amount, currency)) && (back.Ok? <==> Movable(amount, currency))
            && (Movable(amount, currency) ==>
                  && Effect(sent.value.entries, slice)
                     == In(slice, OrganizerPayable, org, amount) - In(slice, TransferClearing, org, amount)
                  && Effect(back.value.entries, slice) == -Effect(sent.value.entries, slice))
  {
    hide Moved, Effect;
    MovedExact(Transfer, OrganizerPayable, TransferClearing, amount, currency, org);
    MovedExact(TransferReversal, TransferClearing, OrganizerPayable, amount, currency, org);
    if Movable(amount, currency) {
      MovedEffect(Transfer, OrganizerPayable, TransferClearing, amount, currency, org, slice);
      MovedEffect(TransferReversal, TransferClearing, OrganizerPayable, amount, currency, org, slice);
    }
  }

  /** A payout debits payout clearing and credits transfer clearing, and a failed one does the opposite. */
  lemma PayoutEffects(amount: int, currency: string, org: Option<string>, slice: Slice)
    ensures var (paid, failed) := (PayoutBatch(amount, false, currency, org), PayoutBatch(amount, true, currency, org));
            && (paid.Ok? <==> Movable(amount, currency)) && (failed.Ok? <==> Movable(amount, currency))
            && (Movable(amount, currency) ==>
                  && Effect(paid.value.entries, slice)
                     == In(slice, PayoutClearing, org, amount) - In(slice, TransferClearing, org, amount)
                  && Effect(failed.value.entries, slice) == -Effect(paid.value.entries, slice))
  {
    hide Moved, Effect;
    MovedExact(Payout, PayoutClearing, TransferClearing, amount, currency, org);
    MovedExact(Payout, TransferClearing, PayoutClearing, amount, currency, org);
    if Movable(amount, currency) {
      MovedEffect(Payout, PayoutClearing, TransferClearing, amount, currency, org, slice);
      MovedEffect(Payout, TransferClearing, PayoutClearing, amount, currency, org, slice);
    }
  }

  /** A transfer and then its payout both credit transfer clearing: twice the amount is left there. */
  lemma TransferThenPayout(amount: int, currency: string, org: Option<string>)
    requires IsAmount(amount) && IsCurrency(currency)
    ensures TransferBatch(amount, currency, org).Ok? && PayoutBatch(amount, false, currency, org).Ok?
    ensures Effect(TransferBatch(amount, currency, org).value.entries, Only(TransferClearing))
            + Effect(PayoutBatch(amount, false, currency, org).value.entries, Only(TransferClearing)) == -2 * amount
  {
    hide TransferBatch, PayoutBatch, Effect;
    TransferEffects(amount, currency, org, Only(TransferClearing));
    PayoutEffects(amount, currency, org, Only(TransferClearing));
  }

  // --- Corrections ---

  /** A batch as `composeBatch` returns it from entries that `entry` made. */
  predicate IsPosted(b: Batch) {
    AreEntries(b.entries) && Composed(b.kind, b.currency, b.entries) == Ok(b)
  }

  function Mirrored(entries: seq<Entry>): (r: seq<Entry>)
    ensures |r| == |entries|
  {
    seq(|entries|, i requires 0 <= i < |entries| => entries[i].(side := entries[i].side.Other()))
  }

  lemma MirroredNext(entries: seq<Entry>)
    requires entries != []
    ensures Mirrored(entries)[..|entries| - 1] == Mirrored(entries[..|entries| - 1])
  {
  }

  lemma {:induction false} MirroredTotal(entries: seq<Entry>, side: Side)
    ensures Total(Mirrored(entries), side) == Total(entries, side.Other())
  {
    if entries != [] {
      MirroredNext(entries);
      MirroredTotal(entries[..|entries| - 1], side);
    }
  }

  lemma MirroredWeight(e: Entry, slice: Slice)
    ensures Over(slice)(e.(side := e.side.Other())) == -Over(slice)(e)
  {
    var m := e.(side := e.side.Other());
    assert m.account == e.account && m.org == e.org;
    assert Signed(m) == -Signed(e);
  }

  lemma {:induction false} MirroredEffect(entries: seq<Entry>, slice: Slice)
    ensures Effect(Mirrored(entries), slice) == -Effect(entries, slice)
  {
    if entries != [] {
      MirroredNext(entries);
      MirroredEffect(entries[..|entries| - 1], slice);
      var last := entries[|entries| - 1];
      assert Mirrored(entries)[|entries| - 1] == last.(side := last.side.Other());
      MirroredWeight(last, slice);
    }
  }

  /** Every posted batch can be corrected, and the correction is its mirror. */
  lemma CorrectionIsMirror(b: Batch)
    requires IsPosted(b)
    ensures CorrectionBatch(b) == Ok(Batch(Correction, b.currency, b.credits, b.debits, Mirrored(b.entries)))
    ensures IsPosted(CorrectionBatch(b).value)
  {
    hide Total, Round;
    var flipped := Flipped(b.entries);
    forall i | 0 <= i < |b.entries| ensures flipped[i] == Ok(Mirrored(b.entries)[i]) && IsAmount(b.entries[i].amount) {
      assert b.entries[i] in b.entries;
    }
    MirrorCollected(flipped, Mirrored(b.entries));
    MirroredTotal(b.entries, Debit);
    MirroredTotal(b.entries, Credit);
  }

  lemma {:induction false} MirrorCollected(made: seq<Made>, entries: seq<Entry>)
    requires |made| == |entries| && forall i :: 0 <= i < |made| ==> made[i] == Ok(entries[i])
    ensures Collect(made) == Ok(entries)
  {
    if made != [] {
      MirrorCollected(made[1..], entries[1..]);
      assert entries == [entries[0]] + entries[1..];
    }
  }

  /** A batch and its correction together change no account; correcting the correction restores the batch's effect. */
  lemma CorrectionUndoes(b: Batch, slice: Slice)
    requires IsPosted(b)
    ensures CorrectionBatch(b).Ok?
    ensures Effect(b.entries, slice) + Effect(CorrectionBatch(b).value.entries, slice) == 0
    ensures CorrectionBatch(CorrectionBatch(b).value).Ok?
    ensures Effect(CorrectionBatch(CorrectionBatch(b).value).value.entries, slice) == Effect(b.entries, slice)
  {
    CorrectionIsMirror(b);
    var c := CorrectionBatch(b).value;
    CorrectionIsMirror(c);
    MirroredEffect(b.entries, slice);
    MirroredEffect(c.entries, slice);
  }
}
