/** The ledger over whole histories of built batches. */
module LedgerHistory {
  import opened Prelude
  import opened Batches
  import opened BatchProperties

  type Whose = Option<string> -> bool

  /** Every account, and one account, of some of the organisations. */
  function Of(whose: Whose): Slice { (account: Account, org: Option<string>) => whose(org) }

  function AccountOf(account: Account, whose: Whose): Slice {
    (a: Account, org: Option<string>) => a == account && whose(org)
  }

  /** A refund decided and not settled; a dispute opened and not resolved. */
  datatype Due = Due(amount: int, heldFrom: Account, currency: string, org: Option<string>)

  datatype Posting =
    | PayOrder(
        captured: int, organizerNet: int, fee: int, tax: int, discount: int, currency: string, org: Option<string>)
    | DecideRefund(refunded: int, organizerShare: int, fee: int, tax: int, currency: string, org: Option<string>)
    | SettleRefund(index: nat)
    | OpenDispute(disputed: int, heldFrom: Account, currency: string, org: Option<string>)
    | ResolveDispute(index: nat, won: bool)
    | SendTransfer(amount: int, currency: string, org: Option<string>)
    | ReverseTransfer(amount: int, currency: string, org: Option<string>)
    | PayOut(amount: int, failed: bool, currency: string, org: Option<string>)
    | Correct(index: nat)

  datatype Ledger = Ledger(batches: seq<Batch>, refunds: seq<Due>, disputes: seq<Due>)

  /** A settlement names a refund still owed, a resolution a dispute still open, a correction a posted batch. */
  predicate Names(l: Ledger, p: Posting) {
    match p
    case SettleRefund(i) => i < |l.refunds|
    case ResolveDispute(i, _) => i < |l.disputes|
    case Correct(i) => i < |l.batches|
    case _ => true
  }

  function BatchOf(l: Ledger, p: Posting): Result<Batch, LedgerError>
    requires Names(l, p)
  {
    match p
    case PayOrder(captured, net, fee, tax, discount, currency, org) =>
      Built(OrderPaid, currency, OrderPaidEntries(captured, net, fee, tax, discount, org))
    case DecideRefund(refunded, share, fee, tax, currency, org) =>
      Built(Refund, currency, RefundEntries(refunded, share, fee, tax, org))
    case SettleRefund(i) => var r := l.refunds[i]; RefundSettledBatch(r.amount, r.currency, r.org)
    case OpenDispute(disputed, heldFrom, currency, org) => DisputeOpenedBatch(disputed, heldFrom, currency, org)
    case ResolveDispute(i, won) =>
      var d := l.disputes[i];
      DisputeResolvedBatch(d.amount, won, d.heldFrom, d.currency, d.org)
    case SendTransfer(amount, currency, org) => TransferBatch(amount, currency, org)
    case ReverseTransfer(amount, currency, org) => TransferReversalBatch(amount, currency, org)
    case PayOut(amount, failed, currency, org) => PayoutBatch(amount, failed, currency, org)
    case Correct(i) => CorrectionBatch(l.batches[i])
  }

  /** The totals of the posting stay within exact integers. */
  predicate StaysExact(p: Posting) {
    match p
    case PayOrder(captured, net, fee, tax, discount, _, _) =>
      captured + Positive(discount) <= EXACT && net + Positive(fee) + Positive(tax) <= EXACT
    case DecideRefund(refunded, share, fee, tax, _, _) =>
      refunded <= EXACT && share + Positive(fee) + Positive(tax) <= EXACT
    case _ => true
  }

  predicate May(l: Ledger, p: Posting) { Names(l, p) && StaysExact(p) && BatchOf(l, p).Ok? }

  function Removed(dues: seq<Due>, i: nat): seq<Due>
    requires i < |dues|
  {
    dues[..i] + dues[i + 1..]
  }

  function After(l: Ledger, p: Posting): Ledger
    requires May(l, p)
  {
    Ledger(l.batches + [BatchOf(l, p).value],
           match p
           case DecideRefund(refunded, _, _, _, currency, org) =>
             l.refunds + [Due(refunded, RefundClearing, currency, org)]
           case SettleRefund(i) => Removed(l.refunds, i)
           case _ => l.refunds,
           match p
           case OpenDispute(disputed, heldFrom, currency, org) => l.disputes + [Due(disputed, heldFrom, currency, org)]
           case ResolveDispute(i, _) => Removed(l.disputes, i)
           case _ => l.disputes)
  }

  // --- Balances ---

  /** Debits less credits over a slice, in one currency. */
  function Balance(batches: seq<Batch>, currency: string, slice: Slice): int {
    if batches == [] then 0
    else
      var last := batches[|batches| - 1];
      Balance(batches[..|batches| - 1], currency, slice) + Share(last, currency, slice)
  }

  function Share(b: Batch, currency: string, slice: Slice): int {
    if b.currency == currency then Effect(b.entries, slice) else 0
  }

  function Worth(d: Due, currency: string, whose: Whose): int {
    if d.currency == currency && whose(d.org) then d.amount else 0
  }

  function Owed(dues: seq<Due>, currency: string, whose: Whose): int {
    if dues == [] then 0 else Worth(dues[0], currency, whose) + Owed(dues[1..], currency, whose)
  }

  lemma BalanceMore(batches: seq<Batch>, b: Batch, currency: string, slice: Slice)
    ensures Balance(batches + [b], currency, slice) == Balance(batches, currency, slice) + Share(b, currency, slice)
  {
    assert (batches + [b])[..|batches|] == batches;
  }

  lemma {:induction false} OwedJoins(a: seq<Due>, b: seq<Due>, currency: string, whose: Whose)
    ensures Owed(a + b, currency, whose) == Owed(a, currency, whose) + Owed(b, currency, whose)
  {
    if a == [] {
      assert a + b == b;
    } else {
      assert (a + b)[1..] == a[1..] + b;
      OwedJoins(a[1..], b, currency, whose);
    }
  }

  lemma OwedMore(dues: seq<Due>, d: Due, currency: string, whose: Whose)
    ensures Owed(dues + [d], currency, whose) == Owed(dues, currency, whose) + Worth(d, currency, whose)
  {
    OwedJoins(dues, [d], currency, whose);
    assert [d][1..] == [];
  }

  lemma OwedLess(dues: seq<Due>, i: nat, currency: string, whose: Whose)
    requires i < |dues|
    ensures Owed(Removed(dues, i), currency, whose) == Owed(dues, currency, whose) - Worth(dues[i], currency, whose)
  {
    assert dues == dues[..i] + dues[i..];
    OwedJoins(dues[..i], dues[i..], currency, whose);
    OwedJoins(dues[..i], dues[i + 1..], currency, whose);
    assert dues[i..][1..] == dues[i + 1..];
  }

  // --- What each posting changes ---

  /** What a posting adds to what is owed to buyers, or held for disputes. */
  function RefundChange(l: Ledger, p: Posting, currency: string, whose: Whose): int
    requires Names(l, p)
  {
    match p
    case DecideRefund(refunded, _, _, _, c, org) => Worth(Due(refunded, RefundClearing, c, org), currency, whose)
    case SettleRefund(i) => -Worth(l.refunds[i], currency, whose)
    case _ => 0
  }

  function DisputeChange(l: Ledger, p: Posting, currency: string, whose: Whose): int
    requires Names(l, p)
  {
    match p
    case OpenDispute(disputed, heldFrom, c, org) => Worth(Due(disputed, heldFrom, c, org), currency, whose)
    case ResolveDispute(i, _) => -Worth(l.disputes[i], currency, whose)
    case _ => 0
  }

  /** A batch moves nothing into or out of the whole, for any set of organisations. */
  ghost predicate IsSound(b: Batch) { IsPosted(b) && forall whose :: Effect(b.entries, Of(whose)) == 0 }

  lemma BuiltIsPosted(kind: Kind, currency: string, made: seq<Made>)
    requires Built(kind, currency, made).Ok? && forall e :: e in made ==> IsMade(e)
    ensures IsPosted(Built(kind, currency, made).value)
  {
    CollectedAreEntries(made);
  }

  lemma OverZero(slice: Slice)
    ensures forall a, side, o :: Over(slice)(Entry(a, side, 0, o)) == 0
  {
    forall a, side, o ensures Over(slice)(Entry(a, side, 0, o)) == 0 {
      assert Signed(Entry(a, side, 0, o)) == 0;
    }
  }

  lemma MovedIsSound(
      kind: Kind, from: Account, to: Account, amount: int, currency: string, org: Option<string>, whose: Whose)
    requires Moved(kind, from, to, amount, currency, org).Ok?
    ensures var b := Moved(kind, from, to, amount, currency, org).value;
            && IsPosted(b) && b.currency == currency && Effect(b.entries, Of(whose)) == 0
            && forall account :: Effect(b.entries, AccountOf(account, whose))
                 == (if from == account && whose(org) then amount else 0)
                  - if to == account && whose(org) then amount else 0
  {
    hide Effect, Composed, Collect;
    MovedExact(kind, from, to, amount, currency, org);
    MadeOne(from, Debit, amount, org);
    MadeOne(to, Credit, amount, org);
    BuiltIsPosted(kind, currency, [MakeEntry(from, Debit, amount, org), MakeEntry(to, Credit, amount, org)]);
    MovedEffect(kind, from, to, amount, currency, org, Of(whose));
    forall account ensures Effect(Moved(kind, from, to, amount, currency, org).value.entries, AccountOf(account, whose))
        == (if from == account && whose(org) then amount else 0) - if to == account && whose(org) then amount else 0
    {
      MovedEffect(kind, from, to, amount, currency, org, AccountOf(account, whose));
    }
  }

  lemma OrderIsSound(p: Posting, whose: Whose)
    requires p.PayOrder? && StaysExact(p)
    requires Built(OrderPaid, p.currency,
            OrderPaidEntries(p.captured, p.organizerNet, p.fee, p.tax, p.discount, p.org)).Ok?
    ensures var b := Built(OrderPaid, p.currency,
                           OrderPaidEntries(p.captured, p.organizerNet, p.fee, p.tax, p.discount, p.org)).value;
            && IsPosted(b) && b.currency == p.currency
            && Effect(b.entries, Of(whose)) == 0
            && Effect(b.entries, AccountOf(RefundClearing, whose)) == 0
            && Effect(b.entries, AccountOf(DisputeClearing, whose)) == 0
  {
    hide Sum, Composed, Collect, OrderPaidEntries, Weigh;
    var made := OrderPaidEntries(p.captured, p.organizerNet, p.fee, p.tax, p.discount, p.org);
    OrderPaidExact(p.captured, p.organizerNet, p.fee, p.tax, p.discount, p.currency, p.org);
    OrderPaidMade(p.captured, p.organizerNet, p.fee, p.tax, p.discount, p.org);
    BuiltIsPosted(OrderPaid, p.currency, made);
    OrderSlice(p, Of(whose));
    OrderSlice(p, AccountOf(RefundClearing, whose));
    OrderSlice(p, AccountOf(DisputeClearing, whose));
  }

  lemma OrderSlice(p: Posting, slice: Slice)
    requires p.PayOrder? && OrderAmounts(p.captured, p.organizerNet, p.fee, p.tax, p.discount)
    requires Built(OrderPaid, p.currency,
            OrderPaidEntries(p.captured, p.organizerNet, p.fee, p.tax, p.discount, p.org)).Ok?
    ensures var b := Built(OrderPaid, p.currency,
                           OrderPaidEntries(p.captured, p.organizerNet, p.fee, p.tax, p.discount, p.org)).value;
            && b.currency == p.currency
            && Effect(b.entries, slice)
               == (if slice(ProcessorClearing, p.org) then p.captured else 0)
                + (if slice(PromotionalDiscount, p.org) then Positive(p.discount) else 0)
                - (if slice(OrganizerPayable, p.org) then p.organizerNet else 0)
                - (if slice(PlatformFeeRevenue, p.org) then Positive(p.fee) else 0)
                - if slice(TaxPayable, p.org) then Positive(p.tax) else 0
  {
    hide Sum, Composed, Collect, OrderPaidEntries, Weigh;
    var made := OrderPaidEntries(p.captured, p.organizerNet, p.fee, p.tax, p.discount, p.org);
    OverZero(slice);
    OrderPaidLines(p.captured, p.organizerNet, p.fee, p.tax, p.discount, p.org, Over(slice));
    BuiltEffect(OrderPaid, p.currency, made, slice);
  }

  lemma RefundIsSound(p: Posting, whose: Whose)
    requires p.DecideRefund? && StaysExact(p)
    requires Built(Refund, p.currency, RefundEntries(p.refunded, p.organizerShare, p.fee, p.tax, p.org)).Ok?
    ensures var b := Built(Refund, p.currency, RefundEntries(p.refunded, p.organizerShare, p.fee, p.tax, p.org)).value;
            && IsPosted(b) && b.currency == p.currency
            && Effect(b.entries, Of(whose)) == 0
            && Effect(b.entries, AccountOf(RefundClearing, whose)) == -(if whose(p.org) then p.refunded else 0)
            && Effect(b.entries, AccountOf(DisputeClearing, whose)) == 0
  {
    hide Sum, Composed, Collect, RefundEntries, Weigh;
    var made := RefundEntries(p.refunded, p.organizerShare, p.fee, p.tax, p.org);
    RefundExact(p.refunded, p.organizerShare, p.fee, p.tax, p.currency, p.org);
    RefundMade(p.refunded, p.organizerShare, p.fee, p.tax, p.org);
    BuiltIsPosted(Refund, p.currency, made);
    RefundSlice(p, Of(whose));
    RefundSlice(p, AccountOf(RefundClearing, whose));
    RefundSlice(p, AccountOf(DisputeClearing, whose));
  }

  lemma RefundSlice(p: Posting, slice: Slice)
    requires p.DecideRefund? && RefundAmounts(p.refunded, p.organizerShare, p.fee, p.tax)
    requires Built(Refund, p.currency, RefundEntries(p.refunded, p.organizerShare, p.fee, p.tax, p.org)).Ok?
    ensures var b := Built(Refund, p.currency, RefundEntries(p.refunded, p.organizerShare, p.fee, p.tax, p.org)).value;
            && b.currency == p.currency
            && Effect(b.entries, slice)
               == (if slice(OrganizerPayable, p.org) then p.organizerShare else 0)
                + (if slice(PlatformFeeRevenue, p.org) then Positive(p.fee) else 0)
                + (if slice(TaxPayable, p.org) then Positive(p.tax) else 0)
                - if slice(RefundClearing, p.org) then p.refunded else 0
  {
    hide Sum, Composed, Collect, RefundEntries, Weigh;
    OverZero(slice);
    RefundLines(p.refunded, p.organizerShare, p.fee, p.tax, p.org, Over(slice));
    BuiltEffect(Refund, p.currency, RefundEntries(p.refunded, p.organizerShare, p.fee, p.tax, p.org), slice);
  }

  /** Every sound batch can be corrected, and its correction is sound and undoes it. */
  lemma CorrectionIsSound(b: Batch, whose: Whose)
    requires IsSound(b)
    ensures CorrectionBatch(b).Ok? && CorrectionBatch(b).value.currency == b.currency
            && IsPosted(CorrectionBatch(b).value)
    ensures var c := CorrectionBatch(b).value;
            && Effect(c.entries, Of(whose)) == 0
            && forall account :: Effect(c.entries, AccountOf(account, whose))
                == -Effect(b.entries, AccountOf(account, whose))
  {
    hide Effect, IsPosted;
    CorrectionIsMirror(b);
    CorrectionUndoes(b, Of(whose));
    forall account
      ensures Effect(CorrectionBatch(b).value.entries, AccountOf(account, whose))
              == -Effect(b.entries, AccountOf(account, whose))
    {
      CorrectionUndoes(b, AccountOf(account, whose));
    }
  }

  /** What a posting takes back from an account by correcting a batch. */
  function TakenBack(l: Ledger, p: Posting, account: Account, currency: string, whose: Whose): int
    requires Names(l, p)
  {
    match p
    case Correct(i) => Share(l.batches[i], currency, AccountOf(account, whose))
    case _ => 0
  }

  ghost predicate AllSound(batches: seq<Batch>) { forall b :: b in batches ==> IsSound(b) }

  /** What one posting does: nothing to the whole, and to the clearing accounts what it opens, closes or takes back. */
  lemma PostingEffect(l: Ledger, p: Posting, currency: string, whose: Whose)
    requires May(l, p) && AllSound(l.batches)
    ensures var b := BatchOf(l, p).value;
            && IsPosted(b) && Effect(b.entries, Of(whose)) == 0
            && Share(b, currency, AccountOf(RefundClearing, whose))
               == -RefundChange(l, p, currency, whose) - TakenBack(l, p, RefundClearing, currency, whose)
            && Share(b, currency, AccountOf(DisputeClearing, whose))
               == -DisputeChange(l, p, currency, whose) - TakenBack(l, p, DisputeClearing, currency, whose)
  {
    hide Effect, IsPosted, Built, CorrectionBatch, OrderPaidEntries, RefundEntries, Moved, Of, AccountOf, AllSound;
    match p
    case PayOrder(_, _, _, _, _, _, _) => OrderIsSound(p, whose);
    case DecideRefund(_, _, _, _, _, _) => RefundIsSound(p, whose);
    case SettleRefund(i) =>
      var r := l.refunds[i];
      MovedIsSound(Refund, RefundClearing, ProcessorClearing, r.amount, r.currency, r.org, whose);
    case OpenDispute(disputed, heldFrom, c, org) =>
      MovedIsSound(DisputeOpened, heldFrom, DisputeClearing, disputed, c, org, whose);
    case ResolveDispute(i, won) =>
      var d := l.disputes[i];
      MovedIsSound(DisputeResolved, DisputeClearing, if won then d.heldFrom else ProcessorClearing, d.amount,
          d.currency, d.org, whose);
    case SendTransfer(amount, c, org) =>
      MovedIsSound(Transfer, OrganizerPayable, TransferClearing, amount, c, org, whose);
    case ReverseTransfer(amount, c, org) =>
      MovedIsSound(TransferReversal, TransferClearing, OrganizerPayable, amount, c, org, whose);
    case PayOut(amount, failed, c, org) =>
      var (from, to) := if failed then (TransferClearing, PayoutClearing) else (PayoutClearing, TransferClearing);
      MovedIsSound(Payout, from, to, amount, c, org, whose);
    case Correct(i) =>
      SoundAt(l.batches, i);
      CorrectionIsSound(l.batches[i], whose);
  }

  lemma SoundAt(batches: seq<Batch>, i: nat)
    requires AllSound(batches) && i < |batches|
    ensures IsSound(batches[i])
  {
  }

  // --- Histories ---

  ghost predicate IsHistory(ledgers: seq<Ledger>, postings: seq<Posting>) {
    && |ledgers| == |postings| + 1 && ledgers[0] == Ledger([], [], [])
    && forall i :: 0 <= i < |postings|
        ==> May(ledgers[i], postings[i]) && ledgers[i + 1] == After(ledgers[i], postings[i])
  }

  /** All that corrections have taken back from an account. */
  function AllTakenBack(ledgers: seq<Ledger>, postings: seq<Posting>, account: Account, currency: string,
      whose: Whose): int
    requires |ledgers| > |postings| && forall i :: 0 <= i < |postings| ==> Names(ledgers[i], postings[i])
  {
    if postings == [] then 0
    else
      var n := |postings| - 1;
      AllTakenBack(ledgers[..n + 1], postings[..n], account, currency, whose)
      + TakenBack(ledgers[n], postings[n], account, currency, whose)
  }

  /** The accounts sum to zero, and each clearing account holds what is due, but for what was taken back. */
  ghost predicate Reconciled(l: Ledger, refundsBack: int, disputesBack: int, currency: string, whose: Whose) {
    && Balance(l.batches, currency, Of(whose)) == 0
    && -Balance(l.batches, currency, AccountOf(RefundClearing, whose)) == Owed(l.refunds, currency, whose) + refundsBack
    && -Balance(l.batches, currency, AccountOf(DisputeClearing, whose))
        == Owed(l.disputes, currency, whose) + disputesBack
  }

  lemma PostingKeeps(l: Ledger, p: Posting, refundsBack: int, disputesBack: int, currency: string, whose: Whose)
    requires May(l, p) && AllSound(l.batches) && Reconciled(l, refundsBack, disputesBack, currency, whose)
    ensures Reconciled(After(l, p), refundsBack + TakenBack(l, p, RefundClearing, currency, whose),
                       disputesBack + TakenBack(l, p, DisputeClearing, currency, whose), currency, whose)
  {
    hide Effect, BatchOf, AllSound, Worth, Of, AccountOf;
    var b := BatchOf(l, p).value;
    PostingEffect(l, p, currency, whose);
    BalanceMore(l.batches, b, currency, Of(whose));
    BalanceMore(l.batches, b, currency, AccountOf(RefundClearing, whose));
    BalanceMore(l.batches, b, currency, AccountOf(DisputeClearing, whose));
    DuesKept(l, p, currency, whose);
  }

  lemma DuesKept(l: Ledger, p: Posting, currency: string, whose: Whose)
    requires May(l, p)
    ensures Owed(After(l, p).refunds, currency, whose)
            == Owed(l.refunds, currency, whose) + RefundChange(l, p, currency, whose)
    ensures Owed(After(l, p).disputes, currency, whose)
            == Owed(l.disputes, currency, whose) + DisputeChange(l, p, currency, whose)
  {
    hide BatchOf, Worth, Owed, Removed;
    match p
    case DecideRefund(refunded, _, _, _, c, org) =>
      OwedMore(l.refunds, Due(refunded, RefundClearing, c, org), currency, whose);
    case SettleRefund(i) => OwedLess(l.refunds, i, currency, whose);
    case OpenDispute(disputed, heldFrom, c, org) =>
      OwedMore(l.disputes, Due(disputed, heldFrom, c, org), currency, whose);
    case ResolveDispute(i, _) => OwedLess(l.disputes, i, currency, whose);
    case _ =>
  }

  lemma PostingKeepsSound(l: Ledger, p: Posting)
    requires May(l, p) && AllSound(l.batches)
    ensures AllSound(After(l, p).batches)
  {
    hide Effect, BatchOf, IsPosted, Of;
    var b := BatchOf(l, p).value;
    forall whose: Whose ensures Effect(b.entries, Of(whose)) == 0 { PostingEffect(l, p, "", whose); }
    PostingEffect(l, p, "", (org: Option<string>) => true);
    assert IsSound(b);
  }

  lemma {:induction false} LedgerReconciles(ledgers: seq<Ledger>, postings: seq<Posting>, currency: string,
      whose: Whose)
    requires IsHistory(ledgers, postings)
    ensures AllSound(ledgers[|postings|].batches)
    ensures Reconciled(ledgers[|postings|], AllTakenBack(ledgers, postings, RefundClearing, currency, whose),
                       AllTakenBack(ledgers, postings, DisputeClearing, currency, whose), currency, whose)
  {
    hide AllSound, Reconciled, BatchOf, After;
    var n := |postings|;
    if n == 0 {
      EmptyReconciled(currency, whose);
    } else {
      var back := ledgers[..n];
      LedgerReconciles(back, postings[..n - 1], currency, whose);
      assert back[n - 1] == ledgers[n - 1];
      PostingKeeps(ledgers[n - 1], postings[n - 1],
                   AllTakenBack(back, postings[..n - 1], RefundClearing, currency, whose),
                   AllTakenBack(back, postings[..n - 1], DisputeClearing, currency, whose), currency, whose);
      PostingKeepsSound(ledgers[n - 1], postings[n - 1]);
    }
  }

  lemma EmptyReconciled(currency: string, whose: Whose)
    ensures AllSound([]) && Reconciled(Ledger([], [], []), 0, 0, currency, whose)
  {
  }

  /** Whatever has been posted, corrections of anything included, the accounts sum to zero. */
  lemma AccountsSumToZero(ledgers: seq<Ledger>, postings: seq<Posting>, currency: string, whose: Whose)
    requires IsHistory(ledgers, postings)
    ensures Balance(ledgers[|postings|].batches, currency, Of(whose)) == 0
  {
    hide Balance;
    LedgerReconciles(ledgers, postings, currency, whose);
  }

  /**
   * Refund clearing is what is decided and not settled, and dispute clearing what is still disputed, exactly
   * when corrections have taken back nothing on balance from that account.
   */
  lemma ClearingIsDueIff(ledgers: seq<Ledger>, postings: seq<Posting>, currency: string, whose: Whose)
    requires IsHistory(ledgers, postings)
    ensures var l := ledgers[|postings|];
            && (-Balance(l.batches, currency, AccountOf(RefundClearing, whose)) == Owed(l.refunds, currency, whose)
                <==> AllTakenBack(ledgers, postings, RefundClearing, currency, whose) == 0)
            && (-Balance(l.batches, currency, AccountOf(DisputeClearing, whose)) == Owed(l.disputes, currency, whose)
                <==> AllTakenBack(ledgers, postings, DisputeClearing, currency, whose) == 0)
  {
    hide Balance, Owed, AllTakenBack;
    LedgerReconciles(ledgers, postings, currency, whose);
  }

  predicate Leaves(b: Batch, account: Account) { forall e :: e in b.entries ==> e.account != account }

  lemma {:induction false} UntouchedEffect(entries: seq<Entry>, account: Account, whose: Whose)
    requires forall e :: e in entries ==> e.account != account
    ensures Effect(entries, AccountOf(account, whose)) == 0
  {
    if entries != [] {
      var n := |entries| - 1;
      assert entries[n] in entries;
      UntouchedEffect(entries[..n], account, whose);
    }
  }

  /** In particular when only batches that never touched the account were corrected. */
  lemma {:induction false} NothingTakenBack(
      ledgers: seq<Ledger>, postings: seq<Posting>, account: Account, currency: string, whose: Whose)
    requires IsHistory(ledgers, postings)
    requires forall i :: 0 <= i < |postings| && postings[i].Correct? ==>
               Leaves(ledgers[i].batches[postings[i].index], account)
    ensures AllTakenBack(ledgers, postings, account, currency, whose) == 0
  {
    hide BatchOf, After, Effect;
    if postings != [] {
      var n := |postings| - 1;
      NothingTakenBack(ledgers[..n + 1], postings[..n], account, currency, whose);
      if postings[n].Correct? {
        UntouchedEffect(ledgers[n].batches[postings[n].index].entries, account, whose);
      }
    }
  }
}
