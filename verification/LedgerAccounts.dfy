/** Every account's balance, told from what was posted. */
module LedgerAccounts {
  import opened Prelude
  import opened Batches
  import opened BatchProperties
  import opened LedgerHistory

  /** In which currency, and for which organisation, a posting other than a correction is made. */
  function CurrencyOf(l: Ledger, p: Posting): string
    requires Names(l, p) && !p.Correct?
  {
    match p
    case SettleRefund(i) => l.refunds[i].currency
    case ResolveDispute(i, _) => l.disputes[i].currency
    case PayOrder(_, _, _, _, _, currency, _) => currency
    case DecideRefund(_, _, _, _, currency, _) => currency
    case OpenDispute(_, _, currency, _) => currency
    case SendTransfer(_, currency, _) => currency
    case ReverseTransfer(_, currency, _) => currency
    case PayOut(_, _, currency, _) => currency
  }

  function OrgOf(l: Ledger, p: Posting): Option<string>
    requires Names(l, p) && !p.Correct?
  {
    match p
    case SettleRefund(i) => l.refunds[i].org
    case ResolveDispute(i, _) => l.disputes[i].org
    case PayOrder(_, _, _, _, _, _, org) => org
    case DecideRefund(_, _, _, _, _, org) => org
    case OpenDispute(_, _, _, org) => org
    case SendTransfer(_, _, org) => org
    case ReverseTransfer(_, _, org) => org
    case PayOut(_, _, _, org) => org
  }

  /** What a posting debits to an account, less what it credits. */
  function Debits(l: Ledger, p: Posting, account: Account): int
    requires Names(l, p) && !p.Correct?
  {
    match p
    case PayOrder(captured, net, fee, tax, discount, _, _) =>
      (match account
       case ProcessorClearing => captured
       case PromotionalDiscount => Positive(discount)
       case OrganizerPayable => -net
       case PlatformFeeRevenue => -Positive(fee)
       case TaxPayable => -Positive(tax)
       case _ => 0)
    case DecideRefund(refunded, share, fee, tax, _, _) =>
      (match account
       case OrganizerPayable => share
       case PlatformFeeRevenue => Positive(fee)
       case TaxPayable => Positive(tax)
       case RefundClearing => -refunded
       case _ => 0)
    case SettleRefund(i) => FromTo(account, RefundClearing, ProcessorClearing, l.refunds[i].amount)
    case OpenDispute(disputed, heldFrom, _, _) => FromTo(account, heldFrom, DisputeClearing, disputed)
    case ResolveDispute(i, won) =>
      FromTo(account, DisputeClearing, if won then l.disputes[i].heldFrom else ProcessorClearing, l.disputes[i].amount)
    case SendTransfer(amount, _, _) => FromTo(account, OrganizerPayable, TransferClearing, amount)
    case ReverseTransfer(amount, _, _) => FromTo(account, TransferClearing, OrganizerPayable, amount)
    case PayOut(amount, failed, _, _) =>
      if failed then FromTo(account, TransferClearing, PayoutClearing, amount)
      else FromTo(account, PayoutClearing, TransferClearing, amount)
  }

  function FromTo(account: Account, from: Account, to: Account, amount: int): int {
    (if account == from then amount else 0) - if account == to then amount else 0
  }

  /** What the posting at `k` does to the account, a correction undoing what the posting it names did. */
  function Change(
      ledgers: seq<Ledger>, postings: seq<Posting>, k: nat, account: Account, currency: string, whose: Whose): int
    requires k < |postings| <= |ledgers| && forall i :: 0 <= i < |postings| ==> Names(ledgers[i], postings[i])
  {
    var (l, p) := (ledgers[k], postings[k]);
    if p.Correct? then
      if p.index < k then -Change(ledgers, postings, p.index, account, currency, whose) else 0
    else if CurrencyOf(l, p) == currency && whose(OrgOf(l, p)) then Debits(l, p, account)
    else 0
  }

  function Changes(
      ledgers: seq<Ledger>, postings: seq<Posting>, n: nat, account: Account, currency: string, whose: Whose): int
    requires n <= |postings| <= |ledgers| && forall i :: 0 <= i < |postings| ==> Names(ledgers[i], postings[i])
  {
    if n == 0 then 0
    else
      Changes(ledgers, postings, n - 1, account, currency, whose)
      + Change(ledgers, postings, n - 1, account, currency, whose)
  }

  // --- One posting ---

  lemma OrderDebits(l: Ledger, p: Posting, account: Account, whose: Whose)
    requires May(l, p) && p.PayOrder?
    ensures Effect(BatchOf(l, p).value.entries, AccountOf(account, whose))
            == if whose(p.org) then Debits(l, p, account) else 0
  {
    hide Effect, Built, OrderPaidEntries, RefundEntries;
    OrderPaidExact(p.captured, p.organizerNet, p.fee, p.tax, p.discount, p.currency, p.org);
    OrderSlice(p, AccountOf(account, whose));
  }

  lemma RefundDebits(l: Ledger, p: Posting, account: Account, whose: Whose)
    requires May(l, p) && p.DecideRefund?
    ensures Effect(BatchOf(l, p).value.entries, AccountOf(account, whose))
            == if whose(p.org) then Debits(l, p, account) else 0
  {
    hide Effect, Built, OrderPaidEntries, RefundEntries;
    RefundExact(p.refunded, p.organizerShare, p.fee, p.tax, p.currency, p.org);
    RefundSlice(p, AccountOf(account, whose));
  }

  lemma DueDebits(l: Ledger, p: Posting, account: Account, whose: Whose)
    requires May(l, p) && (p.SettleRefund? || p.OpenDispute? || p.ResolveDispute?)
    ensures Effect(BatchOf(l, p).value.entries, AccountOf(account, whose))
            == if whose(OrgOf(l, p)) then Debits(l, p, account) else 0
  {
    hide Effect, RefundSettledBatch, DisputeOpenedBatch, DisputeResolvedBatch;
    var slice := AccountOf(account, whose);
    match p
    case SettleRefund(i) => RefundSettledEffect(l.refunds[i].amount, l.refunds[i].currency, l.refunds[i].org, slice);
    case OpenDispute(disputed, heldFrom, c, org) => DisputeEffects(disputed, heldFrom, c, org, slice);
    case ResolveDispute(i, _) =>
      DisputeEffects(l.disputes[i].amount, l.disputes[i].heldFrom, l.disputes[i].currency, l.disputes[i].org, slice);
  }

  /** A posting's batch does to every account what the posting says. */
  lemma PostingDebits(l: Ledger, p: Posting, account: Account, whose: Whose)
    requires May(l, p) && !p.Correct?
    ensures Effect(BatchOf(l, p).value.entries, AccountOf(account, whose))
            == if whose(OrgOf(l, p)) then Debits(l, p, account) else 0
  {
    hide Effect, TransferBatch, TransferReversalBatch, PayoutBatch;
    var slice := AccountOf(account, whose);
    match p
    case PayOrder(_, _, _, _, _, _, _) => OrderDebits(l, p, account, whose);
    case DecideRefund(_, _, _, _, _, _) => RefundDebits(l, p, account, whose);
    case SendTransfer(amount, c, org) => TransferEffects(amount, c, org, slice);
    case ReverseTransfer(amount, c, org) => TransferEffects(amount, c, org, slice);
    case PayOut(amount, _, c, org) => PayoutEffects(amount, c, org, slice);
    case _ => DueDebits(l, p, account, whose);
  }

  lemma BatchCurrency(l: Ledger, p: Posting)
    requires May(l, p) && !p.Correct?
    ensures BatchOf(l, p).value.currency == CurrencyOf(l, p)
  {
    hide Total, Collect, OrderPaidEntries, RefundEntries;
  }

  // --- Histories ---

  /** The batch at a place is the one posted there. */
  lemma {:induction false} BatchAt(ledgers: seq<Ledger>, postings: seq<Posting>, n: nat, k: nat)
    requires IsHistory(ledgers, postings) && k < n <= |postings|
    ensures |ledgers[n].batches| == n && ledgers[n].batches[k] == BatchOf(ledgers[k], postings[k]).value
    decreases n
  {
    hide BatchOf;
    BatchCount(ledgers, postings, n - 1);
    assert ledgers[n] == After(ledgers[n - 1], postings[n - 1]);
    if k < n - 1 { BatchAt(ledgers, postings, n - 1, k); }
  }

  lemma {:induction false} BatchCount(ledgers: seq<Ledger>, postings: seq<Posting>, n: nat)
    requires IsHistory(ledgers, postings) && n <= |postings|
    ensures |ledgers[n].batches| == n
  {
    hide BatchOf;
    if n > 0 {
      BatchCount(ledgers, postings, n - 1);
      assert ledgers[n] == After(ledgers[n - 1], postings[n - 1]);
    }
  }

  /** The step's batch changes the account by the step's own change. */
  lemma {:induction false} StepChanges(
      ledgers: seq<Ledger>, postings: seq<Posting>, k: nat, account: Account, currency: string, whose: Whose)
    requires IsHistory(ledgers, postings) && k < |postings|
    ensures Share(BatchOf(ledgers[k], postings[k]).value, currency, AccountOf(account, whose))
            == Change(ledgers, postings, k, account, currency, whose)
  {
    hide Effect, BatchOf, CorrectionBatch, Debits, IsPosted, After;
    var (l, p) := (ledgers[k], postings[k]);
    if p.Correct? {
      BatchCount(ledgers, postings, k);
      BatchAt(ledgers, postings, k, p.index);
      StepChanges(ledgers, postings, p.index, account, currency, whose);
      HistorySound(ledgers, postings, k);
      SoundAt(l.batches, p.index);
      CorrectionIsSound(l.batches[p.index], whose);
      CorrectedBatch(l, p);
    } else {
      BatchCurrency(l, p);
      PostingDebits(l, p, account, whose);
    }
  }

  lemma CorrectedBatch(l: Ledger, p: Posting)
    requires p.Correct? && Names(l, p)
    ensures BatchOf(l, p) == CorrectionBatch(l.batches[p.index])
  {
  }

  lemma NoneUnsound()
    ensures AllSound([])
  {
  }

  lemma {:induction false} HistorySound(ledgers: seq<Ledger>, postings: seq<Posting>, n: nat)
    requires IsHistory(ledgers, postings) && n <= |postings|
    ensures AllSound(ledgers[n].batches)
  {
    hide AllSound, BatchOf, After, May;
    if n == 0 {
      NoneUnsound();
    } else {
      HistorySound(ledgers, postings, n - 1);
      assert May(ledgers[n - 1], postings[n - 1]) && ledgers[n] == After(ledgers[n - 1], postings[n - 1]);
      hide IsHistory;
      PostingKeepsSound(ledgers[n - 1], postings[n - 1]);
    }
  }

  /**
   * After any history the balance of every account, per currency and for any set of organisations, is the sum of
   * what each posting says of it, a correction taking back what the posting it names did.
   */
  lemma {:induction false} BalancesArePostings(
      ledgers: seq<Ledger>, postings: seq<Posting>, n: nat, account: Account, currency: string, whose: Whose)
    requires IsHistory(ledgers, postings) && n <= |postings|
    ensures Balance(ledgers[n].batches, currency, AccountOf(account, whose))
            == Changes(ledgers, postings, n, account, currency, whose)
  {
    hide BatchOf, Share, Change;
    if n > 0 {
      BalancesArePostings(ledgers, postings, n - 1, account, currency, whose);
      StepChanges(ledgers, postings, n - 1, account, currency, whose);
      BalanceMore(ledgers[n - 1].batches, BatchOf(ledgers[n - 1], postings[n - 1]).value, currency,
                  AccountOf(account, whose));
    }
  }
}
