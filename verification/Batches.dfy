/** What each commerce event posts to the ledger, and that every batch balances. */
module Batches {
  import opened Prelude
  import opened Numerals

  datatype Account =
    | ProcessorClearing | OrganizerPayable | PlatformFeeRevenue | TaxPayable | RefundClearing
    | DisputeClearing | TransferClearing | PayoutClearing | PromotionalDiscount | PaymentFeeExpense

  datatype Side = Debit | Credit {
    function Other(): Side { if Debit? then Credit else Debit }
  }

  datatype Kind =
    | OrderPaid | Refund | DisputeOpened | DisputeResolved | Transfer
    | TransferReversal | Payout | PlatformFee | Correction

  datatype Entry = Entry(account: Account, side: Side, amount: int, org: Option<string>)

  datatype Batch = Batch(kind: Kind, currency: string, debits: int, credits: int, entries: seq<Entry>)

  datatype LedgerError =
    | AmountNotPositive
    | AmountTooLarge
    | BadCurrency
    | EmptyBatch
    | Unbalanced(debits: int, credits: int)
    | BadDisputeAccount

  /** An entry, or why it was refused. */
  type Made = Result<Entry, LedgerError>

  /** 2^53: integers up to here are exact. */
  const EXACT: nat := 0x20_0000_0000_0000
  const MAX_ENTRY: nat := EXACT - 1

  predicate IsAmount(n: int) { 0 < n <= MAX_ENTRY }

  // --- Sums of JavaScript numbers ---

  /** The distance between neighbouring doubles at `s`. */
  function Spacing(s: nat): (u: nat)
    ensures u >= 1
  {
    if s < EXACT then 1 else 2 * Spacing(s / 2)
  }

  /** `s` as a double: to nearest, ties to even. */
  function Rounded(s: nat): nat {
    var u := Spacing(s);
    var q, r := s / u, s % u;
    if 2 * r < u || (2 * r == u && q % 2 == 0) then q * u else (q + 1) * u
  }

  /** The sum of two JavaScript integers whose mathematical sum is `s`. */
  function Round(s: int): int { if s >= 0 then Rounded(s) else -(Rounded(-s) as int) }

  lemma RoundedExact(s: nat)
    requires s <= EXACT
    ensures Rounded(s) == s
  {
    if s == EXACT { assert Spacing(s / 2) == 1; }
  }

  /** The spacing at `s` is the power of two that leaves it a significand of 53 bits, and of no fewer. */
  lemma {:induction false} SpacingIs(s: nat) returns (j: nat)
    ensures Spacing(s) == Pow2(j)
    ensures s < EXACT * Spacing(s) && (j > 0 ==> EXACT / 2 * Spacing(s) <= s)
  {
    j := 0;
    if s >= EXACT {
      j := SpacingIs(s / 2);
      Doubled(s, Spacing(s / 2), j);
      j := j + 1;
    }
  }

  lemma Doubled(s: nat, u: nat, j: nat)
    requires s >= EXACT && s / 2 < EXACT * u && (j > 0 ==> EXACT / 2 * u <= s / 2) && (j == 0 ==> u == 1)
    ensures s < EXACT * (2 * u) && EXACT / 2 * (2 * u) <= s
  {
    assert EXACT * (2 * u) == 2 * (EXACT * u) && EXACT / 2 * (2 * u) == 2 * (EXACT / 2 * u);
  }

  function Gap(a: int, b: int): nat { if a < b then b - a else a - b }

  /** Rounding gives a number of at most 53 bits times a power of two, an even one of two that are as near. */
  lemma RoundedIsDouble(s: nat) returns (n: nat, j: nat)
    ensures n <= EXACT && Rounded(s) == n * Pow2(j) && Spacing(s) == Pow2(j)
    ensures 2 * Gap(Rounded(s), s) <= Pow2(j) && (2 * Gap(Rounded(s), s) == Pow2(j) ==> n % 2 == 0)
  {
    hide Spacing, Pow2;
    j := SpacingIs(s);
    var q, r, u := RoundedParts(s);
    hide Rounded;
    n := if 2 * r < u || (2 * r == u && q % 2 == 0) then q else q + 1;
    Fewer(q, r, u);
  }

  lemma RoundedParts(s: nat) returns (q: nat, r: nat, u: nat)
    ensures u == Spacing(s) && s == q * u + r && r < u
    ensures Rounded(s) == if 2 * r < u || (2 * r == u && q % 2 == 0) then q * u else q * u + u
    ensures (q + 1) * u == q * u + u
  {
    hide Spacing;
    u := Spacing(s);
    q, r := s / u, s % u;
  }

  lemma Fewer(q: nat, r: nat, u: nat)
    requires u > 0 && q * u + r < EXACT * u
    ensures q < EXACT
  {
    if q >= EXACT { AtMost(EXACT, q, u); }
  }

  /** No number of at most 53 bits times a power of two is nearer: this is how IEEE 754 rounds. */
  lemma NoneNearer(s: nat, n: nat, e: nat)
    requires n <= EXACT
    ensures Gap(Rounded(s), s) <= Gap(n * Pow2(e), s)
  {
    hide Rounded, Spacing;
    var m, j := RoundedIsDouble(s);
    if e >= j {
      PowSplit(j, e - j);
      hide Pow2;
      Reordered(n, Pow2(j), Pow2(e - j));
      MultipleFarther(s, Rounded(s), m, n * Pow2(e - j), Pow2(j));
    } else {
      var j' := SpacingIs(s);
      PowSplit(1 + e, j - e - 1);
      hide Pow2;
      MultipleFarther(s, Rounded(s), m, EXACT / 2, Pow2(j));
      Lower(n, Pow2(e), Pow2(j - e - 1), Pow2(j));
    }
  }

  lemma Reordered(n: nat, a: nat, b: nat)
    ensures n * (a * b) == n * b * a
  {
  }

  /** With less than the spacing no more than 53 bits reach less far. */
  lemma Lower(n: nat, p: nat, more: nat, u: nat)
    requires n <= EXACT && more >= 1 && u == 2 * p * more
    ensures n * p <= EXACT / 2 * u
  {
    AtMost(n, EXACT, p);
    AtMost(1, more, EXACT * p);
    assert EXACT / 2 * (2 * p * more) == more * (EXACT * p);
  }

  /** Any other multiple of the spacing is at least as far away. */
  lemma MultipleFarther(s: nat, v: nat, m: nat, k: nat, u: nat)
    requires u > 0 && v == m * u && 2 * Gap(v, s) <= u
    ensures Gap(v, s) <= Gap(k * u, s)
  {
    if k < m {
      AtMost(k + 1, m, u);
      assert (k + 1) * u == k * u + u;
    } else if k > m {
      AtMost(m + 1, k, u);
      assert (m + 1) * u == m * u + u;
    }
  }

  /** The total of one side, as the loop accumulates it. */
  function Total(entries: seq<Entry>, side: Side): int {
    if entries == [] then 0
    else
      var last, before := entries[|entries| - 1], Total(entries[..|entries| - 1], side);
      if last.side == side then Round(before + last.amount) else before
  }

  function Sum(entries: seq<Entry>, weight: Entry -> int): int {
    if entries == [] then 0 else Sum(entries[..|entries| - 1], weight) + weight(entries[|entries| - 1])
  }

  function OnSide(side: Side): Entry -> int { (e: Entry) => if e.side == side then e.amount else 0 }

  /** The same total without rounding. */
  function ExactTotal(entries: seq<Entry>, side: Side): int { Sum(entries, OnSide(side)) }

  predicate AreEntries(entries: seq<Entry>) { forall e :: e in entries ==> IsAmount(e.amount) }

  lemma {:induction false} TotalsExact(entries: seq<Entry>, side: Side)
    requires AreEntries(entries) && ExactTotal(entries, side) <= EXACT
    ensures 0 <= ExactTotal(entries, side) == Total(entries, side)
  {
    if entries != [] {
      var n := |entries| - 1;
      assert entries == entries[..n] + [entries[n]];
      assert IsAmount(entries[n].amount);
      TotalsExact(entries[..n], side);
      RoundedExact(ExactTotal(entries, side));
    }
  }

  // --- Composing ---

  function MakeEntry(account: Account, side: Side, amount: int, org: Option<string>): Result<Entry, LedgerError> {
    if amount <= 0 then Err(AmountNotPositive)
    else if amount > MAX_ENTRY then Err(AmountTooLarge)
    else Ok(Entry(account, side, amount, org))
  }

  predicate IsCurrency(currency: string) { |currency| == 3 && forall c :: c in currency ==> 'A' <= c <= 'Z' }

  function Composed(kind: Kind, currency: string, entries: seq<Entry>): Result<Batch, LedgerError> {
    if !IsCurrency(currency) then Err(BadCurrency)
    else if entries == [] then Err(EmptyBatch)
    else
      var debits, credits := Total(entries, Debit), Total(entries, Credit);
      if debits != credits then Err(Unbalanced(debits, credits))
      else Ok(Batch(kind, currency, debits, credits, entries))
  }

  method ComposeBatch(kind: Kind, currency: string, entries: seq<Entry>) returns (r: Result<Batch, LedgerError>)
    ensures r == Composed(kind, currency, entries)
  {
    hide Round;
    if !IsCurrency(currency) {
      return Err(BadCurrency);
    }
    if |entries| == 0 {
      return Err(EmptyBatch);
    }
    var debits, credits := 0, 0;
    for i := 0 to |entries|
      invariant debits == Total(entries[..i], Debit) && credits == Total(entries[..i], Credit)
    {
      assert entries[..i + 1][..i] == entries[..i];
      if entries[i].side == Debit {
        debits := Round(debits + entries[i].amount);
      } else {
        credits := Round(credits + entries[i].amount);
      }
    }
    assert entries[..|entries|] == entries;
    if debits != credits {
      return Err(Unbalanced(debits, credits));
    }
    r := Ok(Batch(kind, currency, debits, credits, entries));
  }

  /** The entries, or the first error among them. */
  function Collect(made: seq<Made>): Result<seq<Entry>, LedgerError> {
    if made == [] then Ok([])
    else
      match made[0]
      case Err(e) => Err(e)
      case Ok(first) =>
        match Collect(made[1..])
        case Err(e) => Err(e)
        case Ok(rest) => Ok([first] + rest)
  }

  function Built(kind: Kind, currency: string, made: seq<Made>): Result<Batch, LedgerError> {
    match Collect(made)
    case Err(e) => Err(e)
    case Ok(entries) => Composed(kind, currency, entries)
  }

  // --- The batch of each event ---

  function IfPositive(account: Account, side: Side, amount: int, org: Option<string>): seq<Made> {
    if amount > 0 then [MakeEntry(account, side, amount, org)] else []
  }

  function OrderPaidEntries(captured: int, organizerNet: int, fee: int, tax: int, discount: int, org: Option<string>)
      : seq<Made>
  {
    [MakeEntry(ProcessorClearing, Debit, captured, org)]
    + IfPositive(PromotionalDiscount, Debit, discount, org)
    + (if organizerNet != 0 then [MakeEntry(OrganizerPayable, Credit, organizerNet, org)] else [])
    + IfPositive(PlatformFeeRevenue, Credit, fee, org)
    + IfPositive(TaxPayable, Credit, tax, org)
  }

  /** With `entries` made so far, the rest of the batch decides what is collected. */
  ghost predicate Pushed(made: seq<Made>, entries: seq<Entry>, rest: seq<Made>) {
    Collect(made) == match Collect(rest) case Err(e) => Err(e) case Ok(more) => Ok(entries + more)
  }

  lemma NextEntry(
      made: seq<Made>, entries: seq<Entry>, next: Made, rest: seq<Made>)
    requires Pushed(made, entries, [next] + rest)
    ensures next.Err? ==> Collect(made) == Err(next.error)
    ensures next.Ok? ==> Pushed(made, entries + [next.value], rest)
  {
    assert ([next] + rest)[1..] == rest;
    if next.Ok? && Collect(rest).Ok? {
      assert entries + ([next.value] + Collect(rest).value) == entries + [next.value] + Collect(rest).value;
    }
  }

  method PushEntry(
      ghost made: seq<Made>, ghost rest: seq<Made>,
      entries: seq<Entry>, account: Account, side: Side, amount: int, org: Option<string>)
      returns (r: Result<seq<Entry>, LedgerError>)
    requires Pushed(made, entries, [MakeEntry(account, side, amount, org)] + rest)
    ensures r.Err? ==> Collect(made) == Err(r.error)
    ensures r.Ok? ==> Pushed(made, r.value, rest)
  {
    NextEntry(made, entries, MakeEntry(account, side, amount, org), rest);
    var e := MakeEntry(account, side, amount, org);
    match e
    case Err(error) => r := Err(error);
    case Ok(line) => r := Ok(entries + [line]);
  }

  lemma NothingPushed(made: seq<Made>)
    ensures Pushed(made, [], made)
  {
    if Collect(made).Ok? { assert [] + Collect(made).value == Collect(made).value; }
  }

  lemma AllPushed(made: seq<Made>, entries: seq<Entry>)
    requires Pushed(made, entries, [])
    ensures Collect(made) == Ok(entries)
  {
    assert entries + [] == entries;
  }

  method OrderPaidBatch(
      captured: int, organizerNet: int, fee: int, tax: int, discount: int, currency: string, org: Option<string>)
      returns (r: Result<Batch, LedgerError>)
    ensures r == Built(OrderPaid, currency, OrderPaidEntries(captured, organizerNet, fee, tax, discount, org))
  {
    hide Composed, MakeEntry, Collect, Pushed;
    ghost var made := OrderPaidEntries(captured, organizerNet, fee, tax, discount, org);
    ghost var afterFee := IfPositive(TaxPayable, Credit, tax, org);
    ghost var afterNet := IfPositive(PlatformFeeRevenue, Credit, fee, org) + afterFee;
    ghost var afterDiscount :=
      (if organizerNet != 0 then [MakeEntry(OrganizerPayable, Credit, organizerNet, org)] else []) + afterNet;
    ghost var afterFirst := IfPositive(PromotionalDiscount, Debit, discount, org) + afterDiscount;
    assert made == [MakeEntry(ProcessorClearing, Debit, captured, org)] + afterFirst;
    assert discount <= 0 ==> afterFirst == afterDiscount;
    assert organizerNet == 0 ==> afterDiscount == afterNet;
    assert fee <= 0 ==> afterNet == afterFee;
    assert afterFee == afterFee + [];
    NothingPushed(made);
    var entries :- PushEntry(made, afterFirst, [], ProcessorClearing, Debit, captured, org);
    if discount > 0 {
      entries :- PushEntry(made, afterDiscount, entries, PromotionalDiscount, Debit, discount, org);
    }
    if organizerNet != 0 {
      entries :- PushEntry(made, afterNet, entries, OrganizerPayable, Credit, organizerNet, org);
    }
    if fee > 0 {
      entries :- PushEntry(made, afterFee, entries, PlatformFeeRevenue, Credit, fee, org);
    }
    if tax > 0 {
      entries :- PushEntry(made, [], entries, TaxPayable, Credit, tax, org);
    }
    AllPushed(made, entries);
    r := ComposeBatch(OrderPaid, currency, entries);
  }

  predicate IsMade(e: Made) { e.Ok? ==> IsAmount(e.value.amount) }

  lemma {:induction false} CollectedAreEntries(made: seq<Made>)
    requires forall e :: e in made ==> IsMade(e)
    ensures Collect(made).Ok? ==> AreEntries(Collect(made).value)
    ensures Collect(made).Ok? ==> |Collect(made).value| == |made|
    ensures Collect(made).Ok? <==> forall e :: e in made ==> e.Ok?
  {
    if made != [] {
      assert made == [made[0]] + made[1..];
      assert IsMade(made[0]);
      CollectedAreEntries(made[1..]);
    }
  }

  function RefundEntries(refunded: int, organizerShare: int, fee: int, tax: int, org: Option<string>)
      : seq<Made>
  {
    [MakeEntry(OrganizerPayable, Debit, organizerShare, org)]
    + IfPositive(PlatformFeeRevenue, Debit, fee, org)
    + IfPositive(TaxPayable, Debit, tax, org)
    + [MakeEntry(RefundClearing, Credit, refunded, org)]
  }

  method RefundBatch(refunded: int, organizerShare: int, fee: int, tax: int, currency: string, org: Option<string>)
      returns (r: Result<Batch, LedgerError>)
    ensures r == Built(Refund, currency, RefundEntries(refunded, organizerShare, fee, tax, org))
  {
    hide Composed, MakeEntry, Collect, Pushed;
    ghost var made := RefundEntries(refunded, organizerShare, fee, tax, org);
    ghost var afterTax := [MakeEntry(RefundClearing, Credit, refunded, org)];
    ghost var afterFee := IfPositive(TaxPayable, Debit, tax, org) + afterTax;
    ghost var afterFirst := IfPositive(PlatformFeeRevenue, Debit, fee, org) + afterFee;
    assert made == [MakeEntry(OrganizerPayable, Debit, organizerShare, org)] + afterFirst;
    assert fee <= 0 ==> afterFirst == afterFee;
    assert tax <= 0 ==> afterFee == afterTax;
    NothingPushed(made);
    var entries :- PushEntry(made, afterFirst, [], OrganizerPayable, Debit, organizerShare, org);
    if fee > 0 {
      entries :- PushEntry(made, afterFee, entries, PlatformFeeRevenue, Debit, fee, org);
    }
    if tax > 0 {
      entries :- PushEntry(made, afterTax, entries, TaxPayable, Debit, tax, org);
    }
    assert afterTax == afterTax + [];
    entries :- PushEntry(made, [], entries, RefundClearing, Credit, refunded, org);
    AllPushed(made, entries);
    r := ComposeBatch(Refund, currency, entries);
  }

  /** The same amount from one account to another. */
  function Moved(kind: Kind, from: Account, to: Account, amount: int, currency: string, org: Option<string>)
      : Result<Batch, LedgerError>
  {
    Built(kind, currency, [MakeEntry(from, Debit, amount, org), MakeEntry(to, Credit, amount, org)])
  }

  function RefundSettledBatch(refunded: int, currency: string, org: Option<string>): Result<Batch, LedgerError> {
    Moved(Refund, RefundClearing, ProcessorClearing, refunded, currency, org)
  }

  predicate IsHeldFrom(account: Account) { account in {OrganizerPayable, PlatformFeeRevenue} }

  function DisputeOpenedBatch(disputed: int, heldFrom: Account, currency: string, org: Option<string>)
      : Result<Batch, LedgerError>
  {
    if IsHeldFrom(heldFrom) then Moved(DisputeOpened, heldFrom, DisputeClearing, disputed, currency, org)
    else Err(BadDisputeAccount)
  }

  function DisputeResolvedBatch(disputed: int, won: bool, heldFrom: Account, currency: string, org: Option<string>)
      : Result<Batch, LedgerError>
  {
    if !IsHeldFrom(heldFrom) then Err(BadDisputeAccount)
    else if won then Moved(DisputeResolved, DisputeClearing, heldFrom, disputed, currency, org)
    else Moved(DisputeResolved, DisputeClearing, ProcessorClearing, disputed, currency, org)
  }

  function TransferBatch(amount: int, currency: string, org: Option<string>): Result<Batch, LedgerError> {
    Moved(Transfer, OrganizerPayable, TransferClearing, amount, currency, org)
  }

  function TransferReversalBatch(amount: int, currency: string, org: Option<string>): Result<Batch, LedgerError> {
    Moved(TransferReversal, TransferClearing, OrganizerPayable, amount, currency, org)
  }

  function PayoutBatch(amount: int, failed: bool, currency: string, org: Option<string>): Result<Batch, LedgerError> {
    if failed then Moved(Payout, TransferClearing, PayoutClearing, amount, currency, org)
    else Moved(Payout, PayoutClearing, TransferClearing, amount, currency, org)
  }

  function Flipped(entries: seq<Entry>): seq<Made> {
    seq(|entries|, i requires 0 <= i < |entries| =>
      MakeEntry(entries[i].account, entries[i].side.Other(), entries[i].amount, entries[i].org))
  }

  function CorrectionBatch(original: Batch): Result<Batch, LedgerError> {
    if original.entries == [] then Err(EmptyBatch)
    else Built(Correction, original.currency, Flipped(original.entries))
  }

  // --- What a batch does to the accounts ---

  /** Some of the accounts, possibly of one organisation only. */
  type Slice = (Account, Option<string>) -> bool

  function Signed(e: Entry): int { if e.side == Debit then e.amount else -e.amount }

  function Over(slice: Slice): Entry -> int { (e: Entry) => if slice(e.account, e.org) then Signed(e) else 0 }

  /** Debits less credits over the entries of a slice. */
  function Effect(entries: seq<Entry>, slice: Slice): int { Sum(entries, Over(slice)) }

  function Everything(): Slice { (account, org) => true }

  function Only(account: Account): Slice { (a, org) => a == account }

  lemma {:induction false} EffectIsDifference(entries: seq<Entry>)
    ensures Effect(entries, Everything()) == ExactTotal(entries, Debit) - ExactTotal(entries, Credit)
  {
    if entries != [] {
      var last := entries[|entries| - 1];
      EffectIsDifference(entries[..|entries| - 1]);
      assert Everything()(last.account, last.org);
      assert Over(Everything())(last) == Signed(last) == OnSide(Debit)(last) - OnSide(Credit)(last);
    }
  }

  /** Both sides stay within exact integers. */
  predicate WithinExact(entries: seq<Entry>) {
    ExactTotal(entries, Debit) <= EXACT && ExactTotal(entries, Credit) <= EXACT
  }

  /** Composing succeeds just when the entries really balance, as long as the totals are exact. */
  lemma ComposedExact(kind: Kind, currency: string, entries: seq<Entry>)
    requires AreEntries(entries) && WithinExact(entries)
    ensures Composed(kind, currency, entries).Ok?
            <==> IsCurrency(currency) && entries != [] && Effect(entries, Everything()) == 0
    ensures Composed(kind, currency, entries) == Err(BadCurrency) <==> !IsCurrency(currency)
    ensures Composed(kind, currency, entries) == Err(EmptyBatch) <==> IsCurrency(currency) && entries == []
    ensures Composed(kind, currency, entries).Err? && IsCurrency(currency) && entries != [] ==>
              Composed(kind, currency, entries).error
              == Unbalanced(ExactTotal(entries, Debit), ExactTotal(entries, Credit))
    ensures Composed(kind, currency, entries).Ok? ==>
              var b := Composed(kind, currency, entries).value;
              b.kind == kind && b.currency == currency && b.entries == entries
              && b.debits == b.credits == ExactTotal(entries, Debit)
  {
    EffectIsDifference(entries);
    TotalsExact(entries, Debit);
    TotalsExact(entries, Credit);
  }

  /** Beyond exact integers it can accept a batch that is one minor unit out. */
  lemma LargeTotalsRound()
    ensures var batch := Built(OrderPaid, "USD", OrderPaidEntries(MAX_ENTRY, MAX_ENTRY, 1, 0, 2, None));
            && batch.Ok? && AreEntries(batch.value.entries) && Effect(batch.value.entries, Everything()) == 1
            && ExactTotal(batch.value.entries, Debit) == EXACT + 1 && ExactTotal(batch.value.entries, Credit) == EXACT
  {
    hide Rounded, Round, Collect, Total, Effect, ExactTotal;
    var a, b := Entry(ProcessorClearing, Debit, MAX_ENTRY, None), Entry(PromotionalDiscount, Debit, 2, None);
    var c, d := Entry(OrganizerPayable, Credit, MAX_ENTRY, None), Entry(PlatformFeeRevenue, Credit, 1, None);
    var entries := [a, b, c, d];
    CollectFour(a, b, c, d);
    assert OrderPaidEntries(MAX_ENTRY, MAX_ENTRY, 1, 0, 2, None) == [Ok(a), Ok(b), Ok(c), Ok(d)];
    Rounds();
    TotalOfFour(a, b, c, d);
    ExactOfFour(a, b, c, d);
    EffectIsDifference(entries);
  }

  /** The rounded totals of two debits and two credits. */
  lemma TotalOfFour(a: Entry, b: Entry, c: Entry, d: Entry)
    requires a.side.Debit? && b.side.Debit? && c.side.Credit? && d.side.Credit?
    requires Round(a.amount) == a.amount && Round(c.amount) == c.amount
    ensures Total([a, b, c, d], Debit) == Round(a.amount + b.amount)
    ensures Total([a, b, c, d], Credit) == Round(c.amount + d.amount)
  {
    hide Round, Total;
    Extends(a, b, c, d);
    NoTotal();
    TotalNext([], a);
    TotalNext([a], b);
    TotalNext([a, b], c);
    TotalNext([a, b, c], d);
  }

  lemma ExactOfFour(a: Entry, b: Entry, c: Entry, d: Entry)
    requires a.side.Debit? && b.side.Debit? && c.side.Credit? && d.side.Credit?
    ensures ExactTotal([a, b, c, d], Debit) == a.amount + b.amount
    ensures ExactTotal([a, b, c, d], Credit) == c.amount + d.amount
  {
    hide ExactTotal;
    Extends(a, b, c, d);
    NoTotal();
    ExactNext([], a);
    ExactNext([a], b);
    ExactNext([a, b], c);
    ExactNext([a, b, c], d);
  }

  lemma Extends(a: Entry, b: Entry, c: Entry, d: Entry)
    ensures [] + [a] == [a] && [a] + [b] == [a, b] && [a, b] + [c] == [a, b, c] && [a, b, c] + [d] == [a, b, c, d]
  {
  }

  lemma NoTotal()
    ensures forall side :: Total([], side) == 0 && ExactTotal([], side) == 0
  {
  }

  lemma CollectFour(a: Entry, b: Entry, c: Entry, d: Entry)
    ensures Collect([Ok(a), Ok(b), Ok(c), Ok(d)]) == Ok([a, b, c, d])
  {
    var one: seq<Made>, two: seq<Made> := [Ok(d)], [Ok(c), Ok(d)];
    var three: seq<Made>, four: seq<Made> := [Ok(b), Ok(c), Ok(d)], [Ok(a), Ok(b), Ok(c), Ok(d)];
    CollectNext(one, [], [], [d]);
    CollectNext(two, one, [d], [c, d]);
    CollectNext(three, two, [c, d], [b, c, d]);
    CollectNext(four, three, [b, c, d], [a, b, c, d]);
  }

  lemma CollectNext(made: seq<Made>, rest: seq<Made>, entries: seq<Entry>, all: seq<Entry>)
    requires made != [] && made[0].Ok? && made[1..] == rest && all == [made[0].value] + entries
    requires Collect(rest) == Ok(entries)
    ensures Collect(made) == Ok(all)
  {
  }

  lemma TotalNext(entries: seq<Entry>, e: Entry)
    ensures forall side :: Total(entries + [e], side)
                           == if e.side == side then Round(Total(entries, side) + e.amount) else Total(entries, side)
  {
    hide Round;
    assert (entries + [e])[..|entries|] == entries;
  }

  lemma ExactNext(entries: seq<Entry>, e: Entry)
    ensures forall side :: ExactTotal(entries + [e], side)
                           == ExactTotal(entries, side) + if e.side == side then e.amount else 0
  {
    assert (entries + [e])[..|entries|] == entries;
    forall side ensures OnSide(side)(e) == if e.side == side then e.amount else 0 {}
  }

  lemma Rounds()
    ensures Round(EXACT + 1) == EXACT && Round(EXACT) == EXACT && Round(MAX_ENTRY) == MAX_ENTRY
  {
    RoundedExact(EXACT);
    RoundedExact(MAX_ENTRY);
    var s := EXACT + 1;
    assert Spacing(s / 2) == 1 && Spacing(s) == 2;
    assert s / 2 == EXACT / 2 && s % 2 == 1;
  }

  /** Every batch of valid entries that is composed, with neither total above the bound, really balances. */
  ghost predicate BalancesUpTo(bound: int) {
    forall kind, currency, entries: seq<Entry> ::
      && AreEntries(entries) && ExactTotal(entries, Debit) <= bound && ExactTotal(entries, Credit) <= bound
      && Composed(kind, currency, entries).Ok?
      ==> Effect(entries, Everything()) == 0
  }

  /** That is so up to the last exact integer, and for no greater bound. */
  lemma BalancesUpToIff(bound: int)
    ensures BalancesUpTo(bound) <==> bound <= EXACT
  {
    hide ExactTotal, Effect, Total;
    if bound <= EXACT {
      forall kind, currency, entries: seq<Entry> |
          && AreEntries(entries) && ExactTotal(entries, Debit) <= bound && ExactTotal(entries, Credit) <= bound
          && Composed(kind, currency, entries).Ok?
        ensures Effect(entries, Everything()) == 0
      {
        ComposedExact(kind, currency, entries);
      }
    } else {
      LargeTotalsRound();
      hide Composed;
      var made := OrderPaidEntries(MAX_ENTRY, MAX_ENTRY, 1, 0, 2, None);
      var batch := Built(OrderPaid, "USD", made).value;
      BuiltEntries(OrderPaid, "USD", made);
      assert Composed(OrderPaid, "USD", batch.entries).Ok?;
    }
  }

  lemma BuiltEntries(kind: Kind, currency: string, made: seq<Made>)
    requires Built(kind, currency, made).Ok?
    ensures Composed(kind, currency, Built(kind, currency, made).value.entries).Ok?
  {
  }
}
