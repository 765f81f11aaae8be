/** Checkout holds: which reserve stock, which the sweeper takes, and what is left to buy. */
module Holds {
  import opened Prelude

  datatype Status = Active | Converted | Released | Expired

  datatype Hold = Hold(status: Status, quantity: int, expiresAt: Option<int>)

  datatype InventoryError =
    | InvalidHold | InvalidInventory | InvalidQuantity | BelowMinimum | AboveMaximum | InsufficientInventory

  const MAX_SAFE: nat := 0x1F_FFFF_FFFF_FFFF

  predicate IsCount(n: int) { 0 <= n <= MAX_SAFE }

  // --- Expiry ---

  predicate IsHoldExpired(hold: Hold, now: int) {
    hold.status.Expired? || (hold.expiresAt.Some? && hold.expiresAt.value <= now)
  }

  predicate IsDue(hold: Hold, now: int) { hold.status.Active? && IsHoldExpired(hold, now) }

  predicate IsLive(hold: Hold, now: int) { hold.status.Active? && !IsHoldExpired(hold, now) }

  predicate IsInactive(hold: Hold) { !hold.status.Active? }

  datatype Partition = Partition(expired: seq<Hold>, active: seq<Hold>, inactive: seq<Hold>)

  /** The holds that satisfy a condition, in order. */
  function Those(holds: seq<Hold>, which: Hold -> bool): seq<Hold> {
    if holds == [] then []
    else
      var last := holds[|holds| - 1];
      Those(holds[..|holds| - 1], which) + if which(last) then [last] else []
  }

  lemma ThoseNext(holds: seq<Hold>, which: Hold -> bool)
    requires holds != []
    ensures var last, before := holds[|holds| - 1], Those(holds[..|holds| - 1], which);
            Those(holds, which) == if which(last) then before + [last] else before
  {
  }

  lemma {:induction false} ThoseJoin(a: seq<Hold>, b: seq<Hold>, which: Hold -> bool)
    ensures Those(a + b, which) == Those(a, which) + Those(b, which)
  {
    if b == [] {
      assert a + b == a;
    } else {
      assert (a + b)[..|a + b| - 1] == a + b[..|b| - 1];
      ThoseJoin(a, b[..|b| - 1], which);
    }
  }

  lemma {:induction false} ThoseAre(holds: seq<Hold>, which: Hold -> bool)
    ensures forall h :: h in Those(holds, which) <==> h in holds && which(h)
  {
    if holds != [] {
      var n := |holds| - 1;
      ThoseAre(holds[..n], which);
      assert holds == holds[..n] + [holds[n]];
    }
  }

  function Due(now: int): Hold -> bool { (h: Hold) => IsDue(h, now) }
  function Live(now: int): Hold -> bool { (h: Hold) => IsLive(h, now) }
  function Inactive(): Hold -> bool { (h: Hold) => IsInactive(h) }

  method PartitionExpiredHolds(holds: seq<Hold>, now: int) returns (p: Partition)
    ensures p == Partition(Those(holds, Due(now)), Those(holds, Live(now)), Those(holds, Inactive()))
    ensures multiset(p.expired) + multiset(p.active) + multiset(p.inactive) == multiset(holds)
    ensures forall h :: h in p.expired ==> h.status == Active && h.expiresAt.Some? && h.expiresAt.value <= now
    ensures forall h :: h in p.active ==> h.status == Active && (h.expiresAt.Some? ==> now < h.expiresAt.value)
    ensures forall h :: h in p.inactive ==> h.status != Active
  {
    p := Partition([], [], []);
    for i := 0 to |holds|
      invariant p == Partition(Those(holds[..i], Due(now)), Those(holds[..i], Live(now)), Those(holds[..i], Inactive()))
    {
      var hold := holds[i];
      assert holds[..i + 1][..i] == holds[..i];
      if hold.status != Active {
        p := p.(inactive := p.inactive + [hold]);
        continue;
      }
      if IsHoldExpired(hold, now) {
        p := p.(expired := p.expired + [hold]);
      } else {
        p := p.(active := p.active + [hold]);
      }
    }
    assert holds[..|holds|] == holds;
    NoneLost(holds, now);
    ThoseAre(holds, Due(now));
    ThoseAre(holds, Live(now));
    ThoseAre(holds, Inactive());
  }

  lemma NoneAmong(now: int)
    ensures Those([], Due(now)) == [] && Those([], Live(now)) == [] && Those([], Inactive()) == []
  {
  }

  /** Every hold is in exactly one bucket, as often as it is in the list. */
  lemma {:induction false} NoneLost(holds: seq<Hold>, now: int)
    ensures multiset(Those(holds, Due(now))) + multiset(Those(holds, Live(now))) + multiset(Those(holds, Inactive()))
            == multiset(holds)
  {
    hide Those;
    if holds == [] {
      assert multiset(Those(holds, Due(now))) + multiset(Those(holds, Live(now))) + multiset(Those(holds, Inactive()))
          == multiset(holds) by { NoneAmong(now); }
    } else {
      var n := |holds| - 1;
      assert holds == holds[..n] + [holds[n]];
      NoneLost(holds[..n], now);
      ThoseNext(holds, Due(now));
      ThoseNext(holds, Live(now));
      ThoseNext(holds, Inactive());
    }
  }

  // --- What live holds keep off sale ---

  function Total(holds: seq<Hold>): int {
    if holds == [] then 0 else Total(holds[..|holds| - 1]) + holds[|holds| - 1].quantity
  }

  lemma TotalMore(holds: seq<Hold>, h: Hold)
    ensures Total(holds + [h]) == Total(holds) + h.quantity
  {
    assert (holds + [h])[..|holds|] == holds;
  }

  predicate AllCounts(holds: seq<Hold>) { forall h :: h in holds ==> IsCount(h.quantity) }

  /** The live quantity, or an error when a live hold's quantity is no count. */
  function Held(holds: seq<Hold>, now: int): Result<int, InventoryError> {
    var live := Those(holds, Live(now));
    if AllCounts(live) then Ok(Total(live)) else Err(InvalidHold)
  }

  method ActiveHeldQuantity(holds: seq<Hold>, now: int) returns (r: Result<int, InventoryError>)
    ensures r == Held(holds, now)
  {
    hide Those;
    var p := PartitionExpiredHolds(holds, now);
    var total := 0;
    for i := 0 to |p.active|
      invariant AllCounts(p.active[..i]) && total == Total(p.active[..i])
    {
      assert p.active[..i + 1][..i] == p.active[..i] && p.active[..i + 1] == p.active[..i] + [p.active[i]];
      if !IsCount(p.active[i].quantity) {
        assert p.active[i] in p.active;
        return Err(InvalidHold);
      }
      total := total + p.active[i].quantity;
    }
    assert p.active[..|p.active|] == p.active;
    r := Ok(total);
  }

  datatype Availability = Availability(available: int, isSoldOut: bool, held: int)

  function ComputeAvailability(total: int, sold: int, held: int): (r: Result<Availability, InventoryError>)
    ensures r.Ok? <==> IsCount(total) && IsCount(sold) && IsCount(held)
    ensures r.Ok? ==> r.value.available >= 0 && (r.value.isSoldOut <==> total <= sold + held)
    ensures r.Ok? && total <= sold + held ==> r.value.available == 0
    ensures r.Ok? && sold + held < total ==> sold + held + r.value.available == total
  {
    if !IsCount(total) || !IsCount(sold) || !IsCount(held) then Err(InvalidInventory)
    else
      var available := if total - sold - held > 0 then total - sold - held else 0;
      Ok(Availability(available, available == 0, held))
  }

  /** What a read of the tier shows: the live quantity at `now` taken from its counters. */
  function Shown(total: int, sold: int, holds: seq<Hold>, now: int): Result<Availability, InventoryError> {
    match Held(holds, now)
    case Err(e) => Err(e)
    case Ok(held) => ComputeAvailability(total, sold, held)
  }

  // --- Sweeping ---

  /** The holds with those at `chosen` marked EXPIRED. */
  function Marked(holds: seq<Hold>, chosen: set<nat>): (r: seq<Hold>)
    ensures |r| == |holds|
    ensures forall i :: 0 <= i < |r| ==>
              r[i] == if i in chosen then Hold(Expired, holds[i].quantity, holds[i].expiresAt) else holds[i]
  {
    seq(|holds|, i requires 0 <= i < |holds| => if i in chosen then holds[i].(status := Expired) else holds[i])
  }

  lemma MarkedNext(holds: seq<Hold>, chosen: set<nat>)
    requires holds != []
    ensures Marked(holds, chosen)[..|holds| - 1] == Marked(holds[..|holds| - 1], chosen)
  {
  }

  /** Holds that are due and stay due: marking any of them removes nothing from what is live later. */
  lemma {:induction false} LiveAfterMarking(holds: seq<Hold>, chosen: set<nat>, now: int, t: int)
    requires now <= t
    requires forall i :: i in chosen && i < |holds| ==> IsDue(holds[i], now)
    ensures Those(Marked(holds, chosen), Live(t)) == Those(holds, Live(t))
  {
    if holds != [] {
      MarkedNext(holds, chosen);
      LiveAfterMarking(holds[..|holds| - 1], chosen, now, t);
    }
  }

  /** A sweep, whole or partial, cannot be seen in availability from the moment it looked at the clock. */
  lemma SweepInvisible(holds: seq<Hold>, chosen: set<nat>, now: int, t: int, total: int, sold: int)
    requires now <= t
    requires forall i :: i in chosen && i < |holds| ==> IsDue(holds[i], now)
    ensures Held(Marked(holds, chosen), t) == Held(holds, t)
    ensures Shown(total, sold, Marked(holds, chosen), t) == Shown(total, sold, holds, t)
  {
    LiveAfterMarking(holds, chosen, now, t);
  }

  /** The quantity live at `t` as a plain sum. */
  function LiveTotal(holds: seq<Hold>, t: int): int {
    if holds == [] then 0
    else
      var last := holds[|holds| - 1];
      LiveTotal(holds[..|holds| - 1], t) + if IsLive(last, t) then last.quantity else 0
  }

  lemma {:induction false} HeldIsLiveTotal(holds: seq<Hold>, t: int)
    ensures Total(Those(holds, Live(t))) == LiveTotal(holds, t)
    ensures AllCounts(holds) ==> Held(holds, t) == Ok(LiveTotal(holds, t)) && LiveTotal(holds, t) >= 0
  {
    if holds != [] {
      var n := |holds| - 1;
      assert holds[n] in holds;
      HeldIsLiveTotal(holds[..n], t);
      ThoseNext(holds, Live(t));
      TotalMore(Those(holds[..n], Live(t)), holds[n]);
      assert AllCounts(holds) ==> AllCounts(holds[..n]);
    }
  }

  /** What a read shows is what neither has been sold nor is held by a live hold, down to nothing. */
  lemma ShownIsLeft(total: int, sold: int, holds: seq<Hold>, t: int)
    requires AllCounts(holds)
    ensures Shown(total, sold, holds, t).Ok? <==> IsCount(total) && IsCount(sold) && IsCount(LiveTotal(holds, t))
    ensures var (r, left) := (Shown(total, sold, holds, t), total - sold - LiveTotal(holds, t));
            r.Ok? ==> r.value == Availability(if left > 0 then left else 0, left <= 0, LiveTotal(holds, t))
  {
    HeldIsLiveTotal(holds, t);
  }

  /** No marked hold with a quantity was live at `t`. */
  predicate NothingTaken(holds: seq<Hold>, chosen: set<nat>, t: int) {
    forall i :: i in chosen && i < |holds| && IsLive(holds[i], t) ==> holds[i].quantity == 0
  }

  lemma NothingTakenNext(holds: seq<Hold>, chosen: set<nat>, t: int)
    requires holds != []
    ensures var n := |holds| - 1;
            NothingTaken(holds, chosen, t)
            <==> NothingTaken(holds[..n], chosen, t) && (n in chosen && IsLive(holds[n], t) ==> holds[n].quantity == 0)
  {
    hide IsLive;
    var n := |holds| - 1;
    assert forall i :: 0 <= i < n ==> holds[..n][i] == holds[i];
  }

  /** Marking never adds to what is live, and at `t` removes exactly the marked live quantities. */
  lemma {:induction false} MarkedTotal(holds: seq<Hold>, chosen: set<nat>, t: int)
    requires AllCounts(holds)
    ensures LiveTotal(Marked(holds, chosen), t) <= LiveTotal(holds, t)
    ensures LiveTotal(Marked(holds, chosen), t) == LiveTotal(holds, t) <==> NothingTaken(holds, chosen, t)
  {
    if holds != [] {
      var n := |holds| - 1;
      MarkedNext(holds, chosen);
      NothingTakenNext(holds, chosen, t);
      assert holds[n] in holds;
      assert forall h :: h in holds[..n] ==> h in holds;
      hide NothingTaken;
      MarkedTotal(holds[..n], chosen, t);
    }
  }

  /** Marking is invisible from `now` on exactly when no hold it takes with a quantity was still live at `now`. */
  lemma SweepInvisibleIff(holds: seq<Hold>, chosen: set<nat>, now: int)
    requires AllCounts(holds)
    ensures (forall t :: now <= t ==> Held(Marked(holds, chosen), t) == Held(holds, t))
            <==> NothingTaken(holds, chosen, now)
  {
    assert AllCounts(Marked(holds, chosen)) by {
      forall h | h in Marked(holds, chosen) ensures IsCount(h.quantity) {
        var i :| 0 <= i < |holds| && Marked(holds, chosen)[i] == h;
        assert holds[i] in holds;
      }
    }
    forall t ensures Held(Marked(holds, chosen), t) == Held(holds, t) <==> NothingTaken(holds, chosen, t) {
      HeldIsLiveTotal(holds, t);
      HeldIsLiveTotal(Marked(holds, chosen), t);
      MarkedTotal(holds, chosen, t);
    }
    if NothingTaken(holds, chosen, now) {
      forall t | now <= t ensures Held(Marked(holds, chosen), t) == Held(holds, t) {
        assert forall i :: 0 <= i < |holds| && IsLive(holds[i], t) ==> IsLive(holds[i], now);
      }
    } else {
      assert Held(Marked(holds, chosen), now) != Held(holds, now);
    }
  }

  // --- Time alone ---

  lemma CountsMore(holds: seq<Hold>, h: Hold)
    ensures AllCounts(holds + [h]) <==> AllCounts(holds) && IsCount(h.quantity)
  {
    assert h in holds + [h];
    assert forall x :: x in holds ==> x in holds + [h];
  }

  lemma {:induction false} LiveShrinks(holds: seq<Hold>, t: int, u: int)
    requires t <= u && AllCounts(Those(holds, Live(t)))
    ensures AllCounts(Those(holds, Live(u)))
    ensures 0 <= Total(Those(holds, Live(u))) <= Total(Those(holds, Live(t)))
  {
    hide Those, AllCounts, Total;
    if holds == [] {
      NoneLive(t);
      NoneLive(u);
    } else {
      var n := |holds| - 1;
      var before, after := Those(holds[..n], Live(t)), Those(holds[..n], Live(u));
      ThoseNext(holds, Live(t));
      ThoseNext(holds, Live(u));
      CountsMore(before, holds[n]);
      CountsMore(after, holds[n]);
      TotalMore(before, holds[n]);
      TotalMore(after, holds[n]);
      LiveShrinks(holds[..n], t, u);
    }
  }

  lemma NoneLive(t: int)
    ensures Those([], Live(t)) == [] && AllCounts([]) && Total([]) == 0
  {
  }

  /** With nothing written, what is shown as available never falls, and never becomes an error. */
  lemma AvailabilityNeverFalls(total: int, sold: int, holds: seq<Hold>, t: int, u: int)
    requires t <= u && Shown(total, sold, holds, t).Ok?
    ensures Shown(total, sold, holds, u).Ok?
    ensures Shown(total, sold, holds, t).value.available <= Shown(total, sold, holds, u).value.available
  {
    LiveShrinks(holds, t, u);
  }

  // --- Asking for a quantity ---

  datatype Request = Request(quantity: int, minPerOrder: Option<int>, maxPerOrder: Option<int>, available: int)

  function Minimum(r: Request): int { if r.minPerOrder.None? then 1 else r.minPerOrder.value }

  /** The first rule a request breaks. */
  function Refusal(r: Request): Option<InventoryError> {
    if !IsCount(r.quantity) || r.quantity < 1 then Some(InvalidQuantity)
    else if !IsCount(Minimum(r)) then Some(InvalidInventory)
    else if r.maxPerOrder.Some? && !IsCount(r.maxPerOrder.value) then Some(InvalidInventory)
    else if !IsCount(r.available) then Some(InvalidInventory)
    else if r.maxPerOrder.Some? && Minimum(r) > r.maxPerOrder.value then Some(InvalidInventory)
    else if r.quantity < Minimum(r) then Some(BelowMinimum)
    else if r.maxPerOrder.Some? && r.quantity > r.maxPerOrder.value then Some(AboveMaximum)
    else if r.quantity > r.available then Some(InsufficientInventory)
    else None
  }

  /** What a request is refused for, reason by reason; it passes just when it lies in the range that is left. */
  lemma RefusalIff(r: Request)
    ensures var least := if r.minPerOrder.Some? then r.minPerOrder.value else 1;
            var sound := && IsCount(least) && IsCount(r.available)
                         && (r.maxPerOrder.Some? ==> IsCount(r.maxPerOrder.value) && least <= r.maxPerOrder.value);
            var asked := 1 <= r.quantity <= MAX_SAFE;
            && (Refusal(r) == Some(InvalidQuantity) <==> !asked)
            && (Refusal(r) == Some(InvalidInventory) <==> asked && !sound)
            && (Refusal(r) == Some(BelowMinimum) <==> asked && sound && r.quantity < least)
            && (Refusal(r) == Some(AboveMaximum)
                <==> asked && sound && r.maxPerOrder.Some? && r.maxPerOrder.value < r.quantity)
            && (Refusal(r) == None
                <==> asked && sound && least <= r.quantity <= r.available
                     && (r.maxPerOrder.Some? ==> r.quantity <= r.maxPerOrder.value))
            && (Refusal(r).Some? && asked && sound && Refusal(r).value !in {BelowMinimum, AboveMaximum} ==>
                  Refusal(r) == Some(InsufficientInventory))
  {
  }

  // --- A tier over time ---

  /** A ticket type: its counters, its holds and the clock. */
  datatype Tier = Tier(total: int, sold: int, holds: seq<Hold>, now: int)

  datatype Event =
    | Wait(now: int)
    | Place(quantity: int, minPerOrder: Option<int>, maxPerOrder: Option<int>, expiresAt: Option<int>)
    | Convert(index: nat)
    | Release(index: nat)
    | Sweep(chosen: set<nat>)

  /**
   * A hold is placed on a request that passes against what is shown. Settling an order converts its ACTIVE
   * holds whether or not they have lapsed, and adds their quantity to what is sold.
   */
  predicate May(t: Tier, e: Event) {
    match e
    case Wait(now) => t.now <= now
    case Place(q, least, most, _) =>
      var shown := Shown(t.total, t.sold, t.holds, t.now);
      shown.Ok? && Refusal(Request(q, least, most, shown.value.available)).None?
    case Convert(i) => i < |t.holds| && t.holds[i].status.Active?
    case Release(i) => i < |t.holds| && t.holds[i].status.Active?
    case Sweep(chosen) => forall i :: i in chosen && i < |t.holds| ==> IsDue(t.holds[i], t.now)
  }

  function After(t: Tier, e: Event): Tier
    requires May(t, e)
  {
    match e
    case Wait(now) => t.(now := now)
    case Place(q, _, _, expiresAt) => t.(holds := t.holds + [Hold(Active, q, expiresAt)])
    case Convert(i) => t.(sold := t.sold + t.holds[i].quantity, holds := t.holds[i := t.holds[i].(status := Converted)])
    case Release(i) => t.(holds := t.holds[i := t.holds[i].(status := Released)])
    case Sweep(chosen) => t.(holds := Marked(t.holds, chosen))
  }

  /** Nothing is promised twice: what is sold and what live holds reserve fit in the total. */
  predicate Fits(t: Tier) {
    && IsCount(t.total) && t.sold >= 0 && AllCounts(t.holds)
    && t.sold + LiveTotal(t.holds, t.now) <= t.total
  }

  lemma {:induction false} ReplacedTotal(holds: seq<Hold>, i: nat, h: Hold, t: int)
    requires i < |holds| && !IsLive(h, t)
    ensures LiveTotal(holds[i := h], t) == LiveTotal(holds, t) - if IsLive(holds[i], t) then holds[i].quantity else 0
  {
    var n := |holds| - 1;
    if i == n {
      assert holds[i := h][..n] == holds[..n];
    } else {
      assert holds[i := h][..n] == holds[..n][i := h];
      ReplacedTotal(holds[..n], i, h, t);
    }
  }

  /** Converting takes its quantity from what is left, unless a live hold had already reserved it. */
  lemma ConvertTakes(t: Tier, i: nat)
    requires May(t, Convert(i))
    ensures var u := After(t, Convert(i));
            u.total - u.sold - LiveTotal(u.holds, u.now)
            == t.total - t.sold - LiveTotal(t.holds, t.now)
             - if IsLive(t.holds[i], t.now) then 0 else t.holds[i].quantity
  {
    ReplacedTotal(t.holds, i, t.holds[i].(status := Converted), t.now);
  }

  /** The hold is still live, or what is left has room for it. */
  predicate HasRoom(t: Tier, i: nat)
    requires i < |t.holds|
  {
    IsLive(t.holds[i], t.now) || t.sold + LiveTotal(t.holds, t.now) + t.holds[i].quantity <= t.total
  }

  lemma ConvertFitsIff(t: Tier, i: nat)
    requires Fits(t) && May(t, Convert(i))
    ensures Fits(After(t, Convert(i))) <==> HasRoom(t, i)
  {
    assert t.holds[i] in t.holds;
    ConvertTakes(t, i);
    ReplacedCounts(t.holds, i, Converted);
  }

  lemma ReplacedCounts(holds: seq<Hold>, i: nat, status: Status)
    requires i < |holds| && AllCounts(holds)
    ensures AllCounts(holds[i := holds[i].(status := status)])
  {
    assert holds[i] in holds;
  }

  lemma ShrinksTotal(holds: seq<Hold>, t: int, u: int)
    requires AllCounts(holds) && t <= u
    ensures LiveTotal(holds, u) <= LiveTotal(holds, t)
  {
    HeldIsLiveTotal(holds, t);
    HeldIsLiveTotal(holds, u);
    LiveShrinks(holds, t, u);
  }

  /** Every event keeps the fit, but the conversion of a lapsed hold that there is no room for. */
  lemma EventFitsIff(t: Tier, e: Event)
    requires Fits(t) && May(t, e)
    ensures Fits(After(t, e)) <==> (e.Convert? ==> HasRoom(t, e.index))
  {
    hide Marked, Held, Those;
    match e
    case Wait(now) => ShrinksTotal(t.holds, t.now, now);
    case Place(q, least, most, expiresAt) =>
      hide LiveTotal;
      PlacedFits(t, q, least, most, expiresAt);
    case Convert(i) => ConvertFitsIff(t, i);
    case Release(i) =>
      assert t.holds[i] in t.holds;
      ReplacedCounts(t.holds, i, Released);
      ReplacedTotal(t.holds, i, t.holds[i].(status := Released), t.now);
    case Sweep(chosen) =>
      MarkedCounts(t.holds, chosen);
      MarkedTotal(t.holds, chosen, t.now);
  }

  lemma MarkedCounts(holds: seq<Hold>, chosen: set<nat>)
    requires AllCounts(holds)
    ensures AllCounts(Marked(holds, chosen))
  {
    forall h | h in Marked(holds, chosen) ensures IsCount(h.quantity) {
      var i :| 0 <= i < |holds| && Marked(holds, chosen)[i] == h;
      assert holds[i] in holds;
    }
  }

  lemma PlacedFits(t: Tier, q: int, least: Option<int>, most: Option<int>, expiresAt: Option<int>)
    requires Fits(t) && May(t, Place(q, least, most, expiresAt))
    ensures Fits(After(t, Place(q, least, most, expiresAt)))
  {
    ShownIsLeft(t.total, t.sold, t.holds, t.now);
    RefusalIff(Request(q, least, most, Shown(t.total, t.sold, t.holds, t.now).value.available));
    hide Shown, Refusal, Minimum;
    var h := Hold(Active, q, expiresAt);
    assert (t.holds + [h])[..|t.holds|] == t.holds;
  }

  ghost predicate IsHistory(tiers: seq<Tier>, events: seq<Event>) {
    && |tiers| == |events| + 1
    && forall i :: 0 <= i < |events| ==> May(tiers[i], events[i]) && tiers[i + 1] == After(tiers[i], events[i])
  }

  ghost predicate AllFitted(tiers: seq<Tier>, n: nat)
    requires n < |tiers|
  {
    forall i :: 0 <= i <= n ==> Fits(tiers[i])
  }

  /** Every conversion up to step `n` had room. */
  ghost predicate AllHadRoom(tiers: seq<Tier>, events: seq<Event>, n: nat)
    requires IsHistory(tiers, events) && n <= |events|
  {
    forall i :: 0 <= i < n && events[i].Convert? ==> HasRoom(tiers[i], events[i].index)
  }

  /**
   * However holds are placed, settled, released, swept or left to lapse: what is sold and reserved has fitted in
   * the total throughout, exactly when every settlement of a lapsed hold found room for it.
   */
  lemma {:induction false} FitsThroughoutIff(tiers: seq<Tier>, events: seq<Event>, n: nat)
    requires IsHistory(tiers, events) && Fits(tiers[0]) && n <= |events|
    ensures AllFitted(tiers, n) <==> AllHadRoom(tiers, events, n)
  {
    hide Fits, HasRoom, After;
    if n > 0 {
      var last := n - 1;
      FitsThroughoutIff(tiers, events, last);
      assert AllFitted(tiers, n) <==> AllFitted(tiers, last) && Fits(tiers[n]);
      assert AllHadRoom(tiers, events, n)
        <==> (AllHadRoom(tiers, events, last) && (events[last].Convert? ==> HasRoom(tiers[last], events[last].index)));
      if AllFitted(tiers, last) {
        assert Fits(tiers[last]);
        EventFitsIff(tiers[last], events[last]);
      }
    }
  }

  /** Then no more is ever sold than there is. */
  lemma NeverOversold(tiers: seq<Tier>, events: seq<Event>, n: nat)
    requires IsHistory(tiers, events) && Fits(tiers[0]) && n <= |events| && AllHadRoom(tiers, events, n)
    ensures tiers[n].sold <= tiers[n].total == tiers[0].total
  {
    FitsThroughoutIff(tiers, events, n);
    TotalKept(tiers, events, n);
    SoldFits(tiers[n]);
  }

  lemma {:induction false} TotalKept(tiers: seq<Tier>, events: seq<Event>, n: nat)
    requires IsHistory(tiers, events) && n <= |events|
    ensures tiers[n].total == tiers[0].total
  {
    if n > 0 {
      TotalKept(tiers, events, n - 1);
      TotalStays(tiers[n - 1], events[n - 1]);
    }
  }

  const FIRST := Hold(Active, 1, Some(10))
  const SECOND := Hold(Active, 1, Some(20))

  function LapsedEvents(): seq<Event> {
    [Place(1, None, None, Some(10)), Wait(10), Place(1, None, None, Some(20)), Convert(0), Convert(1)]
  }

  function LapsedTiers(): seq<Tier> {
    var (sold, soldToo) := (FIRST.(status := Converted), SECOND.(status := Converted));
    [Tier(1, 0, [], 0), Tier(1, 0, [FIRST], 0), Tier(1, 0, [FIRST], 10),
     Tier(1, 0, [FIRST, SECOND], 10), Tier(1, 1, [sold, SECOND], 10), Tier(1, 2, [sold, soldToo], 10)]
  }

  /** One ticket, held until 10 and held again by somebody else after that, is sold twice when both orders settle. */
  lemma LapsedHoldOversells()
    ensures IsHistory(LapsedTiers(), LapsedEvents()) && Fits(LapsedTiers()[0])
    ensures LapsedTiers()[5].sold > LapsedTiers()[5].total
    ensures !HasRoom(LapsedTiers()[3], 0)
  {
    NoneLive(0);
    LapsedShown(FIRST);
    hide Held, LiveTotal;
    assert [] + [FIRST] == [FIRST] && [FIRST] + [SECOND] == [FIRST, SECOND];
    forall i | 0 <= i < 5
      ensures May(LapsedTiers()[i], LapsedEvents()[i])
      ensures LapsedTiers()[i + 1] == After(LapsedTiers()[i], LapsedEvents()[i])
    {
    }
    LapsedNoRoom();
  }

  lemma LapsedNoRoom()
    ensures !HasRoom(LapsedTiers()[3], 0) && Fits(LapsedTiers()[0])
  {
    assert [FIRST, SECOND][..1] == [FIRST] && [FIRST][..0] == [];
    assert LiveTotal([FIRST], 10) == 0;
    assert LiveTotal([FIRST, SECOND], 10) == 1;
  }

  lemma LapsedShown(first: Hold)
    requires first == Hold(Active, 1, Some(10))
    ensures Held([], 0) == Ok(0) && Held([first], 10) == Ok(0)
    ensures LiveTotal([first], 10) == 0
  {
    NoneLive(0);
    NoneLive(10);
    assert [first][..0] == [];
    ThoseNext([first], Live(10));
  }

  lemma TotalStays(t: Tier, e: Event)
    requires May(t, e)
    ensures After(t, e).total == t.total
  {
  }

  lemma SoldFits(t: Tier)
    requires Fits(t)
    ensures t.sold <= t.total
  {
    HeldIsLiveTotal(t.holds, t.now);
  }
}
