/** Which seats a selection implies, and what taking or releasing some of them leaves behind. */
module Seating {
  import opened Prelude
  import opened CompanionGraph

  type Id = string

  /** A `Seat` row of the session's map. */
  datatype MapSeat = MapSeat(id: Id, companionOfSeatId: Option<Id>)

  datatype SeatStatus = Available | Held | Sold | Blocked | Killed | Complimentary

  datatype EventSeat = EventSeat(id: Id, seatId: Id, status: SeatStatus)

  /** `new Map(seats.map((seat) => [seat.id, seat])).get(id)`: the last one wins. */
  function ById(seats: seq<MapSeat>, id: Id): (r: Option<MapSeat>)
    ensures r.Some? ==> r.value in seats && r.value.id == id
    ensures r.None? ==> forall s :: s in seats ==> s.id != id
  {
    if seats == [] then None
    else if seats[|seats| - 1].id == id then Some(seats[|seats| - 1])
    else ById(seats[..|seats| - 1], id)
  }

  lemma {:induction false} ByIdIsLast(seats: seq<MapSeat>, j: nat)
    requires j < |seats| && forall m :: j < m < |seats| ==> seats[m].id != seats[j].id
    ensures ById(seats, seats[j].id) == Some(seats[j])
  {
    if j < |seats| - 1 {
      assert seats[|seats| - 1].id != seats[j].id;
      ByIdIsLast(seats[..|seats| - 1], j);
    }
  }

  /** `seats.find((candidate) => candidate.companionOfSeatId === id)`: the first one. */
  function FirstClaimant(seats: seq<MapSeat>, id: Id): (r: Option<MapSeat>)
    ensures r.Some? ==> r.value in seats && r.value.companionOfSeatId == Some(id)
    ensures r.None? ==> forall s :: s in seats ==> s.companionOfSeatId != Some(id)
  {
    if seats == [] then None
    else if seats[0].companionOfSeatId == Some(id) then Some(seats[0])
    else FirstClaimant(seats[1..], id)
  }

  lemma {:induction false} ClaimantIsFirst(seats: seq<MapSeat>, j: nat, id: Id)
    requires j < |seats| && seats[j].companionOfSeatId == Some(id)
    requires forall m :: 0 <= m < j ==> seats[m].companionOfSeatId != Some(id)
    ensures FirstClaimant(seats, id) == Some(seats[j])
  {
    if j > 0 { ClaimantIsFirst(seats[1..], j - 1, id); }
  }

  /** A JavaScript string that is not empty. */
  predicate Truthy(id: Option<Id>) { id.Some? && id.value != "" }

  /** Every id a seat row mentions. */
  function Mentioned(seats: seq<MapSeat>): set<Id> {
    (set s | s in seats :: s.id) + (set s | s in seats && s.companionOfSeatId.Some? :: s.companionOfSeatId.value)
  }

  // ---- The closure ------------------------------------------------------------

  /** How many mentioned seats are still to be chosen. */
  function Left(seats: seq<MapSeat>, chosen: seq<Id>): nat { |Mentioned(seats) - Elements(chosen)| }

  lemma FewerLeft(seats: seq<MapSeat>, chosen: seq<Id>, id: Id, more: seq<Id>)
    requires ById(seats, id).Some? && id !in chosen && chosen + [id] <= more
    ensures Left(seats, more) < Left(seats, chosen)
  {
    var left, left' := Mentioned(seats) - Elements(chosen), Mentioned(seats) - Elements(more);
    assert more[|chosen|] == id;
    assert more == chosen + more[|chosen|..];
    assert id in left && id !in left';
    assert left == left' + (left - left');
    assert id in left - left';
  }

  /** Add a seat and anything bound to it, depth first. */
  function Add(seats: seq<MapSeat>, id: Id, chosen: seq<Id>): (r: seq<Id>)
    ensures chosen <= r && id in r
    ensures id !in chosen ==> chosen + [id] <= r
    decreases Left(seats, chosen), 0
  {
    hide Left, Mentioned, Elements;
    if id in chosen then chosen
    else
      match ById(seats, id)
      case None => chosen + [id]
      case Some(seat) =>
        FewerLeft(seats, chosen, id, chosen + [id]);
        var chosen2 := AddIf(seats, seat.companionOfSeatId, chosen + [id]);
        FewerLeft(seats, chosen, id, chosen2);
        assert chosen2[|chosen|] == id;
        match FirstClaimant(seats, id)
        case None => chosen2
        case Some(companion) => Add(seats, companion.id, chosen2)
  }

  /** `if (seat.companionOfSeatId) add(seat.companionOfSeatId)`. */
  function AddIf(seats: seq<MapSeat>, id: Option<Id>, chosen: seq<Id>): (r: seq<Id>)
    ensures chosen <= r
    decreases Left(seats, chosen), 1
  {
    if Truthy(id) then Add(seats, id.value, chosen) else chosen
  }

  function Choose(seats: seq<MapSeat>, ids: seq<Id>, chosen: seq<Id>): (r: seq<Id>)
    ensures chosen <= r
  {
    if ids == [] then chosen else Choose(seats, ids[1..], Add(seats, ids[0], chosen))
  }

  function WithCompanions(seats: seq<MapSeat>, seatIds: seq<Id>): seq<Id> { Choose(seats, seatIds, []) }

  /** The recursion as the source runs it, with its `seen` set beside the list. */
  method AddSeat(seats: seq<MapSeat>, id: Id, seen: set<Id>, chosen: seq<Id>) returns (seen': set<Id>, chosen': seq<Id>)
    requires seen == Elements(chosen)
    ensures chosen' == Add(seats, id, chosen) && seen' == Elements(chosen')
    decreases Left(seats, chosen)
  {
    seen', chosen' := seen, chosen;
    if id in seen { return; }
    seen', chosen' := seen' + {id}, chosen' + [id];
    assert Elements(chosen') == Elements(chosen) + {id};
    var seat := ById(seats, id);
    if seat.None? { return; }
    FewerLeft(seats, chosen, id, chosen');
    if Truthy(seat.value.companionOfSeatId) {
      seen', chosen' := AddSeat(seats, seat.value.companionOfSeatId.value, seen', chosen');
    }
    var companion := FirstClaimant(seats, id);
    if companion.Some? {
      FewerLeft(seats, chosen, id, chosen');
      seen', chosen' := AddSeat(seats, companion.value.id, seen', chosen');
    }
  }

  method SeatsWithCompanions(seatIds: seq<Id>, seats: seq<MapSeat>) returns (chosen: seq<Id>)
    ensures chosen == WithCompanions(seats, seatIds)
  {
    chosen := [];
    var seen: set<Id> := {};
    for i := 0 to |seatIds|
      invariant seen == Elements(chosen)
      invariant Choose(seats, seatIds[i..], chosen) == WithCompanions(seats, seatIds)
    {
      assert seatIds[i..][1..] == seatIds[i + 1..];
      seen, chosen := AddSeat(seats, seatIds[i], seen, chosen);
    }
    assert seatIds[|seatIds|..] == [];
  }

  /** Taking `x` takes `y`: its own accessible seat, or the first seat found that claims it. */
  predicate Binds(seats: seq<MapSeat>, x: Id, y: Id) {
    && ById(seats, x).Some?
    && (|| (Truthy(ById(seats, x).value.companionOfSeatId) && ById(seats, x).value.companionOfSeatId.value == y)
        || (FirstClaimant(seats, x).Some? && FirstClaimant(seats, x).value.id == y))
  }

  /** This is the last row with the id; this is the first that claims it. */
  predicate IsLastSeat(seats: seq<MapSeat>, j: int, id: Id) {
    0 <= j < |seats| && seats[j].id == id && forall m :: j < m < |seats| ==> seats[m].id != id
  }

  predicate IsFirstClaim(seats: seq<MapSeat>, i: int, id: Id) {
    && 0 <= i < |seats| && seats[i].companionOfSeatId == Some(id)
    && forall m :: 0 <= m < i ==> seats[m].companionOfSeatId != Some(id)
  }

  lemma {:induction false} LastSeat(seats: seq<MapSeat>, id: Id) returns (j: nat)
    requires exists s :: s in seats && s.id == id
    ensures IsLastSeat(seats, j, id)
  {
    j := |seats| - 1;
    if seats[j].id != id { j := LastSeat(seats[..j], id); }
  }

  lemma {:induction false} FirstClaim(seats: seq<MapSeat>, id: Id) returns (i: nat)
    requires exists s :: s in seats && s.companionOfSeatId == Some(id)
    ensures IsFirstClaim(seats, i, id)
  {
    i := 0;
    if seats[0].companionOfSeatId != Some(id) {
      assert seats == [seats[0]] + seats[1..];
      i := FirstClaim(seats[1..], id);
      i := i + 1;
    }
  }

  /** What is followed, row by row: the last row of the seat names the other, or the first row that claims it is. */
  lemma BindsIff(seats: seq<MapSeat>, x: Id, y: Id)
    ensures Binds(seats, x, y)
            <==> || (exists j :: IsLastSeat(seats, j, x) && seats[j].companionOfSeatId == Some(y) && y != "")
                 || (exists i, j :: IsLastSeat(seats, j, x) && IsFirstClaim(seats, i, x) && seats[i].id == y)
  {
    hide ById, FirstClaimant;
    if s :| s in seats && s.id == x {
      var j := LastSeat(seats, x);
      ByIdIsLast(seats, j);
      if t :| t in seats && t.companionOfSeatId == Some(x) {
        var i := FirstClaim(seats, x);
        ClaimantIsFirst(seats, i, x);
      }
    }
  }

  ghost predicate ClosedOn(seats: seq<MapSeat>, xs: seq<Id>, s: set<Id>) {
    forall x, y :: x in xs && Binds(seats, x, y) ==> y in s
  }

  ghost predicate Closed(seats: seq<MapSeat>, s: set<Id>) {
    forall x, y :: x in s && Binds(seats, x, y) ==> y in s
  }

  lemma {:induction false} AddKeepsDistinct(seats: seq<MapSeat>, id: Id, chosen: seq<Id>)
    requires Distinct(chosen)
    ensures Distinct(Add(seats, id, chosen))
    decreases Left(seats, chosen)
  {
    if id !in chosen && ById(seats, id).Some? {
      hide Left, Mentioned;
      var target := ById(seats, id).value.companionOfSeatId;
      FewerLeft(seats, chosen, id, chosen + [id]);
      var chosen2 := AddIf(seats, target, chosen + [id]);
      if Truthy(target) { AddKeepsDistinct(seats, target.value, chosen + [id]); }
      FewerLeft(seats, chosen, id, chosen2);
      var companion := FirstClaimant(seats, id);
      if companion.Some? { AddKeepsDistinct(seats, companion.value.id, chosen2); }
    }
  }

  /** One addition follows everything it adds. */
  lemma {:induction false} AddCloses(seats: seq<MapSeat>, id: Id, chosen: seq<Id>)
    ensures ClosedOn(seats, Add(seats, id, chosen)[|chosen|..], Elements(Add(seats, id, chosen)))
    decreases Left(seats, chosen)
  {
    hide Left, Mentioned, ClosedOn, Binds, Elements, AddIf;
    var r := Add(seats, id, chosen);
    if id in chosen {
      NothingNew(seats, chosen);
    } else if ById(seats, id).None? {
      StrangerIsFollowed(seats, id, chosen);
    } else {
      var target := ById(seats, id).value.companionOfSeatId;
      var chosen1 := chosen + [id];
      FewerLeft(seats, chosen, id, chosen1);
      var chosen2 := AddIf(seats, target, chosen1);
      AddIfAdds(seats, target, chosen1);
      if Truthy(target) { AddCloses(seats, target.value, chosen1); } else { NothingNew(seats, chosen1); }
      FewerLeft(seats, chosen, id, chosen2);
      var companion := FirstClaimant(seats, id);
      if companion.Some? { AddCloses(seats, companion.value.id, chosen2); } else { NothingNew(seats, chosen2); }
      BoundAreAdded(seats, id, chosen2, r);
      NewAreFollowed(seats, id, chosen, chosen2, r);
    }
  }

  lemma AddIfAdds(seats: seq<MapSeat>, id: Option<Id>, chosen: seq<Id>)
    ensures AddIf(seats, id, chosen) == if Truthy(id) then Add(seats, id.value, chosen) else chosen
  {
  }

  lemma StrangerIsFollowed(seats: seq<MapSeat>, id: Id, chosen: seq<Id>)
    requires ById(seats, id).None? && id !in chosen
    ensures ClosedOn(seats, Add(seats, id, chosen)[|chosen|..], Elements(Add(seats, id, chosen)))
  {
    assert Add(seats, id, chosen)[|chosen|..] == [id];
  }

  lemma BoundAreAdded(seats: seq<MapSeat>, id: Id, chosen2: seq<Id>, r: seq<Id>)
    requires ById(seats, id).Some? && chosen2 <= r
    requires Truthy(ById(seats, id).value.companionOfSeatId)
            ==> ById(seats, id).value.companionOfSeatId.value in chosen2
    requires FirstClaimant(seats, id).Some? ==> FirstClaimant(seats, id).value.id in r
    ensures forall y :: Binds(seats, id, y) ==> y in r
  {
    assert r == chosen2 + r[|chosen2|..];
  }

  lemma NothingNew(seats: seq<MapSeat>, chosen: seq<Id>)
    ensures ClosedOn(seats, chosen[|chosen|..], Elements(chosen))
  {
  }

  lemma NewAreFollowed(seats: seq<MapSeat>, id: Id, chosen: seq<Id>, chosen2: seq<Id>, r: seq<Id>)
    requires chosen + [id] <= chosen2 <= r
    requires ClosedOn(seats, chosen2[|chosen| + 1..], Elements(chosen2))
    requires ClosedOn(seats, r[|chosen2|..], Elements(r))
    requires forall y :: Binds(seats, id, y) ==> y in r
    ensures ClosedOn(seats, r[|chosen|..], Elements(r))
  {
    assert r == chosen2 + r[|chosen2|..];
    assert chosen2 == chosen + [id] + chosen2[|chosen| + 1..];
    assert r[|chosen|..] == [id] + chosen2[|chosen| + 1..] + r[|chosen2|..];
  }

  lemma {:induction false} AddStaysInside(seats: seq<MapSeat>, id: Id, chosen: seq<Id>, s: set<Id>)
    requires Closed(seats, s) && id in s
    ensures forall x :: x in Add(seats, id, chosen) ==> x in chosen || x in s
    decreases Left(seats, chosen)
  {
    if id !in chosen && ById(seats, id).Some? {
      hide Left, Mentioned;
      var target := ById(seats, id).value.companionOfSeatId;
      var chosen1 := chosen + [id];
      FewerLeft(seats, chosen, id, chosen1);
      var chosen2 := AddIf(seats, target, chosen1);
      if Truthy(target) {
        assert Binds(seats, id, target.value);
        AddStaysInside(seats, target.value, chosen1, s);
      }
      FewerLeft(seats, chosen, id, chosen2);
      var companion := FirstClaimant(seats, id);
      if companion.Some? {
        assert Binds(seats, id, companion.value.id);
        AddStaysInside(seats, companion.value.id, chosen2, s);
      }
    }
  }

  lemma {:induction false} ChooseCloses(seats: seq<MapSeat>, ids: seq<Id>, chosen: seq<Id>)
    requires Distinct(chosen) && Closed(seats, Elements(chosen))
    ensures var r := Choose(seats, ids, chosen);
            && Distinct(r) && Closed(seats, Elements(r))
            && forall id :: id in ids ==> id in r
  {
    if ids != [] {
      var next := Add(seats, ids[0], chosen);
      AddCloses(seats, ids[0], chosen);
      AddKeepsDistinct(seats, ids[0], chosen);
      assert next == chosen + next[|chosen|..];
      assert Closed(seats, Elements(next));
      ChooseCloses(seats, ids[1..], next);
    }
  }

  lemma {:induction false} ChooseStaysInside(seats: seq<MapSeat>, ids: seq<Id>, chosen: seq<Id>, s: set<Id>)
    requires Closed(seats, s) && forall id :: id in ids || id in chosen ==> id in s
    ensures forall x :: x in Choose(seats, ids, chosen) ==> x in s
  {
    if ids != [] {
      AddStaysInside(seats, ids[0], chosen, s);
      ChooseStaysInside(seats, ids[1..], Add(seats, ids[0], chosen), s);
    }
  }

  /**
   * The result is the reachable closure of the selection: no seat twice, every
   * chosen seat in it, closed, and inside every closed set that holds the selection.
   */
  lemma SelectionClosure(seats: seq<MapSeat>, seatIds: seq<Id>)
    ensures var r := WithCompanions(seats, seatIds);
            && Distinct(r)
            && (forall id :: id in seatIds ==> id in r)
            && Closed(seats, Elements(r))
            && forall s :: Closed(seats, s) && Elements(seatIds) <= s ==> Elements(r) <= s
  {
    ChooseCloses(seats, seatIds, []);
    forall s | Closed(seats, s) && Elements(seatIds) <= s ensures Elements(WithCompanions(seats, seatIds)) <= s {
      assert forall id :: id in seatIds ==> id in Elements(seatIds);
      ChooseStaysInside(seats, seatIds, [], s);
    }
  }

  lemma {:induction false} SkipChosen(seats: seq<MapSeat>, known: seq<Id>, rest: seq<Id>, chosen: seq<Id>)
    requires forall id :: id in known ==> id in chosen
    ensures Choose(seats, known + rest, chosen) == Choose(seats, rest, chosen)
  {
    if known == [] {
      assert known + rest == rest;
    } else {
      assert (known + rest)[1..] == known[1..] + rest;
      SkipChosen(seats, known[1..], rest, chosen);
    }
  }

  /** Feeding back what was added goes through the same additions again. */
  lemma {:induction false} ChooseAgain(seats: seq<MapSeat>, ids: seq<Id>, chosen: seq<Id>)
    ensures var r := Choose(seats, ids, chosen); Choose(seats, r[|chosen|..], chosen) == r
  {
    if ids != [] {
      var next := Add(seats, ids[0], chosen);
      var r := Choose(seats, ids, chosen);
      ChooseAgain(seats, ids[1..], next);
      if ids[0] !in chosen {
        assert next[|chosen|] == ids[0];
        var added := next[|chosen| + 1..];
        assert r[|chosen|..] == [ids[0]] + (added + r[|next|..]);
        assert r[|chosen|..][1..] == added + r[|next|..];
        SkipChosen(seats, added, r[|next|..], next);
      }
    }
  }

  /** Idempotent, seat for seat and in the same order. */
  lemma ClosureIdempotent(seats: seq<MapSeat>, seatIds: seq<Id>)
    ensures WithCompanions(seats, WithCompanions(seats, seatIds)) == WithCompanions(seats, seatIds)
  {
    ChooseAgain(seats, seatIds, []);
    assert WithCompanions(seats, seatIds)[0..] == WithCompanions(seats, seatIds);
  }
}
