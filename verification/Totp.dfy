/** One-time codes: RFC 4226 truncation, and the check of a code somebody typed. */
module Totp {
  import opened Prelude
  import opened Numerals
  import opened Base32

  /** The keyed hash, of which only the length of its digests is known: 20 bytes for SHA-1. */
  type Mac = f: (seq<Byte>, seq<Byte>) -> seq<Byte> | forall key, message :: |f(key, message)| == 20
    witness (key, message) => seq(20, i => 0)

  datatype Parameters = Parameters(digits: nat, stepSeconds: nat, window: nat) {
    predicate Valid() { digits >= 1 && stepSeconds >= 1 }
  }

  datatype CodeError = CounterOutOfRange

  /** `Math.floor(at / 1000 / stepSeconds)` of whole milliseconds. */
  function CounterAt(at: int, stepSeconds: nat): int
    requires stepSeconds >= 1
  {
    at / (1000 * stepSeconds)
  }

  /** A counter is that of exactly the instants of its step. */
  lemma CounterOfStep(at: int, stepSeconds: nat, c: int)
    requires stepSeconds >= 1
    ensures CounterAt(at, stepSeconds) == c <==> c * stepSeconds * 1000 <= at < (c + 1) * stepSeconds * 1000
  {
    var m := 1000 * stepSeconds;
    assert c * stepSeconds * 1000 == c * m && (c + 1) * stepSeconds * 1000 == c * m + m;
    var q, r := at / m, at % m;
    assert at == q * m + r && 0 <= r < m;
    if c * m <= at < c * m + m && q != c { StepsApart(c, q, r, at - c * m, m); }
  }

  lemma StepsApart(c: int, q: int, r: int, s: int, m: int)
    requires q * m + r == c * m + s && 0 <= r < m && 0 <= s < m
    ensures q == c
  {
    if q > c { NextStep(c, q, m); }
    if q < c { NextStep(q, c, m); }
  }

  lemma NextStep(a: int, b: int, m: int)
    requires a < b && m >= 1
    ensures a * m + m <= b * m
  {
    AtLeastOnce(b - a, m);
    assert (b - a) * m == b * m - a * m;
  }

  // --- One code ---

  /** `writeUInt32BE`. */
  function BigEndian(v: nat): seq<Byte>
    requires v < WORD
  {
    [v / 0x1_000000, v / 0x1_0000 % 256, v / 0x100 % 256, v % 256]
  }

  /** The counter as two 32-bit halves; a half that does not fit throws. */
  function Message(counter: int): Result<seq<Byte>, CodeError> {
    if 0 <= counter / WORD < WORD then Ok(BigEndian(counter / WORD) + BigEndian(counter % WORD))
    else Err(CounterOutOfRange)
  }

  /** Four bytes of the digest, from an offset the digest itself gives, without the sign bit. */
  function Truncated(digest: seq<Byte>): nat
    requires |digest| == 20
  {
    var offset := And(digest[19], 15);
    assert offset < 16 by { AndMasks(digest[19], 4); Powers(); }
    Or(Or(Or(Shl(And(digest[offset], 0x7f), 24), Shl(digest[offset + 1], 16)), Shl(digest[offset + 2], 8)),
       digest[offset + 3])
  }

  function Hotp(mac: Mac, key: seq<Byte>, counter: int, digits: nat): Result<string, CodeError> {
    match Message(counter)
    case Err(e) => Err(e)
    case Ok(message) =>
      Ok(Padded(Decimal(Truncated(mac(key, message)) % Pow10(digits)), digits))
  }

  lemma NumOfFour(a: nat, b: nat, c: nat, d: nat)
    ensures Num(256, [a, b, c, d]) == ((a * 256 + b) * 256 + c) * 256 + d
  {
    NumMore(256, [], a);
    NumMore(256, [a], b);
    NumMore(256, [a, b], c);
    NumMore(256, [a, b, c], d);
    assert [] + [a] == [a] && [a] + [b] == [a, b] && [a, b] + [c] == [a, b, c] && [a, b, c] + [d] == [a, b, c, d];
  }

  lemma BigEndianIsNumber(v: nat)
    requires v < WORD
    ensures Num(256, BigEndian(v)) == v
  {
    var a, b, c, d := v / 0x1_000000, v / 0x1_0000 % 256, v / 0x100 % 256, v % 256;
    NumOfFour(a, b, c, d);
    assert v / 0x1_0000 == a * 256 + b;
    assert v / 0x100 == (a * 256 + b) * 256 + c;
  }

  lemma {:induction false} NumJoins(base: nat, a: seq<nat>, b: seq<nat>)
    ensures Num(base, a + b) == Num(base, a) * Power(base, |b|) + Num(base, b)
  {
    if b == [] {
      assert a + b == a;
    } else {
      var n := |b| - 1;
      assert (a + b)[..|a| + n] == a + b[..n];
      NumJoins(base, a, b[..n]);
      Appended(Num(base, a), Power(base, n), Num(base, b[..n]), base, b[n]);
    }
  }

  lemma Appended(high: nat, p: nat, low: nat, base: nat, d: nat)
    ensures (high * p + low) * base + d == high * (p * base) + (low * base + d)
  {
    assert high * p * base == high * (p * base);
  }

  function Power(base: nat, n: nat): nat { if n == 0 then 1 else Power(base, n - 1) * base }

  /** The hashed message is the counter, as eight big-endian bytes. */
  lemma MessageIsCounter(counter: nat)
    requires counter < WORD * WORD
    ensures Message(counter).Ok? && |Message(counter).value| == 8 && Num(256, Message(counter).value) == counter
  {
    hide Num;
    var high, low := counter / WORD, counter % WORD;
    BigEndianIsNumber(high);
    BigEndianIsNumber(low);
    NumJoins(256, BigEndian(high), BigEndian(low));
    assert Power(256, 4) == WORD by {
      assert Power(256, 1) == 256 && Power(256, 2) == 65536 && Power(256, 3) == 16777216;
    }
  }

  /** Different counters hash different messages. */
  lemma MessagesApart(a: int, b: int)
    requires Message(a).Ok? && Message(a) == Message(b)
    ensures a == b
  {
    assert 0 <= a < WORD * WORD && 0 <= b < WORD * WORD;
    MessageIsCounter(a);
    MessageIsCounter(b);
  }

  /** The or-ed shifts are the 31-bit number that RFC 4226, section 5.3, describes. */
  lemma TruncatedIsNumber(digest: seq<Byte>)
    requires |digest| == 20
    ensures var offset := digest[19] % 16;
            Truncated(digest) == Num(256, digest[offset..offset + 4]) % 0x8000_0000
  {
    hide Or, And, Num;
    var offset := digest[19] % 16;
    AndMasks(digest[19], 4);
    Powers();
    var a: nat, b: nat, c: nat, d: nat := digest[offset], digest[offset + 1], digest[offset + 2], digest[offset + 3];
    assert digest[offset..offset + 4] == [a, b, c, d];
    NumOfFour(a, b, c, d);
    OrFour(a, b, c, d);
    HighBitOff(a, (b * 256 + c) * 256 + d);
  }

  lemma HighBitOff(a: nat, low: nat)
    requires a < 256 && low < 0x1_000000
    ensures (a * 0x1_000000 + low) % 0x8000_0000 == a % 128 * 0x1_000000 + low
  {
  }

  lemma OrFour(a: nat, b: nat, c: nat, d: nat)
    requires a < 256 && b < 256 && c < 256 && d < 256
    ensures Or(Or(Or(Shl(And(a, 0x7f), 24), Shl(b, 16)), Shl(c, 8)), d)
            == a % 128 * 0x1_000000 + (b * 256 + c) * 256 + d
  {
    hide Or, And, Shl, Pow2;
    Powers();
    assert Pow2(24) == 0x1_000000 && Pow2(16) == 0x1_0000 by { PowSplit(8, 8); PowSplit(16, 8); }
    AndMasks(a, 7);
    var high := a % 128;
    ShlWithin(high, 24);
    ShlWithin(b, 16);
    ShlWithin(c, 8);
    OrAdds(high, b * 0x1_0000, 24);
    OrAdds(high * 256 + b, c * 0x100, 16);
    OrAdds((high * 256 + b) * 256 + c, d, 8);
  }

  /** A shift that stays within the word drops nothing. */
  lemma ShlWithin(x: nat, k: nat)
    requires x * Pow2(k) < WORD
    ensures Shl(x, k) == x * Pow2(k)
  {
    hide Pow2;
  }

  /** A code has just as many digits as asked for, and is the truncated number modulo that power of ten. */
  lemma CodeIsNumber(mac: Mac, key: seq<Byte>, counter: nat, digits: nat)
    requires counter < WORD * WORD && digits >= 1
    ensures var code := Hotp(mac, key, counter, digits);
            && code.Ok? && |code.value| == digits && IsDecimal(code.value)
            && Parsed(code.value) == Truncated(mac(key, Message(counter).value)) % Pow10(digits)
  {
    hide Truncated, Decimal, Padded;
    MessageIsCounter(counter);
    var n := Truncated(mac(key, Message(counter).value)) % Pow10(digits);
    DecimalParsed(n);
    DecimalLength(n, digits);
    PaddedParsed(Decimal(n), digits);
  }

  // --- Checking a typed code ---

  datatype Outcome = Malformed | Mismatch | Replayed(counter: int) | Valid(counter: int)

  function WithoutSpaces(code: string): string {
    if code == "" then ""
    else (if IsSpace(code[0]) then "" else [code[0]]) + WithoutSpaces(code[1..])
  }

  predicate WellFormed(typed: string, digits: nat) { |typed| == digits && IsDecimal(typed) }

  /** The search stops at `counter`: its code is the one typed, or it has none. */
  predicate Stops(mac: Mac, key: seq<Byte>, typed: string, digits: nat, counter: int) {
    var code := Hotp(mac, key, counter, digits);
    code.Err? || code.value == typed
  }

  predicate IsReplay(counter: int, last: Option<int>) { last.Some? && counter <= last.value }

  /** The outcome is decided by the first counter of the window where the search stops. */
  ghost predicate IsOutcome(
      mac: Mac, key: seq<Byte>, typed: string, p: Parameters, now: int, last: Option<int>,
      r: Result<Outcome, CodeError>)
  {
    if !WellFormed(typed, p.digits) then r == Ok(Malformed)
    else if forall c :: now - p.window <= c <= now + p.window ==> !Stops(mac, key, typed, p.digits, c)
      then r == Ok(Mismatch)
    else exists c :: FirstStop(mac, key, typed, p, now, c)
                     && r == if Hotp(mac, key, c, p.digits).Err? then Err(CounterOutOfRange)
                             else if IsReplay(c, last) then Ok(Replayed(c)) else Ok(Valid(c))
  }

  ghost predicate FirstStop(mac: Mac, key: seq<Byte>, typed: string, p: Parameters, now: int, c: int) {
    && now - p.window <= c <= now + p.window
    && Stops(mac, key, typed, p.digits, c)
    && forall e :: now - p.window <= e < c ==> !Stops(mac, key, typed, p.digits, e)
  }

  method VerifyTotp(mac: Mac, key: seq<Byte>, code: string, at: int, last: Option<int>, p: Parameters)
      returns (r: Result<Outcome, CodeError>)
    requires p.Valid()
    ensures IsOutcome(mac, key, WithoutSpaces(code), p, CounterAt(at, p.stepSeconds), last, r)
  {
    hide Hotp, WithoutSpaces;
    var typed := WithoutSpaces(code);
    if !WellFormed(typed, p.digits) {
      return Ok(Malformed);
    }
    var now := CounterAt(at, p.stepSeconds);
    var offset := -(p.window as int);
    while offset <= p.window
      invariant 0 <= offset + p.window <= 2 * p.window + 1
      invariant forall c :: now - p.window <= c < now + offset ==> !Stops(mac, key, typed, p.digits, c)
    {
      var counter := now + offset;
      var expected := Hotp(mac, key, counter, p.digits);
      if expected.Err? {
        assert FirstStop(mac, key, typed, p, now, counter);
        return Err(CounterOutOfRange);
      }
      if expected.value == typed {
        assert FirstStop(mac, key, typed, p, now, counter);
        return Ok(if IsReplay(counter, last) then Replayed(counter) else Valid(counter));
      }
      offset := offset + 1;
    }
    r := Ok(Mismatch);
  }

  /** There is one outcome. */
  lemma OutcomeDetermined(
      mac: Mac, key: seq<Byte>, typed: string, p: Parameters, now: int, last: Option<int>,
      r: Result<Outcome, CodeError>, s: Result<Outcome, CodeError>)
    requires IsOutcome(mac, key, typed, p, now, last, r) && IsOutcome(mac, key, typed, p, now, last, s)
    ensures r == s
  {
    if WellFormed(typed, p.digits) && r != Ok(Mismatch) && s != Ok(Mismatch) {
      hide Stops;
      var c :| FirstStop(mac, key, typed, p, now, c)
               && r == if Hotp(mac, key, c, p.digits).Err? then Err(CounterOutOfRange)
                       else if IsReplay(c, last) then Ok(Replayed(c)) else Ok(Valid(c));
      var d :| FirstStop(mac, key, typed, p, now, d)
               && s == if Hotp(mac, key, d, p.digits).Err? then Err(CounterOutOfRange)
                       else if IsReplay(d, last) then Ok(Replayed(d)) else Ok(Valid(d));
      assert c == d;
    }
  }

  /** The code of the current step is accepted, unless it or an equal earlier code of the window is spent. */
  lemma CurrentCodeMatches(
      mac: Mac, key: seq<Byte>, p: Parameters, now: int, last: Option<int>, typed: string,
      r: Result<Outcome, CodeError>)
    requires p.Valid() && p.window <= now && now + p.window < WORD * WORD
    requires Hotp(mac, key, now, p.digits) == Ok(typed) && IsOutcome(mac, key, typed, p, now, last, r)
    ensures r.Ok? && (r.value.Valid? || r.value.Replayed?)
    ensures now - p.window <= r.value.counter <= now && Hotp(mac, key, r.value.counter, p.digits) == Ok(typed)
    ensures r.value.Valid? <==> last.None? || last.value < r.value.counter
  {
    hide Hotp;
    CodeIsNumber(mac, key, now, p.digits);
    assert Stops(mac, key, typed, p.digits, now);
    forall c | now - p.window <= c <= now ensures Hotp(mac, key, c, p.digits).Ok? {
      CodeIsNumber(mac, key, c, p.digits);
    }
    var c :| FirstStop(mac, key, typed, p, now, c);
    assert c <= now;
  }

  // --- A factor over its whole life ---

  /**
   * One presentation of a code, in the order they end: what was typed and when, how many had ended when this one
   * read the factor, and what the check said. Reading and writing are two statements; others may end in between.
   */
  datatype Attempt = Attempt(typed: string, at: int, readAt: nat, outcome: Result<Outcome, CodeError>)

  /** What the caller keeps of an accepted counter is its moment; reading the counter back gives the same one. */
  function StoredMoment(counter: int, p: Parameters): int { counter * p.stepSeconds * 1000 }

  lemma StoredCounter(counter: int, p: Parameters)
    requires p.Valid()
    ensures CounterAt(StoredMoment(counter, p), p.stepSeconds) == counter
  {
    var m := 1000 * p.stepSeconds;
    assert StoredMoment(counter, p) == counter * m;
    ExactQuotient(counter, m);
  }

  lemma ExactQuotient(counter: int, m: nat)
    requires m >= 1
    ensures counter * m / m == counter
  {
    var q := counter * m / m;
    var gap := counter - q;
    assert counter * m == q * m + counter * m % m;
    assert gap * m == counter * m - q * m;
    if gap >= 1 { AtLeastOnce(gap, m); }
    if gap <= -1 {
      assert (-gap) * m == -(gap * m);
      AtLeastOnce(-gap, m);
    }
  }

  /** The last counter a factor accepted, as the next check reads it. */
  function LastCounter(lastUsedAt: Option<int>, p: Parameters): Option<int>
    requires p.Valid()
  {
    match lastUsedAt
    case None => None
    case Some(at) => Some(CounterAt(at, p.stepSeconds))
  }

  /** `moments[i]` is what the factor holds once `i` attempts have ended. */
  ghost predicate IsLife(mac: Mac, key: seq<Byte>, p: Parameters, attempts: seq<Attempt>, moments: seq<Option<int>>)
    requires p.Valid()
  {
    && |moments| == |attempts| + 1
    && moments[0] == None
    && forall i :: 0 <= i < |attempts| ==>
         attempts[i].readAt <= i
         && IsAttempt(mac, key, p, attempts[i], moments[attempts[i].readAt], moments[i], moments[i + 1])
  }

  /** The check is made against what was read; an accepted counter is written over whatever is there by then. */
  ghost predicate IsAttempt(
      mac: Mac, key: seq<Byte>, p: Parameters, attempt: Attempt,
      read: Option<int>, before: Option<int>, after: Option<int>)
    requires p.Valid()
  {
    && IsOutcome(mac, key, WithoutSpaces(attempt.typed), p, CounterAt(attempt.at, p.stepSeconds),
                 LastCounter(read, p), attempt.outcome)
    && after == if Accepted(attempt) then Some(StoredMoment(attempt.outcome.value.counter, p)) else before
  }

  predicate Accepted(attempt: Attempt) { attempt.outcome.Ok? && attempt.outcome.value.Valid? }

  /** A code of the window is valid exactly when its counter is above the last accepted, and replayed otherwise. */
  lemma ReplayedIff(
      mac: Mac, key: seq<Byte>, typed: string, p: Parameters, now: int, last: Option<int>,
      r: Result<Outcome, CodeError>)
    requires IsOutcome(mac, key, typed, p, now, last, r) && r.Ok? && (r.value.Valid? || r.value.Replayed?)
    ensures now - p.window <= r.value.counter <= now + p.window
            && Hotp(mac, key, r.value.counter, p.digits) == Ok(typed)
    ensures r.value.Valid? <==> last.None? || last.value < r.value.counter
  {
    hide Hotp;
  }

  /** A code is malformed exactly when it is not as many decimal digits as a code has. */
  lemma MalformedIff(
      mac: Mac, key: seq<Byte>, typed: string, p: Parameters, now: int, last: Option<int>,
      r: Result<Outcome, CodeError>)
    requires IsOutcome(mac, key, typed, p, now, last, r)
    ensures r == Ok(Malformed) <==> |typed| != p.digits || exists c :: c in typed && !('0' <= c <= '9')
  {
    hide Hotp;
  }

  /** White space may be typed anywhere. */
  lemma {:induction false} SpacesAnywhere(a: string, space: char, b: string)
    requires IsSpace(space)
    ensures WithoutSpaces(a + [space] + b) == WithoutSpaces(a + b)
  {
    hide IsSpace;
    if a == "" {
      assert a + b == b && a + [space] + b == [space] + b;
    } else {
      assert (a + [space] + b)[1..] == a[1..] + [space] + b && (a + b)[1..] == a[1..] + b;
      SpacesAnywhere(a[1..], space, b);
    }
  }

  /** Each accepted counter is greater than every one accepted before it. */
  predicate AcceptedOnce(attempts: seq<Attempt>) {
    forall i, j :: 0 <= i < j < |attempts| && Accepted(attempts[i]) && Accepted(attempts[j]) ==>
      attempts[i].outcome.value.counter < attempts[j].outcome.value.counter
  }

  /** What the attempt writes is above what is stored at that moment. */
  predicate WritesAbove(attempt: Attempt, before: Option<int>, p: Parameters)
    requires p.Valid()
  {
    Accepted(attempt) && before.Some? ==> LastCounter(before, p).value < attempt.outcome.value.counter
  }

  /** The factor holds the counter of the last attempt accepted. */
  lemma {:induction false} HoldsLastAccepted(
      mac: Mac, key: seq<Byte>, p: Parameters, attempts: seq<Attempt>, moments: seq<Option<int>>, n: nat)
    requires p.Valid() && IsLife(mac, key, p, attempts, moments) && n <= |attempts|
    ensures moments[n].Some? ==> exists i ::
              && 0 <= i < n && IsLastAccepted(attempts, i, n)
              && LastCounter(moments[n], p) == Some(attempts[i].outcome.value.counter)
    ensures moments[n].None? ==> forall i :: 0 <= i < n ==> !Accepted(attempts[i])
  {
    hide IsOutcome;
    if n > 0 {
      HoldsLastAccepted(mac, key, p, attempts, moments, n - 1);
      var a := attempts[n - 1];
      assert IsAttempt(mac, key, p, a, moments[a.readAt], moments[n - 1], moments[n]);
      if Accepted(a) {
        StoredCounter(a.outcome.value.counter, p);
        assert IsLastAccepted(attempts, n - 1, n);
      } else if moments[n].Some? {
        var i :| 0 <= i < n - 1 && IsLastAccepted(attempts, i, n - 1)
                 && LastCounter(moments[n - 1], p) == Some(attempts[i].outcome.value.counter);
        assert IsLastAccepted(attempts, i, n);
      }
    }
  }

  predicate IsLastAccepted(attempts: seq<Attempt>, i: nat, n: nat)
    requires i < n <= |attempts|
  {
    Accepted(attempts[i]) && forall m :: i < m < n ==> !Accepted(attempts[m])
  }

  /**
   * However reads and writes of different attempts interleave, accepted counters increase exactly when every
   * accepted counter is above the one stored when it is written.
   */
  lemma AcceptedOnceIff(mac: Mac, key: seq<Byte>, p: Parameters, attempts: seq<Attempt>, moments: seq<Option<int>>)
    requires p.Valid() && IsLife(mac, key, p, attempts, moments)
    ensures AcceptedOnce(attempts) <==>
            forall i :: 0 <= i < |attempts| ==> WritesAbove(attempts[i], moments[i], p)
  {
    hide IsOutcome;
    if AcceptedOnce(attempts) {
      forall j | 0 <= j < |attempts| ensures WritesAbove(attempts[j], moments[j], p) {
        HoldsLastAccepted(mac, key, p, attempts, moments, j);
      }
    }
    if forall i :: 0 <= i < |attempts| ==> WritesAbove(attempts[i], moments[i], p) {
      forall i, j | 0 <= i < j < |attempts| && Accepted(attempts[i]) && Accepted(attempts[j])
        ensures attempts[i].outcome.value.counter < attempts[j].outcome.value.counter
      {
        StoredIsGreatest(mac, key, p, attempts, moments, i, j);
      }
    }
  }

  lemma {:induction false} StoredIsGreatest(
      mac: Mac, key: seq<Byte>, p: Parameters, attempts: seq<Attempt>, moments: seq<Option<int>>, i: nat, n: nat)
    requires p.Valid() && IsLife(mac, key, p, attempts, moments) && i < n <= |attempts| && Accepted(attempts[i])
    requires forall m :: 0 <= m < |attempts| ==> WritesAbove(attempts[m], moments[m], p)
    ensures LastCounter(moments[n], p).Some? && attempts[i].outcome.value.counter <= LastCounter(moments[n], p).value
  {
    hide IsOutcome;
    var a := attempts[n - 1];
    assert IsAttempt(mac, key, p, a, moments[a.readAt], moments[n - 1], moments[n]);
    if Accepted(a) { StoredCounter(a.outcome.value.counter, p); }
    if i < n - 1 {
      StoredIsGreatest(mac, key, p, attempts, moments, i, n - 1);
      assert WritesAbove(a, moments[n - 1], p);
    }
  }

  /** No other attempt was accepted between an accepted attempt's read and its write. */
  predicate NoneOverlap(attempts: seq<Attempt>) {
    forall i, m :: 0 <= i < |attempts| && Accepted(attempts[i]) && attempts[i].readAt <= m < i ==>
      !Accepted(attempts[m])
  }

  lemma {:induction false} UnchangedSince(
      mac: Mac, key: seq<Byte>, p: Parameters, attempts: seq<Attempt>, moments: seq<Option<int>>, i: nat, n: nat)
    requires p.Valid() && IsLife(mac, key, p, attempts, moments) && i <= n <= |attempts|
    requires forall m :: i <= m < n ==> !Accepted(attempts[m])
    ensures moments[n] == moments[i]
    decreases n
  {
    hide IsOutcome;
    if i < n {
      UnchangedSince(mac, key, p, attempts, moments, i, n - 1);
      var a := attempts[n - 1];
      assert IsAttempt(mac, key, p, a, moments[a.readAt], moments[n - 1], moments[n]);
    }
  }

  /** Over a factor's life, while accepted attempts do not overlap, each accepted counter is above all before it. */
  lemma AcceptedCountersIncrease(
      mac: Mac, key: seq<Byte>, p: Parameters, attempts: seq<Attempt>, moments: seq<Option<int>>)
    requires p.Valid() && IsLife(mac, key, p, attempts, moments) && NoneOverlap(attempts)
    ensures AcceptedOnce(attempts)
  {
    hide IsOutcome;
    forall i | 0 <= i < |attempts| ensures WritesAbove(attempts[i], moments[i], p) {
      var a := attempts[i];
      if Accepted(a) {
        assert IsAttempt(mac, key, p, a, moments[a.readAt], moments[i], moments[i + 1]);
        ReplayedIff(mac, key, WithoutSpaces(a.typed), p, CounterAt(a.at, p.stepSeconds),
                           LastCounter(moments[a.readAt], p), a.outcome);
        UnchangedSince(mac, key, p, attempts, moments, a.readAt, i);
      }
    }
    AcceptedOnceIff(mac, key, p, attempts, moments);
  }

  /** At any point of a life, an attempt that is accepted once is accepted twice when both read before either writes. */
  lemma ReadTogether(
      mac: Mac, key: seq<Byte>, p: Parameters, attempts: seq<Attempt>, moments: seq<Option<int>>, a: Attempt)
    requires p.Valid() && IsLife(mac, key, p, attempts, moments) && a.readAt == |attempts| && Accepted(a)
    requires IsOutcome(mac, key, WithoutSpaces(a.typed), p, CounterAt(a.at, p.stepSeconds),
                       LastCounter(moments[|attempts|], p), a.outcome)
    ensures var stored := Some(StoredMoment(a.outcome.value.counter, p));
            IsLife(mac, key, p, attempts + [a, a], moments + [stored, stored])
    ensures !AcceptedOnce(attempts + [a, a])
  {
    hide IsOutcome;
    var n, stored := |attempts|, Some(StoredMoment(a.outcome.value.counter, p));
    var all, held := attempts + [a, a], moments + [stored, stored];
    forall i | 0 <= i < |all|
      ensures all[i].readAt <= i && IsAttempt(mac, key, p, all[i], held[all[i].readAt], held[i], held[i + 1])
    {
      if i < n { assert all[i] == attempts[i] && held[i] == moments[i] && held[i + 1] == moments[i + 1]; }
    }
    assert all[n] == a && all[n + 1] == a;
  }

  lemma {:induction false} DigitsHaveNoSpaces(s: string)
    requires IsDecimal(s)
    ensures WithoutSpaces(s) == s
  {
    if s != "" {
      assert s[0] in s;
      assert forall c :: c in s[1..] ==> c in s;
      DigitsHaveNoSpaces(s[1..]);
      assert s == [s[0]] + s[1..];
    }
  }

  /** The code of the window's earliest step, presented for the first time. */
  lemma EarliestAccepted(mac: Mac, key: seq<Byte>, p: Parameters, now: int)
    requires p.Valid() && p.window <= now < WORD * WORD
    ensures var code := Hotp(mac, key, now - p.window, p.digits);
            code.Ok? && IsOutcome(mac, key, WithoutSpaces(code.value), p, now, None, Ok(Valid(now - p.window)))
  {
    hide Hotp;
    CodeIsNumber(mac, key, now - p.window, p.digits);
    var typed := Hotp(mac, key, now - p.window, p.digits).value;
    DigitsHaveNoSpaces(typed);
    assert FirstStop(mac, key, typed, p, now, now - p.window);
  }

  /** Presented twice to an unused factor it makes a whole life of two acceptances. */
  lemma OneCodeTwice(mac: Mac, key: seq<Byte>, p: Parameters, at: int)
    requires p.Valid() && p.window <= CounterAt(at, p.stepSeconds) && CounterAt(at, p.stepSeconds) < WORD * WORD
    ensures var first := CounterAt(at, p.stepSeconds) - p.window;
            var code := Hotp(mac, key, first, p.digits);
            code.Ok? &&
            var a := Attempt(code.value, at, 0, Ok(Valid(first)));
            var stored := Some(StoredMoment(first, p));
            IsLife(mac, key, p, [a, a], [None, stored, stored]) && !AcceptedOnce([a, a])
  {
    hide Hotp, IsOutcome, AcceptedOnce, CounterAt, StoredMoment;
    var now := CounterAt(at, p.stepSeconds);
    EarliestAccepted(mac, key, p, now);
    var a := Attempt(Hotp(mac, key, now - p.window, p.digits).value, at, 0, Ok(Valid(now - p.window)));
    ReadTogether(mac, key, p, [], [None], a);
    assert [] + [a, a] == [a, a];
    var stored := Some(StoredMoment(now - p.window, p));
    assert [None] + [stored, stored] == [None, stored, stored];
  }
}
