/** Replay protection of the signed protocol: `NonceCache.consume` and the freshness checks of
    `verify_message`. */
module Replay {
  const MAX_TIMESTAMP: int := 0x7FFF_FFFF_FFFF_FFFF
  const MAX_AGE_LIMIT: int := 86_400

  type Entries = map<string, int>

  datatype Outcome = Accepted | InvalidArguments | Expired | TooFarInFuture | Replayed | CapacityExceeded

  predicate TimestampValid(t: int) {
    0 <= t <= MAX_TIMESTAMP
  }

  /** The entries that are still inside the replay window. */
  function Live(entries: Entries, now: int): Entries {
    map nonce | nonce in entries && now <= entries[nonce] :: entries[nonce]
  }

  /** What `consume` answers, and the entries it leaves. */
  function ConsumeOutcome(entries: Entries, capacity: nat, nonce: string, now: int): Outcome {
    if nonce in Live(entries, now) then Replayed
    else if capacity <= |Live(entries, now)| then CapacityExceeded
    else Accepted
  }

  function Consumed(entries: Entries, capacity: nat, nonce: string, timestamp: int, now: int, maxAge: int): Entries {
    if ConsumeOutcome(entries, capacity, nonce, now) == Accepted
    then Live(entries, now)[nonce := timestamp + maxAge]
    else Live(entries, now)
  }

  /** A request whose signature and schema were found valid. */
  datatype Message = Message(nonce: string, timestamp: int)

  function VerifyOutcome(entries: Entries, capacity: nat, m: Message, now: int, maxAge: int): Outcome {
    if !TimestampValid(now) || !(0 <= maxAge <= MAX_AGE_LIMIT) then InvalidArguments
    else if m.timestamp < now - maxAge then Expired
    else if now + maxAge < m.timestamp then TooFarInFuture
    else ConsumeOutcome(entries, capacity, m.nonce, now)
  }

  function Verified(entries: Entries, capacity: nat, m: Message, now: int, maxAge: int): Entries {
    if !TimestampValid(now) || !(0 <= maxAge <= MAX_AGE_LIMIT) || m.timestamp < now - maxAge
       || now + maxAge < m.timestamp then entries
    else Consumed(entries, capacity, m.nonce, m.timestamp, now, maxAge)
  }

  class NonceCache {
    const maxEntries: nat
    var entries: Entries

    ghost predicate Valid()
      reads this
    {
      |entries| <= maxEntries
    }

    constructor (maxEntries: nat)
      requires 0 < maxEntries
      ensures Valid() && entries == map[] && this.maxEntries == maxEntries
    {
      this.maxEntries := maxEntries;
      this.entries := map[];
    }

    /** `consume`: evict what has expired, then record the nonce or refuse it. */
    method Consume(nonce: string, timestamp: int, now: int, maxAge: int) returns (r: Outcome)
      requires Valid()
      modifies this
      ensures Valid()
      ensures r == ConsumeOutcome(old(entries), maxEntries, nonce, now)
      ensures entries == Consumed(old(entries), maxEntries, nonce, timestamp, now, maxAge)
    {
      ghost var before := entries;
      var expired := ExpiredKeys(entries, now);
      while expired != {}
        invariant expired <= set key | key in before && before[key] < now
        invariant entries == map key | key in before && (now <= before[key] || key in expired) :: before[key]
        invariant |entries| <= maxEntries
        decreases |expired|
      {
        var key :| key in expired;
        SmallerWithout(entries, key);
        entries := entries - {key};
        expired := expired - {key};
      }
      assert entries == Live(before, now);
      if nonce in entries {
        return Replayed;
      }
      if maxEntries <= |entries| {
        return CapacityExceeded;
      }
      entries := entries[nonce := timestamp + maxAge];
      r := Accepted;
    }

    static method ExpiredKeys(entries: Entries, now: int) returns (expired: set<string>)
      ensures expired == set key | key in entries && entries[key] < now
    {
      var pending := entries.Keys;
      expired := {};
      while pending != {}
        invariant pending <= entries.Keys
        invariant expired == set key | key in entries && key !in pending && entries[key] < now
        decreases |pending|
      {
        var key :| key in pending;
        if entries[key] < now {
          expired := expired + {key};
        }
        pending := pending - {key};
      }
    }

    static lemma SmallerWithout(m: Entries, key: string)
      ensures |m - {key}| <= |m|
    {
      assert (m - {key}).Keys == m.Keys - {key};
      assert |m.Keys - {key}| <= |m.Keys|;
    }

    /** `verify_message` from the freshness checks on. */
    method Verify(m: Message, now: int, maxAge: int) returns (r: Outcome)
      requires Valid()
      modifies this
      ensures Valid()
      ensures r == VerifyOutcome(old(entries), maxEntries, m, now, maxAge)
      ensures entries == Verified(old(entries), maxEntries, m, now, maxAge)
    {
      if !TimestampValid(now) || !(0 <= maxAge <= MAX_AGE_LIMIT) {
        return InvalidArguments;
      }
      if m.timestamp < now - maxAge {
        return Expired;
      }
      if now + maxAge < m.timestamp {
        return TooFarInFuture;
      }
      r := Consume(m.nonce, m.timestamp, now, maxAge);
    }
  }

  // ----- whole runs -----

  /** One verification attempt: a message, and the server's clock when it is consumed. */
  datatype Attempt = Attempt(message: Message, now: int)

  function EntriesAfter(attempts: seq<Attempt>, capacity: nat, maxAge: int): Entries {
    if attempts == [] then map[]
    else
      var last := attempts[|attempts| - 1];
      Verified(EntriesAfter(attempts[..|attempts| - 1], capacity, maxAge), capacity, last.message, last.now, maxAge)
  }

  /** How the attempt at `i` was answered. */
  function OutcomeAt(attempts: seq<Attempt>, i: nat, capacity: nat, maxAge: int): Outcome
    requires i < |attempts|
  {
    VerifyOutcome(EntriesAfter(attempts[..i], capacity, maxAge), capacity, attempts[i].message, attempts[i].now, maxAge)
  }

  ghost predicate ClockNeverGoesBack(attempts: seq<Attempt>) {
    forall i, j | 0 <= i <= j < |attempts| :: attempts[i].now <= attempts[j].now
  }

  lemma CapacityKept(entries: Entries, capacity: nat, m: Message, now: int, maxAge: int)
    requires |entries| <= capacity
    ensures |Verified(entries, capacity, m, now, maxAge)| <= capacity
  {
    assert Live(entries, now).Keys <= entries.Keys;
    SubsetSize(Live(entries, now).Keys, entries.Keys);
    assert |Live(entries, now)| == |Live(entries, now).Keys|;
  }

  lemma {:induction false} SubsetSize<T>(a: set<T>, b: set<T>)
    requires a <= b
    ensures |a| <= |b|
    decreases a
  {
    if a != {} {
      var x :| x in a;
      SubsetSize(a - {x}, b - {x});
    }
  }

  /** The cache never holds more than its capacity, in any run, with any clock. */
  lemma {:induction false} NeverOverCapacity(attempts: seq<Attempt>, capacity: nat, maxAge: int)
    ensures |EntriesAfter(attempts, capacity, maxAge)| <= capacity
  {
    if attempts != [] {
      var last := attempts[|attempts| - 1];
      NeverOverCapacity(attempts[..|attempts| - 1], capacity, maxAge);
      CapacityKept(EntriesAfter(attempts[..|attempts| - 1], capacity, maxAge), capacity, last.message, last.now, maxAge);
    }
  }

  // ----- which messages a run remembers -----

  function Expiry(a: Attempt, maxAge: int): int {
    a.message.timestamp + maxAge
  }

  /** The attempt passes the freshness checks and reaches the cache. */
  predicate Timely(a: Attempt, maxAge: int) {
    && TimestampValid(a.now) && 0 <= maxAge <= MAX_AGE_LIMIT
    && a.now - maxAge <= a.message.timestamp <= a.now + maxAge
  }

  /** The message accepted at i is still remembered after all the attempts: none of those that reached
      the cache since ran at a clock past its expiry. */
  ghost predicate Held(attempts: seq<Attempt>, i: nat, capacity: nat, maxAge: int) {
    && i < |attempts| && OutcomeAt(attempts, i, capacity, maxAge) == Accepted
    && forall k | i < k < |attempts| && Timely(attempts[k], maxAge) :: attempts[k].now <= Expiry(attempts[i], maxAge)
  }

  /** The nonces of the accepted messages that are remembered and not expired at a given time. */
  ghost function LiveNonces(attempts: seq<Attempt>, now: int, capacity: nat, maxAge: int): set<string> {
    set i: nat | i < |attempts| && Held(attempts, i, capacity, maxAge) && now <= Expiry(attempts[i], maxAge) ::
      attempts[i].message.nonce
  }

  lemma {:induction false} HeldIsEntry(attempts: seq<Attempt>, i: nat, capacity: nat, maxAge: int)
    requires Held(attempts, i, capacity, maxAge)
    ensures var entries := EntriesAfter(attempts, capacity, maxAge);
            var nonce := attempts[i].message.nonce;
            nonce in entries && entries[nonce] == Expiry(attempts[i], maxAge)
    decreases |attempts|
  {
    var before := attempts[..|attempts| - 1];
    if i < |before| {
      assert before[..i] == attempts[..i];
      HeldIsEntry(before, i, capacity, maxAge);
    }
  }

  lemma {:induction false} EntryIsHeld(attempts: seq<Attempt>, nonce: string, capacity: nat, maxAge: int) returns (i: nat)
    requires nonce in EntriesAfter(attempts, capacity, maxAge)
    ensures Held(attempts, i, capacity, maxAge) && attempts[i].message.nonce == nonce
    ensures Expiry(attempts[i], maxAge) == EntriesAfter(attempts, capacity, maxAge)[nonce]
    decreases |attempts|
  {
    var n := |attempts| - 1;
    var before, last := attempts[..n], attempts[n];
    if OutcomeAt(attempts, n, capacity, maxAge) == Accepted && last.message.nonce == nonce {
      i := n;
    } else {
      i := EntryIsHeld(before, nonce, capacity, maxAge);
      assert before[..i] == attempts[..i];
    }
  }

  lemma LiveEntriesAreHeld(attempts: seq<Attempt>, now: int, capacity: nat, maxAge: int)
    ensures Live(EntriesAfter(attempts, capacity, maxAge), now).Keys == LiveNonces(attempts, now, capacity, maxAge)
  {
    var entries := EntriesAfter(attempts, capacity, maxAge);
    hide EntriesAfter, Held;
    forall nonce | nonce in entries && now <= entries[nonce] ensures nonce in LiveNonces(attempts, now, capacity, maxAge) {
      var i := EntryIsHeld(attempts, nonce, capacity, maxAge);
      HeldInRange(attempts, i, capacity, maxAge);
    }
    forall i: nat | i < |attempts| && Held(attempts, i, capacity, maxAge) && now <= Expiry(attempts[i], maxAge)
      ensures attempts[i].message.nonce in Live(entries, now)
    {
      HeldIsEntry(attempts, i, capacity, maxAge);
    }
  }

  lemma HeldInRange(attempts: seq<Attempt>, i: nat, capacity: nat, maxAge: int)
    requires Held(attempts, i, capacity, maxAge)
    ensures i < |attempts|
  {
  }

  /** Every answer of every run, with any clock, in terms of the earlier accepted messages: a timely
      attempt is a replay exactly when one of them with its nonce is remembered and not expired, and
      finds no room exactly when those remembered and not expired fill the cache. */
  lemma AnswersByHistory(attempts: seq<Attempt>, j: nat, capacity: nat, maxAge: int)
    requires j < |attempts|
    ensures var a, live := attempts[j], LiveNonces(attempts[..j], attempts[j].now, capacity, maxAge);
            var outcome := OutcomeAt(attempts, j, capacity, maxAge);
            && (outcome == Replayed <==> Timely(a, maxAge) && a.message.nonce in live)
            && (outcome == CapacityExceeded <==> Timely(a, maxAge) && a.message.nonce !in live && capacity <= |live|)
            && (outcome == Accepted <==> Timely(a, maxAge) && a.message.nonce !in live && |live| < capacity)
    ensures var a, outcome := attempts[j], OutcomeAt(attempts, j, capacity, maxAge);
            var valid := TimestampValid(a.now) && 0 <= maxAge <= MAX_AGE_LIMIT;
            && (outcome == InvalidArguments <==> !valid)
            && (outcome == Expired <==> valid && a.message.timestamp + maxAge < a.now)
            && (outcome == TooFarInFuture <==> valid && a.now + maxAge < a.message.timestamp)
  {
    var now := attempts[j].now;
    LiveEntriesAreHeld(attempts[..j], now, capacity, maxAge);
    var entries := EntriesAfter(attempts[..j], capacity, maxAge);
    hide EntriesAfter, LiveNonces;
    assert |Live(entries, now)| == |Live(entries, now).Keys|;
  }

  // ----- replays -----

  /** Between i and j some attempt reached the cache at a clock past the expiry of the message at i. */
  ghost predicate Forgotten(attempts: seq<Attempt>, i: nat, j: nat, maxAge: int)
    requires i < j <= |attempts|
  {
    exists k :: i < k < j && Timely(attempts[k], maxAge) && Expiry(attempts[i], maxAge) < attempts[k].now
  }

  /** While nothing made the cache forget it, a message accepted once is refused, whatever the clock does. */
  lemma RefusedUnlessForgotten(attempts: seq<Attempt>, i: nat, j: nat, capacity: nat, maxAge: int)
    requires i < j < |attempts| && attempts[i].message == attempts[j].message
    requires OutcomeAt(attempts, i, capacity, maxAge) == Accepted && !Forgotten(attempts, i, j, maxAge)
    ensures OutcomeAt(attempts, j, capacity, maxAge) != Accepted
  {
    var before := attempts[..j];
    assert before[..i] == attempts[..i];
    assert Held(before, i, capacity, maxAge);
    AnswersByHistory(attempts, j, capacity, maxAge);
    hide Held, OutcomeAt;
    if Timely(attempts[j], maxAge) {
      assert before[i].message.nonce in LiveNonces(before, attempts[j].now, capacity, maxAge);
    }
  }

  /** The exact condition: a message accepted at i, and with its nonce not since, is accepted again at j,
      where it is timely and there is room, if and only if the cache was made to forget it in between. */
  lemma AcceptedAgainExactlyWhenForgotten(attempts: seq<Attempt>, i: nat, j: nat, capacity: nat, maxAge: int)
    requires i < j < |attempts| && attempts[i].message == attempts[j].message
    requires OutcomeAt(attempts, i, capacity, maxAge) == Accepted
    requires forall k | i < k < j && attempts[k].message.nonce == attempts[i].message.nonce ::
               OutcomeAt(attempts, k, capacity, maxAge) != Accepted
    requires Timely(attempts[j], maxAge)
    requires |LiveNonces(attempts[..j], attempts[j].now, capacity, maxAge)| < capacity
    ensures OutcomeAt(attempts, j, capacity, maxAge) == Accepted <==> Forgotten(attempts, i, j, maxAge)
  {
    if Forgotten(attempts, i, j, maxAge) {
      var before := attempts[..j];
      forall h: nat | h < j && Held(before, h, capacity, maxAge) ensures attempts[h].message.nonce != attempts[i].message.nonce {
        NotHeldBefore(attempts, h, i, j, capacity, maxAge);
      }
      AnswersByHistory(attempts, j, capacity, maxAge);
    } else {
      RefusedUnlessForgotten(attempts, i, j, capacity, maxAge);
    }
  }

  /** No other acceptance of the nonce is remembered: an earlier one was forgotten before i. */
  lemma NotHeldBefore(attempts: seq<Attempt>, h: nat, i: nat, j: nat, capacity: nat, maxAge: int)
    requires h < j && i < j < |attempts| && Held(attempts[..j], h, capacity, maxAge)
    requires OutcomeAt(attempts, i, capacity, maxAge) == Accepted && Forgotten(attempts, i, j, maxAge)
    requires forall k | i < k < j && attempts[k].message.nonce == attempts[i].message.nonce ::
               OutcomeAt(attempts, k, capacity, maxAge) != Accepted
    ensures attempts[h].message.nonce != attempts[i].message.nonce
  {
    HeldWasAccepted(attempts, h, j, capacity, maxAge);
    if h < i {
      EarlierWasForgotten(attempts, h, i, j, capacity, maxAge);
    } else {
      HeldIsNotForgotten(attempts, h, j, capacity, maxAge);
    }
  }

  lemma HeldWasAccepted(attempts: seq<Attempt>, h: nat, j: nat, capacity: nat, maxAge: int)
    requires h < j <= |attempts| && Held(attempts[..j], h, capacity, maxAge)
    ensures OutcomeAt(attempts, h, capacity, maxAge) == Accepted
  {
    assert attempts[..j][..h] == attempts[..h];
  }

  lemma HeldIsNotForgotten(attempts: seq<Attempt>, h: nat, j: nat, capacity: nat, maxAge: int)
    requires h < j <= |attempts| && Held(attempts[..j], h, capacity, maxAge)
    ensures !Forgotten(attempts, h, j, maxAge)
  {
    hide OutcomeAt;
    var before := attempts[..j];
    forall k | h < k < j && Timely(attempts[k], maxAge) ensures attempts[k].now <= Expiry(attempts[h], maxAge) {
      assert before[k] == attempts[k];
    }
  }

  /** Had it still been remembered at i, the message there would have been a replay. */
  lemma EarlierWasForgotten(attempts: seq<Attempt>, h: nat, i: nat, j: nat, capacity: nat, maxAge: int)
    requires h < i < j <= |attempts| && Held(attempts[..j], h, capacity, maxAge)
    requires OutcomeAt(attempts, i, capacity, maxAge) == Accepted
    ensures attempts[h].message.nonce != attempts[i].message.nonce
  {
    var before, earlier := attempts[..j], attempts[..i];
    AnswersByHistory(attempts, i, capacity, maxAge);
    HeldWasAccepted(attempts, h, j, capacity, maxAge);
    assert earlier[..h] == attempts[..h];
    hide EntriesAfter, VerifyOutcome;
    assert before[i] == attempts[i];
    forall k | h < k < i ensures before[k] == earlier[k] {
    }
    assert Held(earlier, h, capacity, maxAge);
    assert earlier[h].message.nonce in LiveNonces(earlier, attempts[i].now, capacity, maxAge);
  }

  /** While the clock does not go back and the window is fixed, no message is accepted twice, although
      entries are evicted. */
  lemma NoReplay(attempts: seq<Attempt>, i: nat, j: nat, capacity: nat, maxAge: int)
    requires i < j < |attempts| && ClockNeverGoesBack(attempts)
    requires attempts[i].message == attempts[j].message
    requires OutcomeAt(attempts, i, capacity, maxAge) == Accepted
    ensures OutcomeAt(attempts, j, capacity, maxAge) != Accepted
  {
    AnswersByHistory(attempts, j, capacity, maxAge);
    if Timely(attempts[j], maxAge) {
      assert !Forgotten(attempts, i, j, maxAge);
      RefusedUnlessForgotten(attempts, i, j, capacity, maxAge);
    }
  }

  /** The condition on the clock is needed: one step back after an eviction lets a replay through. */
  lemma ClockGoingBackAdmitsReplay()
    ensures exists attempts: seq<Attempt>, capacity: nat, maxAge: int ::
              && |attempts| == 3
              && attempts[0].message == attempts[2].message
              && OutcomeAt(attempts, 0, capacity, maxAge) == Accepted
              && OutcomeAt(attempts, 2, capacity, maxAge) == Accepted
  {
    var m, other := Message("a", 100), Message("b", 140);
    var attempts := [Attempt(m, 100), Attempt(other, 140), Attempt(m, 120)];
    var one, two := [Attempt(m, 100)], [Attempt(m, 100), Attempt(other, 140)];
    assert attempts[..0] == [] && attempts[..2] == two;
    FirstEntry(map[], m, 100);
    AppendedAttempt([], Attempt(m, 100));
    FirstEntry(map["a" := 130], other, 140);
    AppendedAttempt(one, Attempt(other, 140));
    assert one + [Attempt(other, 140)] == two && [] + one == one;
    assert Live(map["b" := 170], 120) == map["b" := 170];
    assert "a" != "b";
    assert OutcomeAt(attempts, 0, 10, 30) == Accepted;
    assert OutcomeAt(attempts, 2, 10, 30) == Accepted;
  }

  lemma FirstEntry(entries: Entries, m: Message, now: int)
    requires (forall nonce | nonce in entries :: entries[nonce] < now) && m.timestamp == now && TimestampValid(now)
    ensures VerifyOutcome(entries, 10, m, now, 30) == Accepted
    ensures Verified(entries, 10, m, now, 30) == map[m.nonce := now + 30]
  {
    assert Live(entries, now) == map[];
  }

  lemma AppendedAttempt(attempts: seq<Attempt>, a: Attempt)
    ensures EntriesAfter(attempts + [a], 10, 30) == Verified(EntriesAfter(attempts, 10, 30), 10, a.message, a.now, 30)
  {
    assert (attempts + [a])[..|attempts + [a]| - 1] == attempts;
  }

  // ----- refusals of new messages -----

  /** The nonces of earlier accepted messages that are not yet out of their window. */
  ghost function AcceptedNonces(attempts: seq<Attempt>, now: int, capacity: nat, maxAge: int): set<string> {
    set i: nat | i < |attempts| && OutcomeAt(attempts, i, capacity, maxAge) == Accepted
                 && now <= Expiry(attempts[i], maxAge) ::
      attempts[i].message.nonce
  }

  lemma LiveAreAccepted(attempts: seq<Attempt>, now: int, capacity: nat, maxAge: int)
    ensures LiveNonces(attempts, now, capacity, maxAge) <= AcceptedNonces(attempts, now, capacity, maxAge)
  {
  }

  /** With a clock that does not go back, nothing is forgotten before it expires. */
  lemma AcceptedAreLive(attempts: seq<Attempt>, now: int, capacity: nat, maxAge: int)
    requires forall k | 0 <= k < |attempts| :: attempts[k].now <= now
    ensures LiveNonces(attempts, now, capacity, maxAge) == AcceptedNonces(attempts, now, capacity, maxAge)
  {
    forall i: nat | i < |attempts| && OutcomeAt(attempts, i, capacity, maxAge) == Accepted && now <= Expiry(attempts[i], maxAge)
      ensures Held(attempts, i, capacity, maxAge)
    {
    }
    hide OutcomeAt;
  }

  /** In any run, a timely message whose nonce was in no accepted attempt before is refused only when at
      least `capacity` nonces of accepted messages are still inside their window. */
  lemma NewRefusedOnlyWhenFull(attempts: seq<Attempt>, j: nat, capacity: nat, maxAge: int)
    requires j < |attempts| && Timely(attempts[j], maxAge)
    requires forall i | 0 <= i < j && attempts[i].message.nonce == attempts[j].message.nonce ::
               OutcomeAt(attempts, i, capacity, maxAge) != Accepted
    ensures OutcomeAt(attempts, j, capacity, maxAge) != Accepted ==>
              capacity <= |AcceptedNonces(attempts[..j], attempts[j].now, capacity, maxAge)|
    ensures ClockNeverGoesBack(attempts) ==>
              (OutcomeAt(attempts, j, capacity, maxAge) != Accepted <==>
               capacity <= |AcceptedNonces(attempts[..j], attempts[j].now, capacity, maxAge)|)
  {
    var before, now := attempts[..j], attempts[j].now;
    AnswersByHistory(attempts, j, capacity, maxAge);
    LiveAreAccepted(before, now, capacity, maxAge);
    NewIsNotLive(attempts, j, capacity, maxAge);
    SubsetSize(LiveNonces(before, now, capacity, maxAge), AcceptedNonces(before, now, capacity, maxAge));
    if ClockNeverGoesBack(attempts) {
      AcceptedAreLive(before, now, capacity, maxAge);
    }
  }

  lemma NewIsNotLive(attempts: seq<Attempt>, j: nat, capacity: nat, maxAge: int)
    requires j < |attempts|
    requires forall i | 0 <= i < j && attempts[i].message.nonce == attempts[j].message.nonce ::
               OutcomeAt(attempts, i, capacity, maxAge) != Accepted
    ensures attempts[j].message.nonce !in LiveNonces(attempts[..j], attempts[j].now, capacity, maxAge)
  {
    var before := attempts[..j];
    forall i: nat | i < j && Held(before, i, capacity, maxAge) ensures attempts[i].message.nonce != attempts[j].message.nonce {
      assert before[..i] == attempts[..i];
    }
  }
}
