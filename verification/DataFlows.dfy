/**
 `data_flow`: how many bytes passed in the last minute, kept in one slot per second
 (src/applutil.cpp:635-700).  The reference is the plain log of everything added.
 */
module DataFlows {
  import opened Bytes

  const SLOTS: nat := 60

  type Size = n: nat | n < 0x1_0000_0000_0000_0000

  datatype Entry = Entry(stamp: nat, count: Size)

  // ---------------------------------------------------------------- the reference

  /** Everything logged after second lo, up to and including second hi. */
  function Total(log: seq<Entry>, lo: int, hi: int): nat {
    if log == [] then 0
    else
      var e := log[|log| - 1];
      Total(log[..|log| - 1], lo, hi) + if lo < e.stamp <= hi then e.count else 0
  }

  /** Everything logged in the minute that ends with second t. */
  function LastMinute(log: seq<Entry>, t: nat): nat {
    Total(log, t - 60, t)
  }

  function At(log: seq<Entry>, second: int): nat {
    Total(log, second - 1, second)
  }

  // ---------------------------------------------------------------- slots

  /** The second of the minute ending with t that slot i stands for. */
  function Second(t: nat, i: nat): (s: int)
    ensures t - SLOTS < s <= t
  {
    t - (t - i) % SLOTS
  }

  lemma SecondUnique(t: nat, i: nat, s: int)
    requires i < SLOTS && t - SLOTS < s <= t
    ensures Second(t, i) == s <==> s % SLOTS == i
  {
  }

  lemma SecondNext(t: nat, i: nat)
    requires i < SLOTS
    ensures Second(t + 1, i) == if (t + 1) % SLOTS == i then t + 1 else Second(t, i)
  {
    if (t + 1) % SLOTS == i {
      SecondUnique(t + 1, i, t + 1);
    } else {
      var s := Second(t, i);
      SecondUnique(t, i, s);
      SecondUnique(t + 1, i, s);
    }
  }

  lemma ClockHand(t: nat, now: nat)
    requires t <= now < t + SLOTS
    ensures t % SLOTS == now % SLOTS <==> t == now
    ensures (t % SLOTS + 1) % SLOTS == (t + 1) % SLOTS
  {
  }

  function SlotSum(log: seq<Entry>, t: nat, n: nat): nat
    requires n <= SLOTS
  {
    if n == 0 then 0 else SlotSum(log, t, n - 1) + At(log, Second(t, n - 1))
  }

  /** An entry is counted in one slot, if it is in the minute at all. */
  lemma {:induction false} SlotSumAppend(log: seq<Entry>, e: Entry, t: nat, n: nat)
    requires n <= SLOTS
    ensures SlotSum(log + [e], t, n)
         == SlotSum(log, t, n) + if t - SLOTS < e.stamp <= t && e.stamp % SLOTS < n then e.count else 0
    decreases n, log, t
  {
    if n > 0 {
      SlotSumAppend(log, e, t, n - 1);
      assert (log + [e])[..|log|] == log;
      if t - SLOTS < e.stamp <= t {
        SecondUnique(t, n - 1, e.stamp);
      }
    }
  }

  /** The slots together are the minute. */
  lemma {:induction false} SlotsAreTheMinute(log: seq<Entry>, t: nat)
    ensures SlotSum(log, t, SLOTS) == LastMinute(log, t)
  {
    if log == [] {
      EmptyLog(t, SLOTS);
    } else {
      var n := |log| - 1;
      SlotsAreTheMinute(log[..n], t);
      SlotSumAppend(log[..n], log[n], t, SLOTS);
      assert log[..n] + [log[n]] == log;
    }
  }

  lemma {:induction false} EmptyLog(t: nat, n: nat)
    requires n <= SLOTS
    ensures SlotSum([], t, n) == 0
    decreases n, t
  {
    if n > 0 {
      EmptyLog(t, n - 1);
    }
  }

  /** Nothing is logged for a second that has not come yet. */
  lemma {:induction false} NothingLater(log: seq<Entry>, stamp: nat, s: int)
    requires s > stamp && forall e :: e in log ==> e.stamp <= stamp
    ensures At(log, s) == 0
  {
    if log != [] {
      NothingLater(log[..|log| - 1], stamp, s);
      assert log[|log| - 1] in log;
    }
  }

  lemma Wrapped(a: nat, b: nat)
    ensures (a % WORD + b) % WORD == (a + b) % WORD
  {
    var q, m := a / WORD, a % WORD;
    assert a + b == q * WORD + (m + b);
    ModShift(q, m + b);
  }

  lemma {:induction false} ModShift(q: nat, x: nat)
    ensures (q * WORD + x) % WORD == x % WORD
  {
    if q > 0 {
      ModShift(q - 1, x);
      assert q * WORD + x == ((q - 1) * WORD + x) + WORD;
    }
  }

  lemma NoSlots(log: seq<Entry>, t: nat)
    ensures SlotSum(log, t, 0) == 0
  {
  }

  lemma SlotAdded(log: seq<Entry>, t: nat, n: nat)
    requires n < SLOTS
    ensures (SlotSum(log, t, n) % WORD + At(log, Second(t, n)) % WORD) % WORD == SlotSum(log, t, n + 1) % WORD
  {
    hide At, Second;
    var a, b := SlotSum(log, t, n), At(log, Second(t, n));
    assert SlotSum(log, t, n + 1) == a + b;
    WrappedBoth(a, b);
  }

  lemma WrappedBoth(a: nat, b: nat)
    ensures (a % WORD + b % WORD) % WORD == (a + b) % WORD
  {
    Wrapped(a, b % WORD);
    Wrapped(b, a);
  }

  // ---------------------------------------------------------------- the ring

  class DataFlow {
    const buffer: array<Size>
    var stamp: nat
    ghost var log: seq<Entry>      // what was added since the last clear
    ghost var clock: nat           // when the ring was last used

    /** Slot i holds what was logged for the second it stands for.  `stamp` may lag behind. */
    ghost predicate Valid()
      reads this, buffer
    {
      && buffer.Length == SLOTS && stamp <= clock
      && (forall e :: e in log ==> e.stamp <= stamp)
      && forall i: nat :: i < SLOTS ==> buffer[i] == At(log, Second(clock, i)) % WORD
    }

    constructor (now: nat)
      ensures Valid() && fresh(buffer) && log == [] && clock == now
    {
      var b := new Size[SLOTS](i => 0);
      buffer, stamp, log, clock := b, now, [], now;
    }

    method Clear()
      requires Valid()
      modifies this`log, buffer
      ensures Valid() && log == []
    {
      for index := 0 to SLOTS
        invariant forall i :: 0 <= i < index ==> buffer[i] == 0
      {
        buffer[index] := 0;
      }
      log := [];
    }

    /** Empties the slots whose second has come round since `stamp`. */
    method Cleanup(now: nat)
      requires buffer.Length == SLOTS && stamp <= now
      modifies buffer
      ensures forall i: nat :: i < SLOTS ==> buffer[i] == if Second(now, i) > stamp then 0 else old(buffer[i])
    {
      hide Second;
      if now >= stamp + SLOTS {
        for index := 0 to SLOTS
          invariant forall i :: 0 <= i < index ==> buffer[i] == 0
        {
          buffer[index] := 0;
        }
      } else {
        var index, stop := stamp % SLOTS, now % SLOTS;
        ghost var at := stamp;
        while index != stop
          invariant stamp <= at <= now && index == at % SLOTS
          invariant forall i: nat :: i < SLOTS ==> buffer[i] == if Second(at, i) > stamp then 0 else old(buffer[i])
          decreases now - at
        {
          ClockHand(at, now);
          forall i: nat | i < SLOTS ensures Second(at + 1, i) == if (at + 1) % SLOTS == i then at + 1 else Second(at, i) {
            SecondNext(at, i);
          }
          index := (index + 1) % SLOTS;
          at := at + 1;
          buffer[index] := 0;
        }
        ClockHand(at, now);
      }
    }

    /** `Cleanup` brings the ring up to second `now`, although `stamp` stays. */
    twostate lemma CleanedUp(now: nat)
      requires old(Valid()) && old(clock) <= now == clock && stamp == old(stamp) && log == old(log)
      requires forall i: nat :: i < SLOTS ==> buffer[i] == if Second(now, i) > stamp then 0 else old(buffer[i])
      ensures Valid()
    {
      forall i: nat | i < SLOTS ensures buffer[i] == At(log, Second(now, i)) % WORD {
        var s := Second(now, i);
        if s > stamp {
          NothingLater(log, stamp, s);
        } else {
          assert s == Second(old(clock), i);
        }
      }
    }

    method Add(now: nat, count: Size)
      requires Valid() && now >= clock
      modifies this, buffer
      ensures Valid() && clock == now && log == old(log) + [Entry(now, count)]
    {
      Cleanup(now);
      clock := now;
      CleanedUp(now);
      var slot := now % SLOTS;
      ghost var before := log;
      buffer[slot] := (buffer[slot] + count) % WORD;
      stamp, log := now, log + [Entry(now, count)];
      assert log[..|before|] == before;
      forall i: nat | i < SLOTS ensures buffer[i] == At(log, Second(now, i)) % WORD {
        SecondUnique(now, i, now);
        Wrapped(At(before, now), count);
      }
    }

    method Get(now: nat) returns (value: Size)
      requires Valid() && now >= clock
      modifies this`clock, buffer
      ensures Valid() && clock == now
      ensures value == LastMinute(log, now) % WORD
    {
      hide SlotSum, At, LastMinute, Second;
      Cleanup(now);
      clock := now;
      CleanedUp(now);
      value := 0;
      NoSlots(log, now);
      for index := 0 to SLOTS
        modifies {}
        invariant value == SlotSum(log, now, index) % WORD
      {
        SlotAdded(log, now, index);
        value := (value + buffer[index]) % WORD;
      }
      SlotsAreTheMinute(log, now);
    }
  }

  // ---------------------------------------------------------------- whole histories

  datatype Op = Add(at: nat, count: Size) | Get(at: nat) | Clear

  /** The clock never runs backwards. */
  ghost predicate Chronological(start: nat, ops: seq<Op>) {
    && (forall j :: 0 <= j < |ops| && !ops[j].Clear? ==> start <= ops[j].at)
    && (forall i, j :: 0 <= i < j < |ops| && !ops[i].Clear? && !ops[j].Clear? ==> ops[i].at <= ops[j].at)
  }

  function Logged(ops: seq<Op>): seq<Entry> {
    if ops == [] then []
    else
      var before := Logged(ops[..|ops| - 1]);
      match ops[|ops| - 1]
      case Add(at, count) => before + [Entry(at, count)]
      case Get(_) => before
      case Clear => []
  }

  function Answers(ops: seq<Op>): seq<Size> {
    if ops == [] then []
    else
      var n := |ops| - 1;
      Answers(ops[..n]) + if ops[n].Get? then [LastMinute(Logged(ops[..n]), ops[n].at) % WORD] else []
  }

  /** Every history of adds, gets and clears is answered as the plain log would. */
  method Replay(start: nat, ops: seq<Op>) returns (answers: seq<Size>)
    requires Chronological(start, ops)
    ensures answers == Answers(ops)
  {
    var flow := new DataFlow(start);
    answers := [];
    for n := 0 to |ops|
      invariant flow.Valid() && fresh(flow) && fresh(flow.buffer)
      invariant flow.log == Logged(ops[..n]) && answers == Answers(ops[..n])
      invariant forall j :: n <= j < |ops| && !ops[j].Clear? ==> flow.clock <= ops[j].at
    {
      assert ops[..n + 1][..n] == ops[..n];
      match ops[n]
      case Add(at, count) => flow.Add(at, count);
      case Get(at) =>
        var answer := flow.Get(at);
        answers := answers + [answer];
      case Clear => flow.Clear();
    }
    assert ops[..|ops|] == ops;
  }
}
