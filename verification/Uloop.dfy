/** The timer list of uloop.c, which is kept in order by a comparison that drops microseconds. */
module Uloop {
  import opened Common

  datatype Time = Time(sec: int, usec: int)

  /** Division as in C, towards zero. */
  function Div(x: int, y: int): int
    requires y > 0
  {
    if x >= 0 then x / y else -(-x / y)
  }

  function Rem(x: int, y: int): int
    requires y > 0
  {
    x - Div(x, y) * y
  }

  /** tv_diff: milliseconds from b to a */
  function Diff(a: Time, b: Time): int {
    (a.sec - b.sec) * 1000 + Div(a.usec - b.usec, 1000)
  }

  /** The same in microseconds and exactly. */
  function Exact(a: Time, b: Time): int {
    (a.sec - b.sec) * 1000000 + (a.usec - b.usec)
  }

  /** What is lost has the sign of the difference of the microseconds. */
  lemma DiffExact(a: Time, b: Time)
    ensures var r := Exact(a, b) - 1000 * Diff(a, b);
            && (a.usec >= b.usec ==> 0 <= r < 1000) && (a.usec <= b.usec ==> -1000 < r <= 0)
  {
  }

  lemma DiffSigns(a: Time, b: Time)
    ensures Diff(a, b) == -Diff(b, a) && Diff(a, a) == 0
  {
  }

  /** Diff is not transitive: three times half a millisecond apart, the last of which is late. */
  lemma DiffNotTransitive()
    ensures var a, b, c := Time(0, 1200), Time(0, 600), Time(0, 0); Diff(a, b) <= 0 && Diff(b, c) <= 0 && Diff(a, c) > 0
  {
  }

  /** But a time that goes before f does not go behind anything that f goes before or is level with. */
  lemma BeforeRest(f: Time, x: Time, l: Time)
    requires Diff(f, x) > 0 && Diff(f, l) <= 0
    ensures Diff(x, l) <= 0
  {
    DiffExact(f, x);
    DiffExact(x, l);
    DiffExact(f, l);
  }

  function Inserted<T>(s: seq<T>, k: nat, x: T): seq<T>
    requires k <= |s|
  {
    s[..k] + [x] + s[k..]
  }

  /** Microseconds as the clock gives them, except that a full second may stand there. */
  predicate Normal(t: Time) { 0 <= t.usec <= 1000000 }

  /** If the first timer is not due, a timer behind it has no deadline before now, unless its microseconds are more
      than a second short of those of the clock. */
  lemma NoneOverdue(first: Time, y: Time, now: Time)
    requires Diff(first, now) > 0 && Diff(first, y) <= 0 && y.usec >= now.usec - 1000000
    ensures Exact(y, now) >= 0
  {
    DiffExact(first, now);
    DiffExact(first, y);
  }

  /** Whatever the times are, such a timer is overdue by less than a millisecond. */
  lemma HardlyOverdue(first: Time, y: Time, now: Time)
    requires Diff(first, now) > 0 && Diff(first, y) <= 0
    ensures Exact(y, now) > -999
  {
    DiffExact(first, now);
    DiffExact(first, y);
  }

  /** The last first timer that can hide y. */
  function Hiding(now: Time): Time { Time(now.sec + 1, now.usec - 999999) }

  lemma Hides(y: Time, now: Time)
    requires -999 < Exact(y, now) < 0 && y.usec < now.usec - 1000000
    ensures Diff(Hiding(now), now) > 0 && Diff(Hiding(now), y) <= 0
  {
    DiffExact(Hiding(now), y);
  }

  /** A timer can be overdue behind one that is not due exactly if it is late by less than a millisecond and its
      microseconds are more than a second short of those of the clock. */
  lemma OverdueExactly(y: Time, now: Time)
    ensures (Exact(y, now) < 0 && exists first: Time :: Diff(first, now) > 0 && Diff(first, y) <= 0)
       <==> (-999 < Exact(y, now) < 0 && y.usec < now.usec - 1000000)
  {
    if Exact(y, now) < 0 && exists first: Time :: Diff(first, now) > 0 && Diff(first, y) <= 0 {
      var first: Time :| Diff(first, now) > 0 && Diff(first, y) <= 0;
      HardlyOverdue(first, y, now);
      if y.usec >= now.usec - 1000000 {
        NoneOverdue(first, y, now);
      }
    }
    if -999 < Exact(y, now) < 0 && y.usec < now.usec - 1000000 {
      Hides(y, now);
    }
  }

  /** The time that uloop_timeout_set computes. */
  function SetTime(now: Time, msecs: int): Time {
    var sec, usec := now.sec + Div(msecs, 1000), now.usec + Rem(msecs, 1000) * 1000;
    if usec > 1000000 then Time(sec + 1, Rem(usec, 1000000)) else Time(sec, usec)
  }

  /** The deadline is exactly so much later, or earlier, for every delay; it is normal unless a negative delay takes
      more microseconds away than the clock shows. */
  lemma SetTimeIs(now: Time, msecs: int)
    requires 0 <= now.usec < 1000000
    ensures Exact(SetTime(now, msecs), now) == 1000 * msecs
    ensures Normal(SetTime(now, msecs)) <==> now.usec + Rem(msecs, 1000) * 1000 >= 0
  {
  }

  /** A timer that was set no later than now is never overdue behind one that is not due, whatever its delay. So this
      happens only to timers that a callback sets after the clock has been read. */
  lemma SetBefore(first: Time, clock: Time, msecs: int, now: Time)
    requires 0 <= clock.usec < 1000000 && 0 <= now.usec < 1000000 && Exact(now, clock) >= 0
    requires Diff(first, now) > 0 && Diff(first, SetTime(clock, msecs)) <= 0
    ensures Exact(SetTime(clock, msecs), now) >= 0
  {
    SetTimeIs(clock, msecs);
    if msecs >= 0 {
      NoneOverdue(first, SetTime(clock, msecs), now);
    } else {
      HardlyOverdue(first, SetTime(clock, msecs), now);
    }
  }

  class Timer {
    var time: Time
    var pending: bool

    constructor ()
      ensures !pending
    {
      time, pending := Time(0, 0), false;
    }
  }

  /** Every timer is level with or before each later one. */
  ghost predicate InOrder(ts: seq<Timer>)
    reads ts`time
  {
    forall i, j {:trigger Two(i, j)} :: Two(i, j) && 0 <= i < j < |ts| ==> Diff(ts[i].time, ts[j].time) <= 0
  }

  /** Position k is that of the first timer that is later than t. */
  ghost predicate Slot(ts: seq<Timer>, k: nat, t: Timer)
    reads ts`time, t`time
  {
    && k <= |ts| && (forall i :: 0 <= i < k ==> Diff(ts[i].time, t.time) <= 0)
    && (k < |ts| ==> Diff(ts[k].time, t.time) > 0)
  }

  /** A timer that goes before the k-th one goes before all from there on. */
  lemma BeforeAll(ts: seq<Timer>, k: nat, t: Timer, j: nat)
    requires InOrder(ts) && k <= j < |ts| && Diff(ts[k].time, t.time) > 0
    ensures Diff(t.time, ts[j].time) <= 0 && ts[j].time != t.time
  {
    DiffSigns(ts[k].time, t.time);
    DiffSigns(t.time, t.time);
    if j > k {
      assert Two(k, j);
      BeforeRest(ts[k].time, t.time, ts[j].time);
    }
  }

  /** The new timer at its place: the order is kept. */
  lemma Placed(ts: seq<Timer>, k: nat, t: Timer)
    requires InOrder(ts) && Slot(ts, k, t)
    ensures InOrder(Inserted(ts, k, t))
  {
    var r := Inserted(ts, k, t);
    forall i, j | Two(i, j) && 0 <= i < j < |r|
      ensures Diff(r[i].time, r[j].time) <= 0
    {
      if i == k {
        BeforeAll(ts, k, t, j - 1);
      } else if j != k {
        assert Two(if i < k then i else i - 1, if j < k then j else j - 1);
      }
    }
  }

  /** All timers of the same time are before it. */
  lemma PlacedLast(ts: seq<Timer>, k: nat, t: Timer, i: nat)
    requires InOrder(ts) && Slot(ts, k, t) && k < i <= |ts|
    ensures Inserted(ts, k, t)[i].time != t.time
  {
    BeforeAll(ts, k, t, i - 1);
  }

  lemma DistinctInserted(ts: seq<Timer>, k: nat, t: Timer)
    requires k <= |ts| && t !in ts && Distinct(ts)
    ensures Distinct(Inserted(ts, k, t))
  {
  }

  lemma Dropped(ts: seq<Timer>, i: nat)
    requires i < |ts| && InOrder(ts) && Distinct(ts)
    ensures var r := ts[..i] + ts[i + 1..]; InOrder(r) && Distinct(r)
  {
    var r := ts[..i] + ts[i + 1..];
    assert forall k :: 0 <= k < |r| ==> r[k] == ts[if k < i then k else k + 1];
    forall k, m | Two(k, m) && 0 <= k < m < |r|
      ensures Diff(r[k].time, r[m].time) <= 0
    {
      assert Two(if k < i then k else k + 1, if m < i then m else m + 1);
    }
  }

  lemma DroppedOne(ts: seq<Timer>, i: nat, x: Timer)
    requires i < |ts| && Distinct(ts)
    ensures x in ts[..i] + ts[i + 1..] <==> x in ts && x != ts[i]
  {
    var r := ts[..i] + ts[i + 1..];
    assert forall k :: 0 <= k < |r| ==> r[k] == ts[if k < i then k else k + 1];
    if x in ts && x != ts[i] {
      var k :| 0 <= k < |ts| && ts[k] == x;
      assert r[if k < i then k else k - 1] == x;
    }
  }

  class Loop {
    var timeouts: seq<Timer>

    constructor ()
      ensures Valid() && timeouts == []
    {
      timeouts := [];
    }

    ghost predicate Valid()
      reads this, timeouts
    {
      (forall i :: 0 <= i < |timeouts| ==> timeouts[i].pending) && Distinct(timeouts) && InOrder(timeouts)
    }

    /** uloop_timeout_add: before the first timer that is later, and so behind all timers of the same time. */
    method Add(t: Timer) returns (ret: int, ghost k: nat)
      requires Valid() && (!t.pending ==> t !in timeouts)
      modifies this`timeouts, t`pending
      ensures Valid() && ret == if old(t.pending) then -1 else 0
      ensures ret == 0 ==> Slot(old(timeouts), k, t) && timeouts == Inserted(old(timeouts), k, t) && t.pending
      ensures ret == 0 ==> forall i :: k < i < |timeouts| ==> timeouts[i].time != t.time
      ensures ret != 0 ==> timeouts == old(timeouts)
    {
      k := 0;
      if t.pending {
        return -1, k;
      }
      var h := 0;
      while h < |timeouts| && Diff(timeouts[h].time, t.time) <= 0
        invariant h <= |timeouts| && forall i :: 0 <= i < h ==> Diff(timeouts[i].time, t.time) <= 0
      {
        h := h + 1;
      }
      Link(t, h);
      return 0, h;
    }

    /** list_add_tail at position h */
    method Link(t: Timer, h: nat)
      requires Valid() && t !in timeouts && Slot(timeouts, h, t)
      modifies this`timeouts, t`pending
      ensures Valid() && timeouts == Inserted(old(timeouts), h, t) && t.pending
      ensures forall i :: h < i < |timeouts| ==> timeouts[i].time != t.time
    {
      ghost var was := timeouts;
      t.pending := true;
      timeouts := timeouts[..h] + [t] + timeouts[h..];
      Placed(was, h, t);
      DistinctInserted(was, h, t);
      forall i | h < i < |timeouts|
        ensures timeouts[i].time != t.time
      {
        PlacedLast(was, h, t, i);
      }
    }

    /** uloop_timeout_cancel */
    method Cancel(t: Timer) returns (ret: int)
      requires Valid() && (t.pending <==> t in timeouts)
      modifies this`timeouts, t`pending
      ensures Valid() && !t.pending && t !in timeouts && ret == if old(t.pending) then 0 else -1
      ensures timeouts == Without(old(timeouts), t)
    {
      if !t.pending {
        WithoutNone(timeouts, t);
        return -1;
      }
      var k := Position(t);
      Dropped(timeouts, k);
      DroppedOne(timeouts, k, t);
      WithoutAt(timeouts, k);
      t.pending := false;
      timeouts := timeouts[..k] + timeouts[k + 1..];
      return 0;
    }

    method Position(t: Timer) returns (i: nat)
      requires t in timeouts
      ensures i < |timeouts| && timeouts[i] == t
    {
      i := 0;
      while timeouts[i] != t
        invariant i < |timeouts| && t in timeouts[i..]
        decreases |timeouts| - i
      {
        i := i + 1;
      }
    }

    /** A timer that is not on the list gets a deadline and goes there. */
    method AddAt(t: Timer, time: Time) returns (ret: int, ghost k: nat)
      requires Valid() && !t.pending && t !in timeouts
      modifies this`timeouts, t
      ensures Valid() && ret == 0 && t.pending && t.time == time
      ensures Slot(old(timeouts), k, t) && timeouts == Inserted(old(timeouts), k, t)
      ensures forall i :: k < i < |timeouts| ==> timeouts[i].time != time
    {
      t.time := time;
      ret, k := Add(t);
    }

    /** uloop_timeout_set: the timer goes to its new place, and the others stay as they were. */
    method Set(t: Timer, msecs: int, now: Time) returns (ret: int, ghost k: nat)
      requires Valid() && (t.pending <==> t in timeouts)
      modifies this`timeouts, t
      ensures Valid() && ret == 0 && t.pending && t.time == SetTime(now, msecs)
      ensures var others := Without(old(timeouts), t); Slot(others, k, t) && timeouts == Inserted(others, k, t)
      ensures forall i :: k < i < |timeouts| ==> timeouts[i].time != t.time
    {
      var r := Cancel(t);
      ret, k := AddAt(t, SetTime(now, msecs));
    }

    /** A timer behind a first one that is not due */
    lemma NotDue(now: Time, i: nat)
      requires Valid() && i < |timeouts| && Diff(timeouts[0].time, now) > 0
      ensures timeouts[i].time.usec >= now.usec - 1000000 ==> Exact(timeouts[i].time, now) >= 0
    {
      DiffSigns(timeouts[0].time, timeouts[0].time);
      assert Two(0, i);
      if timeouts[i].time.usec >= now.usec - 1000000 {
        NoneOverdue(timeouts[0].time, timeouts[i].time, now);
      }
    }

    /** One round of uloop_process_timeouts: the first timer, if it is due. The loop calls its callback, which may add
        and cancel timers, and ends when there is none; then no timer has a deadline before now whose microseconds are
        not more than a second short of those of the clock. */
    method Expire(now: Time) returns (t: Timer?)
      requires Valid()
      modifies this`timeouts, timeouts`pending
      ensures Valid()
      ensures t == if old(timeouts) != [] && Diff(old(timeouts)[0].time, now) <= 0 then old(timeouts)[0] else null
      ensures t != null ==> old(timeouts) == [t] + timeouts && !t.pending && t !in timeouts
      ensures t == null ==> timeouts == old(timeouts)
      ensures t == null ==>
                forall i :: 0 <= i < |timeouts| && timeouts[i].time.usec >= now.usec - 1000000 ==>
                              Exact(timeouts[i].time, now) >= 0
    {
      if timeouts == [] {
        return null;
      }
      t := timeouts[0];
      if Diff(t.time, now) > 0 {
        forall i | 0 <= i < |timeouts|
          ensures timeouts[i].time.usec >= now.usec - 1000000 ==> Exact(timeouts[i].time, now) >= 0
        {
          NotDue(now, i);
        }
        return null;
      }
      var r := Cancel(t);
    }
  }

  /** What a callback may do to the timers; clock is the time it reads. */
  datatype Call = Set(t: Timer, msecs: int, clock: Time) | Cancel(t: Timer)

  lemma InsertedHas<T>(s: seq<T>, k: nat, x: T, y: T)
    requires k <= |s|
    ensures y in Inserted(s, k, x) <==> y in s || y == x
  {
    assert s == s[..k] + s[k..];
  }

  lemma {:induction false} WithoutHas<T>(s: seq<T>, x: T, y: T)
    requires Distinct(s)
    ensures y in Without(s, x) <==> y in s && y != x
  {
    if x in s {
      WithoutOne(s, x);
    } else {
      WithoutNone(s, x);
    }
  }

  // ---- the list as a value ----

  datatype Entry = Entry(t: Timer, time: Time)

  ghost function Agenda(ts: seq<Timer>): (v: seq<Entry>)
    reads ts`time
    ensures |v| == |ts|
  {
    if ts == [] then [] else [Entry(ts[0], ts[0].time)] + Agenda(ts[1..])
  }

  lemma {:induction false} AgendaAt(ts: seq<Timer>)
    ensures |Agenda(ts)| == |ts| && forall i :: 0 <= i < |ts| ==> Agenda(ts)[i] == Entry(ts[i], ts[i].time)
  {
    if ts != [] {
      AgendaAt(ts[1..]);
    }
  }

  ghost function Removed(v: seq<Entry>, t: Timer): seq<Entry> {
    if v == [] then [] else if v[0].t == t then v[1..] else [v[0]] + Removed(v[1..], t)
  }

  /** How many entries at the start of the list are not later. */
  function Rank(v: seq<Entry>, time: Time): (k: nat)
    ensures k <= |v|
  {
    if v == [] || Diff(v[0].time, time) > 0 then 0 else 1 + Rank(v[1..], time)
  }

  /** The list after a call. */
  ghost function After(v: seq<Entry>, c: Call): seq<Entry> {
    match c
    case Set(t, msecs, clock) =>
      var others, time := Removed(v, t), SetTime(clock, msecs);
      Inserted(others, Rank(others, time), Entry(t, time))
    case Cancel(t) => Removed(v, t)
  }

  ghost function AfterAll(v: seq<Entry>, calls: seq<Call>): seq<Entry> {
    if calls == [] then v else After(AfterAll(v, calls[..|calls| - 1]), calls[|calls| - 1])
  }

  function Scripted(script: seq<seq<Call>>, k: nat): seq<Call> { if k < |script| then script[k] else [] }

  predicate Due(v: seq<Entry>, now: Time) { v != [] && Diff(v[0].time, now) <= 0 }

  /** The timers that fire, one after the other, while the callback of the k-th does what script[k] says. */
  ghost function Fired(v: seq<Entry>, now: Time, script: seq<seq<Call>>, k: nat): seq<Timer>
    decreases if k < |script| then |script| - k else 0, |v|
  {
    if Due(v, now) then [v[0].t] + Fired(AfterAll(v[1..], Scripted(script, k)), now, script, k + 1) else []
  }

  /** The list when no timer is due any more. */
  ghost function Left(v: seq<Entry>, now: Time, script: seq<seq<Call>>, k: nat): seq<Entry>
    decreases if k < |script| then |script| - k else 0, |v|
  {
    if Due(v, now) then Left(AfterAll(v[1..], Scripted(script, k)), now, script, k + 1) else v
  }

  lemma {:induction false} AgendaWithout(ts: seq<Timer>, t: Timer)
    ensures Agenda(Without(ts, t)) == Removed(Agenda(ts), t)
  {
    if ts != [] && ts[0] != t {
      AgendaWithout(ts[1..], t);
    }
  }

  lemma {:induction false} AgendaSum(a: seq<Timer>, b: seq<Timer>)
    ensures Agenda(a + b) == Agenda(a) + Agenda(b)
  {
    if a == [] {
      assert a + b == b;
    } else {
      assert (a + b)[1..] == a[1..] + b;
      AgendaSum(a[1..], b);
    }
  }

  lemma AgendaInserted(ts: seq<Timer>, k: nat, t: Timer)
    requires k <= |ts|
    ensures Agenda(Inserted(ts, k, t)) == Inserted(Agenda(ts), k, Entry(t, t.time))
  {
    AgendaMiddle(ts[..k], t, ts[k..]);
    assert ts[..k] + ts[k..] == ts;
    Cut(Agenda(ts[..k]), Agenda(ts[k..]));
  }

  lemma AgendaMiddle(a: seq<Timer>, t: Timer, b: seq<Timer>)
    ensures Agenda(a + [t] + b) == Agenda(a) + [Entry(t, t.time)] + Agenda(b) && Agenda(a + b) == Agenda(a) + Agenda(b)
  {
    AgendaSum(a, b);
    AgendaSum(a + [t], b);
    AgendaSum(a, [t]);
    assert Agenda([t]) == [Entry(t, t.time)] + Agenda([]);
  }

  lemma Cut<T>(x: seq<T>, y: seq<T>)
    ensures (x + y)[..|x|] == x && (x + y)[|x|..] == y
  {
  }

  lemma {:induction false} RankIs(v: seq<Entry>, k: nat, time: Time)
    requires k <= |v| && (forall i :: 0 <= i < k ==> Diff(v[i].time, time) <= 0)
    requires k < |v| ==> Diff(v[k].time, time) > 0
    ensures Rank(v, time) == k
    decreases |v|
  {
    if k > 0 {
      RankIs(v[1..], k - 1, time);
    }
  }

  lemma SlotRank(ts: seq<Timer>, k: nat, t: Timer)
    requires Slot(ts, k, t)
    ensures |Agenda(ts)| == |ts| && Rank(Agenda(ts), t.time) == k
  {
    AgendaAt(ts);
    RankIs(Agenda(ts), k, t.time);
  }

  /** Setting a timer, when it is not among the others. */
  lemma AgendaSet(others: seq<Timer>, k: nat, t: Timer)
    requires Slot(others, k, t)
    ensures var v := Agenda(others); Agenda(Inserted(others, k, t)) == Inserted(v, Rank(v, t.time), Entry(t, t.time))
  {
    SlotRank(others, k, t);
    AgendaInserted(others, k, t);
  }

  /** The timers that there are: all on the list are among them, and exactly those on the list are pending. */
  ghost predicate Known(loop: Loop, all: set<Timer>)
    reads loop, all
  {
    (forall t <- loop.timeouts :: t in all) && forall t <- all :: t.pending <==> t in loop.timeouts
  }

  ghost predicate Among(calls: seq<Call>, all: set<Timer>) { forall c <- calls :: c.t in all }

  /** Deadlines whose microseconds are as the clock gives them. */
  ghost predicate AllNormal(ts: seq<Timer>)
    reads ts`time
  {
    forall i :: 0 <= i < |ts| ==> Normal(ts[i].time)
  }

  /** The call gives such a deadline. */
  predicate Fair(c: Call) {
    c.Set? ==> 0 <= c.clock.usec < 1000000 && c.clock.usec + Rem(c.msecs, 1000) * 1000 >= 0
  }

  /** What uloop_timeout_set does to the list. */
  method Schedule(loop: Loop, t: Timer, msecs: int, clock: Time) returns (ret: int, ghost k: nat)
    requires loop.Valid() && (t.pending <==> t in loop.timeouts)
    modifies loop, t
    ensures loop.Valid() && t.pending && t.time == SetTime(clock, msecs)
    ensures var others := Without(old(loop.timeouts), t); k <= |others| && loop.timeouts == Inserted(others, k, t)
    ensures Agenda(loop.timeouts) == After(old(Agenda(loop.timeouts)), Set(t, msecs, clock))
  {
    ghost var others := Without(loop.timeouts, t);
    AgendaWithout(loop.timeouts, t);
    WithoutHas(loop.timeouts, t, t);
    ghost var v := Agenda(others);
    ret, k := loop.Set(t, msecs, clock);
    assert Agenda(others) == v;
    AgendaSet(others, k, t);
  }

  method Reset(loop: Loop, t: Timer, msecs: int, clock: Time, ghost all: set<Timer>)
    requires loop.Valid() && Known(loop, all) && t in all
    modifies loop, t
    ensures loop.Valid() && Known(loop, all)
    ensures old(AllNormal(loop.timeouts)) && Fair(Set(t, msecs, clock)) ==> AllNormal(loop.timeouts)
    ensures Agenda(loop.timeouts) == After(old(Agenda(loop.timeouts)), Set(t, msecs, clock))
  {
    ghost var was := loop.timeouts;
    var ret; ghost var k;
    ret, k := Schedule(loop, t, msecs, clock);
    ghost var others := Without(was, t);
    forall x | x in all || x in loop.timeouts
      ensures x in loop.timeouts <==> x in was || x == t
    {
      WithoutHas(was, t, x);
      InsertedHas(others, k, t, x);
    }
    if old(AllNormal(loop.timeouts)) && Fair(Set(t, msecs, clock)) {
      SetTimeIs(clock, msecs);
      forall i | 0 <= i < |loop.timeouts|
        ensures Normal(loop.timeouts[i].time)
      {
        assert loop.timeouts[i] in loop.timeouts;
      }
    }
  }

  method Unset(loop: Loop, t: Timer, ghost all: set<Timer>)
    requires loop.Valid() && Known(loop, all) && t in all
    modifies loop, t`pending
    ensures loop.Valid() && Known(loop, all) && (old(AllNormal(loop.timeouts)) ==> AllNormal(loop.timeouts))
    ensures Agenda(loop.timeouts) == After(old(Agenda(loop.timeouts)), Cancel(t))
  {
    ghost var was := loop.timeouts;
    AgendaWithout(was, t);
    var r := loop.Cancel(t);
    forall x | x in all || x in loop.timeouts
      ensures x in loop.timeouts <==> x in was && x != t
    {
      WithoutHas(was, t, x);
    }
    assert forall i :: 0 <= i < |loop.timeouts| ==> loop.timeouts[i] in loop.timeouts;
  }

  /** What one callback does. */
  method Callback(loop: Loop, calls: seq<Call>, ghost all: set<Timer>)
    requires loop.Valid() && Known(loop, all) && Among(calls, all)
    modifies loop, all
    ensures loop.Valid() && Known(loop, all) && Agenda(loop.timeouts) == AfterAll(old(Agenda(loop.timeouts)), calls)
    ensures old(AllNormal(loop.timeouts)) && (forall c <- calls :: Fair(c)) ==> AllNormal(loop.timeouts)
  {
    for k := 0 to |calls|
      invariant loop.Valid() && Known(loop, all)
      invariant Agenda(loop.timeouts) == AfterAll(old(Agenda(loop.timeouts)), calls[..k])
      invariant old(AllNormal(loop.timeouts)) && (forall c <- calls :: Fair(c)) ==> AllNormal(loop.timeouts)
    {
      assert calls[k] in calls && calls[..k + 1][..k] == calls[..k];
      match calls[k]
      case Set(t, msecs, clock) => Reset(loop, t, msecs, clock, all);
      case Cancel(t) => Unset(loop, t, all);
    }
    assert calls[..|calls|] == calls;
  }

  /** The first timer, if it is due. */
  method Take(loop: Loop, now: Time, ghost all: set<Timer>) returns (t: Timer?)
    requires loop.Valid() && Known(loop, all)
    modifies loop, all`pending
    ensures loop.Valid() && Known(loop, all) && (old(AllNormal(loop.timeouts)) ==> AllNormal(loop.timeouts))
    ensures t != null <==> old(Due(Agenda(loop.timeouts), now))
    ensures t != null ==> old(Agenda(loop.timeouts)) == [Entry(t, t.time)] + Agenda(loop.timeouts)
    ensures t == null ==> loop.timeouts == old(loop.timeouts) && Quiet(loop.timeouts, now)
  {
    ghost var was := loop.timeouts;
    t := Pop(loop, now);
    if t != null {
      FirstTaken(was, t, loop.timeouts);
    }
  }

  method Pop(loop: Loop, now: Time) returns (t: Timer?)
    requires loop.Valid()
    modifies loop`timeouts, loop.timeouts`pending
    ensures loop.Valid() && (t != null <==> old(Due(Agenda(loop.timeouts), now)))
    ensures t != null ==> old(loop.timeouts) == [t] + loop.timeouts && !t.pending && t !in loop.timeouts
    ensures t != null ==> old(Agenda(loop.timeouts)) == [Entry(t, t.time)] + Agenda(loop.timeouts)
    ensures t == null ==> loop.timeouts == old(loop.timeouts) && Quiet(loop.timeouts, now)
  {
    ghost var was := loop.timeouts;
    t := loop.Expire(now);
    if t != null {
      assert was[1..] == loop.timeouts;
    }
  }

  lemma FirstTaken<T>(s: seq<T>, x: T, r: seq<T>)
    requires s == [x] + r
    ensures (forall i :: 0 <= i < |r| ==> r[i] == s[i + 1]) && (forall y <- s :: y == x || y in r)
    ensures x in s && forall y <- r :: y in s
  {
  }

  /** No timer is due, and none is overdue whose microseconds are not more than a second short of those of the clock. */
  ghost predicate Quiet(ts: seq<Timer>, now: Time)
    reads ts`time
  {
    && (ts == [] || Diff(ts[0].time, now) > 0)
    && (forall i :: 0 <= i < |ts| && ts[i].time.usec >= now.usec - 1000000 ==> Exact(ts[i].time, now) >= 0)
  }

  lemma QuietNormal(ts: seq<Timer>, now: Time)
    requires Quiet(ts, now) && AllNormal(ts) && now.usec < 1000000
    ensures forall i :: 0 <= i < |ts| ==> Exact(ts[i].time, now) >= 0
  {
  }

  ghost predicate AllFair(calls: seq<Call>) { forall c <- calls :: Fair(c) }

  /** Callbacks only touch timers that there are. */
  ghost predicate Script(script: seq<seq<Call>>, all: set<Timer>) { forall calls <- script :: Among(calls, all) }

  ghost predicate FairScript(script: seq<seq<Call>>) { forall calls <- script :: AllFair(calls) }

  lemma ScriptedAmong(script: seq<seq<Call>>, k: nat, all: set<Timer>)
    requires Script(script, all)
    ensures Among(Scripted(script, k), all) && (FairScript(script) ==> AllFair(Scripted(script, k)))
  {
    assert k < |script| ==> script[k] in script;
  }

  /** The loop and its timers are right, and the deadlines normal if they should be. */
  ghost predicate Ticking(loop: Loop, all: set<Timer>, fair: bool)
    reads loop, loop.timeouts, all
  {
    forall z {:trigger Look(Clients, z)} :: Look(Clients, z) ==>
      loop.Valid() && Known(loop, all) && (fair ==> AllNormal(loop.timeouts))
  }

  /** The first timer of the list v is taken from it if it is due. */
  ghost predicate Next(v: seq<Entry>, now: Time, t: Timer?, rest: seq<Entry>) {
    if Due(v, now) then v[0].t == t && rest == v[1..] else t == null && rest == v
  }

  /** What is still to come when t has been taken. */
  ghost function Rest(fired: seq<Timer>, t: Timer?, v: seq<Entry>, now: Time, script: seq<seq<Call>>, k: nat)
    : (seq<Timer>, seq<Entry>)
  {
    if t == null then (fired, v)
    else
      var next := AfterAll(v, Scripted(script, k));
      (fired + [t] + Fired(next, now, script, k + 1), Left(next, now, script, k + 1))
  }

  ghost predicate Halfway(end: (seq<Timer>, seq<Entry>), fired: seq<Timer>, t: Timer?, v: seq<Entry>, now: Time,
      script: seq<seq<Call>>, k: nat) {
    forall z {:trigger Look(Pending, z)} :: Look(Pending, z) ==> end == Rest(fired, t, v, now, script, k)
  }

  lemma HalfwayEnds(end: (seq<Timer>, seq<Entry>), fired: seq<Timer>, v: seq<Entry>, now: Time, script: seq<seq<Call>>,
      k: nat)
    requires Halfway(end, fired, null, v, now, script, k)
    ensures end == (fired, v)
  {
    assert Look(Pending, 0);
  }

  lemma HalfwayStarts(v: seq<Entry>, now: Time, t: Timer?, rest: seq<Entry>, script: seq<seq<Call>>)
    requires Next(v, now, t, rest)
    ensures Halfway((Fired(v, now, script, 0), Left(v, now, script, 0)), [], t, rest, now, script, 0)
  {
    assert [] + [t] == [t];
  }

  lemma HalfwayOn(end: (seq<Timer>, seq<Entry>), fired: seq<Timer>, t: Timer, v: seq<Entry>, now: Time,
      script: seq<seq<Call>>, k: nat, t': Timer?, v': seq<Entry>)
    requires Halfway(end, fired, t, v, now, script, k) && Next(AfterAll(v, Scripted(script, k)), now, t', v')
    ensures Halfway(end, fired + [t], t', v', now, script, k + 1)
  {
    assert Look(Pending, 0);
    if t' == null {
      assert fired + [t] + [] == fired + [t];
    } else {
      var next := AfterAll(v', Scripted(script, k + 1));
      Associates(fired + [t], [t'], Fired(next, now, script, k + 2));
    }
  }

  /** A callback, and the next timer if it is due. */
  method Turn(loop: Loop, now: Time, calls: seq<Call>, ghost all: set<Timer>, ghost fair: bool) returns (t: Timer?)
    requires Ticking(loop, all, fair) && Among(calls, all) && (fair ==> AllFair(calls))
    modifies loop, all
    ensures Ticking(loop, all, fair) && (t == null ==> Quiet(loop.timeouts, now))
    ensures Next(AfterAll(old(Agenda(loop.timeouts)), calls), now, t, Agenda(loop.timeouts))
  {
    assert Look(Clients, 0);
    Callback(loop, calls, all);
    t := Take(loop, now, all);
  }

  /** uloop_process_timeouts. The k-th callback does what script[k] says, and later ones do nothing. Whatever callbacks
      do, no timer is overdue at the end whose microseconds are not more than a second short of those of the clock; none
      is overdue at all, if all delays are such that deadlines are normal. */
  method Process(loop: Loop, now: Time, script: seq<seq<Call>>, ghost all: set<Timer>) returns (fired: seq<Timer>)
    requires loop.Valid() && Known(loop, all) && Script(script, all)
    modifies loop, all
    ensures loop.Valid() && Known(loop, all) && Quiet(loop.timeouts, now)
    ensures fired == Fired(old(Agenda(loop.timeouts)), now, script, 0)
    ensures Agenda(loop.timeouts) == Left(old(Agenda(loop.timeouts)), now, script, 0)
    ensures old(AllNormal(loop.timeouts)) && FairScript(script) && now.usec < 1000000
        ==> forall i :: 0 <= i < |loop.timeouts| ==> Exact(loop.timeouts[i].time, now) >= 0
  {
    ghost var fair := AllNormal(loop.timeouts) && FairScript(script);
    fired := ProcessAll(loop, now, script, all, fair);
    assert Look(Clients, 0);
    if fair && now.usec < 1000000 {
      QuietNormal(loop.timeouts, now);
    }
  }

  method Round(loop: Loop, now: Time, script: seq<seq<Call>>, k: nat, ghost all: set<Timer>, ghost fair: bool,
      ghost end: (seq<Timer>, seq<Entry>), ghost fired: seq<Timer>, ghost t: Timer)
    returns (next: Timer?)
    requires Ticking(loop, all, fair) && Script(script, all) && (fair ==> FairScript(script))
    requires Halfway(end, fired, t, Agenda(loop.timeouts), now, script, k)
    modifies loop, all
    ensures Ticking(loop, all, fair) && (next == null ==> Quiet(loop.timeouts, now))
    ensures Halfway(end, fired + [t], next, Agenda(loop.timeouts), now, script, k + 1)
    ensures k >= |script| && next != null ==> |Agenda(loop.timeouts)| < old(|Agenda(loop.timeouts)|)
    ensures k >= |script| ==> |Agenda(loop.timeouts)| <= old(|Agenda(loop.timeouts)|)
  {
    ghost var v := Agenda(loop.timeouts);
    ScriptedAmong(script, k, all);
    next := Turn(loop, now, Scripted(script, k), all, fair);
    HalfwayOn(end, fired, t, v, now, script, k, next, Agenda(loop.timeouts));
  }

  method ProcessAll(loop: Loop, now: Time, script: seq<seq<Call>>, ghost all: set<Timer>, ghost fair: bool)
    returns (fired: seq<Timer>)
    requires Ticking(loop, all, fair) && Script(script, all) && (fair ==> FairScript(script))
    modifies loop, all
    ensures Ticking(loop, all, fair) && Quiet(loop.timeouts, now)
    ensures fired == Fired(old(Agenda(loop.timeouts)), now, script, 0)
    ensures Agenda(loop.timeouts) == Left(old(Agenda(loop.timeouts)), now, script, 0)
  {
    ghost var v := Agenda(loop.timeouts);
    ghost var end := (Fired(v, now, script, 0), Left(v, now, script, 0));
    fired := [];
    var k := 0;
    var t := Turn(loop, now, [], all, fair);
    HalfwayStarts(v, now, t, Agenda(loop.timeouts), script);
    while t != null
      invariant Ticking(loop, all, fair) && (t == null ==> Quiet(loop.timeouts, now))
      invariant Halfway(end, fired, t, Agenda(loop.timeouts), now, script, k)
      decreases if k < |script| then |script| - k else 0, |Agenda(loop.timeouts)|, t != null
    {
      var next := Round(loop, now, script, k, all, fair, end, fired, t);
      fired, k, t := fired + [t], k + 1, next;
    }
    HalfwayEnds(end, fired, Agenda(loop.timeouts), now, script, k);
  }

  /** If the callbacks do nothing, the timers that fire and those that are left make up the list. */
  lemma {:induction false} FiredPlain(v: seq<Entry>, now: Time, k: nat)
    ensures var f, r := Fired(v, now, [], k), Left(v, now, [], k);
            && |f| + |r| == |v| && r == v[|f|..] && (forall i :: 0 <= i < |f| ==> f[i] == v[i].t)
            && (forall i :: 0 <= i < |f| ==> Diff(v[i].time, now) <= 0) && !Due(r, now)
    decreases |v|
  {
    if Due(v, now) {
      FiredPlain(v[1..], now, k + 1);
    }
  }

  lemma NegativeTimes()
    ensures var a, b, now := SetTime(Time(5, 499900), -500), SetTime(Time(5, 500100), -501), Time(4, 999500);
            Diff(a, b) <= 0 && Diff(a, now) > 0 && Exact(b, now) < 0
  {
  }

  /** A timer that is set, not before the only other one, goes behind it. */
  method SetSecond(loop: Loop, first: Timer, y: Timer, msecs: int, now: Time)
    requires loop.Valid() && loop.timeouts == [first] && y != first && !y.pending
    requires Diff(first.time, SetTime(now, msecs)) <= 0
    modifies loop, y
    ensures loop.Valid() && loop.timeouts == [first, y] && y.time == SetTime(now, msecs)
  {
    WithoutNone([first], y);
    var ret; ghost var k;
    ret, k := loop.Set(y, msecs, now);
    assert [first][0] == first && k == 1;
  }

  /** While the timers due at (4, 999500) are processed, a slow callback sets two timers with negative delays. The
      first of them is not due and ends the loop, and the one behind it is overdue. */
  method NegativeDelay() returns (loop: Loop, y: Timer, t: Timer?)
    ensures loop.Valid() && t == null && y in loop.timeouts && Exact(y.time, Time(4, 999500)) < 0
    ensures y.time == SetTime(Time(5, 500100), -501)
  {
    NegativeTimes();
    loop := new Loop();
    var first := new Timer();
    y := new Timer();
    var ret; ghost var k;
    ret, k := loop.Set(first, -500, Time(5, 499900));
    SetSecond(loop, first, y, -501, Time(5, 500100));
    assert [first, y][0] == first && [first, y][1] == y;
    t := loop.Expire(Time(4, 999500));
  }
}
