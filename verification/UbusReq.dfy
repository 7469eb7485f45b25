/** Requests of a ubus client (libubus-req.c): when they complete, and what a notification waits for. The functions are
    cut at the callbacks, so that between any two pieces other messages may be handled; every piece keeps the
    invariant. */
module UbusReq {
  import opened Common

  const PEERS: nat := 16

  const STATUS_OK: int := 0
  const STATUS_INVALID_ARGUMENT: int := 2
  const STATUS_TIMEOUT: int := 7

  /** The entries of ids whose bit is set, from position i on. */
  ghost function Awaited(bits: seq<bool>, ids: seq<nat>, i: nat): multiset<nat>
    requires |bits| == |ids| && i <= |bits|
    decreases |bits| - i
  {
    if i == |bits| then multiset{} else (if bits[i] then multiset{ids[i]} else multiset{}) + Awaited(bits, ids, i + 1)
  }

  lemma {:induction false} AwaitedLess(bits: seq<bool>, ids: seq<nat>, k: nat, i: nat)
    requires |bits| == |ids| && i <= k < |bits| && bits[k]
    ensures Awaited(bits, ids, i) == Awaited(bits[k := false], ids, i) + multiset{ids[k]}
    decreases k - i
  {
    if i < k {
      AwaitedLess(bits, ids, k, i + 1);
    } else {
      AwaitedSame(bits, ids, bits[k := false], ids, k + 1);
    }
  }

  lemma {:induction false} AwaitedSame(bits: seq<bool>, ids: seq<nat>, bits': seq<bool>, ids': seq<nat>, i: nat)
    requires |bits| == |ids| == |bits'| == |ids'| && i <= |bits|
    requires forall j :: i <= j < |bits| ==> bits[j] == bits'[j] && ids[j] == ids'[j]
    ensures Awaited(bits, ids, i) == Awaited(bits', ids', i)
    decreases |bits| - i
  {
    if i < |bits| {
      AwaitedSame(bits, ids, bits', ids', i + 1);
    }
  }

  lemma {:induction false} AwaitedNone(bits: seq<bool>, ids: seq<nat>, i: nat)
    requires |bits| == |ids| && i <= |bits| && forall j :: i <= j < |bits| ==> !bits[j]
    ensures Awaited(bits, ids, i) == multiset{}
    decreases |bits| - i
  {
    if i < |bits| {
      AwaitedNone(bits, ids, i + 1);
    }
  }

  lemma {:induction false} AwaitedSome(bits: seq<bool>, ids: seq<nat>, i: nat, k: nat)
    requires |bits| == |ids| && i <= k < |bits| && bits[k]
    ensures ids[k] in Awaited(bits, ids, i)
    decreases |bits| - i
  {
    if i < k {
      AwaitedSome(bits, ids, i + 1, k);
    }
  }

  /** The entries from b on are those of the list, all awaited, and no more. */
  lemma {:induction false} AwaitedAll(bits: seq<bool>, ids: seq<nat>, list: seq<nat>, b: nat)
    requires |bits| == |ids| && b + |list| <= |bits|
    requires forall j :: b <= j < b + |list| ==> bits[j] && ids[j] == list[j - b]
    requires forall j :: b + |list| <= j < |bits| ==> !bits[j]
    ensures Awaited(bits, ids, b) == multiset(list)
    decreases |list|
  {
    if list == [] {
      AwaitedNone(bits, ids, b);
    } else {
      AwaitedAll(bits, ids, list[1..], b + 1);
      assert list == [list[0]] + list[1..];
    }
  }

  /** A bit is set exactly for an entry that is awaited: ubusd first, then each subscriber it listed. */
  ghost predicate Waits(pending: seq<bool>, id: seq<nat>, told: bool, listed: seq<nat>, answered: multiset<nat>) {
    && |pending| == |id| == PEERS + 1 && pending[0] == !told
    && (forall z {:trigger Look(Pending, z)} :: Look(Pending, z) ==>
          if told then |listed| <= PEERS && answered + Awaited(pending, id, 0) == multiset(listed)
          else answered == multiset{} && forall i :: 0 < i <= PEERS ==> !pending[i])
  }

  /** A subscriber has answered. */
  lemma AnswerWaits(pending: seq<bool>, id: seq<nat>, told: bool, listed: seq<nat>, answered: multiset<nat>, i: nat)
    requires Waits(pending, id, told, listed, answered) && 0 < i <= PEERS && pending[i]
    ensures Waits(pending[i := false], id, told, listed, answered + multiset{id[i]})
  {
    AwaitedLess(pending, id, i, 0);
  }

  /** ubusd has listed the subscribers. */
  lemma ListedWaits(pending: seq<bool>, id: seq<nat>, listed: seq<nat>)
    requires |pending| == |id| == PEERS + 1 && !pending[0] && |listed| <= PEERS
    requires forall j :: 0 < j <= |listed| ==> pending[j] && id[j] == listed[j - 1]
    requires forall j :: |listed| < j <= PEERS ==> !pending[j]
    ensures Waits(pending, id, true, listed, multiset{})
  {
    AwaitedAll(pending, id, listed, 1);
    assert Awaited(pending, id, 0) == multiset{} + Awaited(pending, id, 1);
  }

  function Reversed(s: seq<nat>): seq<nat> {
    if s == [] then [] else [s[|s| - 1]] + Reversed(s[..|s| - 1])
  }

  lemma {:induction false} LastFirst(s: seq<nat>, k: nat)
    requires k < |s|
    ensures |Reversed(s)| == |s| && Reversed(s)[k] == s[|s| - 1 - k]
    decreases |s|
  {
    var t := s[..|s| - 1];
    if t != [] {
      LastFirst(t, if k == 0 then 0 else k - 1);
    }
  }

  /** struct ubus_request and struct ubus_notify_request */
  class Request {
    const notify: bool
    const number: nat
    var peer: nat
    var onList: bool
    var statusMsg: bool
    var statusCode: int
    var blocked: bool
    var completeCb: bool
    var pending: seq<bool>
    var id: seq<nat>
    /** The data that came during a data callback, in the order of the list. */
    var held: seq<nat>
    /** How often the completion callback has run, and the status it got. */
    ghost var completions: nat
    ghost var reported: int
    /** The data that the data callback got, and all that has come. */
    ghost var handed: seq<nat>
    /** Whether the status of ubusd has come, the first subscribers it listed, and those that have answered. */
    ghost var told: bool
    ghost var listed: seq<nat>
    ghost var answered: multiset<nat>
    /** Whether the time for a synchronous call has run out. */
    ghost var timedOut: bool

    /** ubus_start_request and __ubus_notify_async */
    constructor (notify: bool, number: nat, peer: nat)
      ensures Valid() && this.notify == notify && this.number == number && this.peer == peer && completions == 0
      ensures !told && !onList && !timedOut && !blocked && held == [] && handed == []
    {
      this.notify, this.number, this.peer := notify, number, peer;
      onList, statusMsg, statusCode, blocked, completeCb := false, false, 0, false, true;
      pending := [true] + seq(PEERS, _ => false);
      id := [peer] + seq(PEERS, _ => 0);
      held, handed := [], [];
      completions, told, listed, answered, timedOut := 0, false, [], multiset{}, false;
    }

    /** Completion runs at most once, and when the status has come it does, unless a data callback is running. */
    ghost predicate Once()
      reads this`completions, this`completeCb, this`statusMsg, this`blocked
    {
      && completions + (if completeCb then 1 else 0) == 1
      && (completions == 1 ==> statusMsg) && (statusMsg && !blocked ==> completions == 1)
    }

    ghost predicate Waiting()
      reads this`pending, this`id, this`told, this`listed, this`answered
    {
      Waits(pending, id, told, listed, answered)
    }

    /** ubusd and each of the first sixteen subscribers it listed have answered. */
    ghost predicate HeardAll()
      reads this`told, this`listed, this`answered
    {
      told && answered == multiset(listed)
    }

    ghost predicate Valid()
      reads this
    {
      Once() && Waiting() && (notify && statusMsg ==> HeardAll() || timedOut) && Fine() && (held != [] ==> blocked)
    }

    /** A notification whose time has not run out ends well. */
    ghost predicate Fine()
      reads this`statusMsg, this`statusCode, this`completions, this`reported, this`timedOut
    {
      notify && !timedOut ==> (statusMsg ==> statusCode == STATUS_OK) && (completions == 1 ==> reported == STATUS_OK)
    }

    /** ubus_complete_request_async */
    method CompleteAsync()
      requires Valid()
      modifies this`onList
      ensures Valid() && onList
    {
      if onList {
        return;
      }
      onList := true;
    }

    /** ubus_req_complete_cb; never while a data callback is running. */
    method Complete()
      requires !blocked && completions + (if completeCb then 1 else 0) == 1
      modifies this`completeCb, this`completions, this`reported
      ensures !completeCb && completions == 1
      ensures reported == if old(completions) == 0 then statusCode else old(reported)
    {
      if !completeCb {
        return;
      }
      completeCb := false;
      completions, reported := completions + 1, statusCode;
    }

    /** ubus_set_req_status: the request completes at most once, and not inside a data callback. */
    method SetStatus(ret: int)
      requires Valid() && (notify ==> (HeardAll() && ret == STATUS_OK) || timedOut)
      modifies this`onList, this`statusMsg, this`statusCode, this`completeCb, this`completions, this`reported
      ensures Valid() && !onList && statusMsg && statusCode == ret && (!blocked ==> completions == 1)
      ensures reported == if old(completions) == 0 && !blocked then ret else old(reported)
      ensures blocked ==> completions == old(completions)
    {
      onList, statusMsg, statusCode := false, true, ret;
      assert Waiting();
      if !blocked {
        Complete();
      }
    }

    /** ubus_sync_req_timeout_cb */
    method Timeout()
      requires Valid()
      modifies this`onList, this`statusMsg, this`statusCode, this`completeCb, this`completions, this`reported,
               this`timedOut
      ensures Valid() && timedOut && !onList && statusMsg && statusCode == STATUS_TIMEOUT
      ensures !blocked ==> completions == 1 && (old(completions) == 0 ==> reported == STATUS_TIMEOUT)
    {
      timedOut := true;
      SetStatus(STATUS_TIMEOUT);
    }

    /** ubus_process_req_status, of a message that may have no status in it. */
    method ProcessStatus(status: Maybe<int>, from: nat) returns (ret: int)
      requires Valid() && !notify
      modifies this`peer, this`onList, this`statusMsg, this`statusCode, this`completeCb, this`completions, this`reported
      ensures ret == if status.Some? then status.value else STATUS_INVALID_ARGUMENT
      ensures Valid() && !onList && statusMsg && statusCode == ret && peer == from
      ensures !blocked ==> completions == 1 && (old(completions) == 0 ==> reported == ret)
    {
      peer := from;
      ret := if status.Some? then status.value else STATUS_INVALID_ARGUMENT;
      SetStatus(ret);
    }

    /** The start of ubus_process_req_data. When no data callback is running it runs now, with this data; otherwise
        the data is put in front of what has come since. */
    method DataBegin(data: nat) returns (runs: bool)
      requires Valid()
      modifies this`blocked, this`held, this`handed
      ensures Valid() && blocked && runs == !old(blocked)
      ensures if runs then handed == old(handed) + [data] && held == old(held)
              else handed == old(handed) && held == [data] + old(held)
    {
      if !blocked {
        blocked, handed := true, handed + [data];
        return true;
      }
      held := [data] + held;
      return false;
    }

    /** One round of __ubus_process_req_data: the data callback runs for the first data on the list. */
    method DataNext() returns (runs: bool)
      requires Valid() && blocked
      modifies this`held, this`handed
      ensures Valid() && runs == (old(held) != []) && handed + held == old(handed + held)
      ensures held == if runs then old(held)[1..] else []
    {
      runs := held != [];
      if runs {
        handed, held := handed + [held[0]], held[1..];
      }
    }

    /** The end of ubus_process_req_data: a status that came meanwhile completes the request. */
    method DataEnd()
      requires Valid() && blocked && held == []
      modifies this`blocked, this`completeCb, this`completions, this`reported
      ensures Valid() && !blocked && (statusMsg <==> completions == 1)
      ensures reported == if old(completions) == 0 && statusMsg then statusCode else old(reported)
    {
      blocked := false;
      if statusMsg {
        Complete();
      }
    }

    /** A whole ubus_process_req_data, with data that comes while the data callback runs: this reaches it last first. */
    method ProcessData(first: nat, more: seq<nat>)
      requires Valid() && !blocked
      modifies this`blocked, this`held, this`handed, this`completeCb, this`completions, this`reported
      ensures Valid() && !blocked && handed == old(handed) + [first] + Reversed(more)
    {
      var now := DataBegin(first);
      for k := 0 to |more|
        invariant Valid() && blocked && handed == old(handed) + [first] && held == Reversed(more[..k])
      {
        now := DataBegin(more[k]);
        assert more[..k + 1][..k] == more[..k];
      }
      assert more[..|more|] == more;
      now := true;
      while now
        invariant Valid() && blocked && handed + held == old(handed) + [first] + Reversed(more) && (now || held == [])
        decreases now, |held|
      {
        now := DataNext();
      }
      DataEnd();
    }

    /** ubus_find_notify_id: the first awaited entry with this id. */
    method FindNotifyId(objid: nat) returns (r: Maybe<nat>)
      requires Valid()
      ensures r.Some? ==> r.value <= PEERS && pending[r.value] && id[r.value] == objid
      ensures r.Some? ==> forall j :: 0 <= j < r.value ==> !(pending[j] && id[j] == objid)
      ensures r.None? ==> forall j :: 0 <= j <= PEERS ==> !(pending[j] && id[j] == objid)
    {
      var i := 0;
      while i <= PEERS
        invariant i <= PEERS + 1 && forall j :: 0 <= j < i ==> !(pending[j] && id[j] == objid)
      {
        if pending[i] && id[i] == objid {
          return Some(i);
        }
        i := i + 1;
      }
      return None;
    }

    /** The first half of ubus_process_notify_status for the status of a subscriber, up to its callback. */
    method Answer(i: nat)
      requires Valid() && notify && 0 < i <= PEERS && pending[i]
      modifies this`pending, this`answered
      ensures Valid() && !pending[i] && answered == old(answered) + multiset{id[i]}
      ensures forall j :: 0 <= j <= PEERS && j != i ==> pending[j] == old(pending)[j]
    {
      assert Look(Pending, 0);
      AnswerWaits(pending, id, told, listed, answered, i);
      pending := pending[i := false];
      answered := answered + multiset{id[i]};
    }

    /** The same for the status of ubusd, which lists the subscribers; only the first sixteen are waited for. */
    method Listing(subscribers: seq<nat>)
      requires Valid() && notify && pending[0]
      modifies this`pending, this`id, this`told, this`listed
      ensures Valid() && told && !pending[0]
      ensures listed == if |subscribers| <= PEERS then subscribers else subscribers[..PEERS]
      ensures forall i :: 0 < i <= PEERS ==> (pending[i] <==> i <= |listed|)
    {
      assert Look(Pending, 0);
      pending := pending[0 := false];
      var idx := 1;
      while idx - 1 < |subscribers| && idx != PEERS + 1
        invariant 1 <= idx <= PEERS + 1 && idx - 1 <= |subscribers| && |pending| == |id| == PEERS + 1 && !pending[0]
        invariant forall j :: 1 <= j < idx ==> pending[j] && id[j] == subscribers[j - 1]
        invariant forall j :: idx <= j <= PEERS ==> !pending[j]
      {
        pending, id := pending[idx := true], id[idx := subscribers[idx - 1]];
        idx := idx + 1;
      }
      told, listed := true, subscribers[..idx - 1];
      ListedWaits(pending, id, listed);
    }

    /** The second half: when nothing is awaited any more, the notification is complete. */
    method Check()
      requires Valid() && notify
      modifies this`onList, this`statusMsg, this`statusCode, this`completeCb, this`completions, this`reported
      ensures Valid()
      ensures (forall i :: 0 <= i <= PEERS ==> !pending[i]) ==>
                && !onList && statusMsg && statusCode == STATUS_OK
                && (!blocked ==> completions == 1 && (old(completions) == 0 ==> reported == STATUS_OK))
      ensures (exists i :: 0 <= i <= PEERS && pending[i]) ==> unchanged(this)
    {
      if forall i :: 0 <= i <= PEERS ==> !pending[i] {
        Heard();
        SetStatus(STATUS_OK);
      }
    }

    /** Once ubusd has listed the subscribers, nothing is awaited exactly when each of the first sixteen has
        answered. */
    lemma Heard()
      requires Valid() && told
      ensures HeardAll() <==> forall i :: 0 <= i <= PEERS ==> !pending[i]
    {
      assert Look(Pending, 0);
      if answered == multiset(listed) {
        assert Awaited(pending, id, 0) == multiset{};
        forall i | 0 <= i <= PEERS
          ensures !pending[i]
        {
          if pending[i] {
            AwaitedSome(pending, id, 0, i);
          }
        }
      }
      if forall i :: 0 <= i <= PEERS ==> !pending[i] {
        AwaitedNone(pending, id, 0);
      }
    }

    /** A notification that has completed has completed once, and unless its time ran out it has ended well and is
        waiting for nobody: ubusd and each of the first sixteen subscribers have answered. */
    lemma CompletedHeard()
      requires Valid() && notify && completions > 0
      ensures completions == 1
      ensures timedOut || (statusCode == STATUS_OK && reported == STATUS_OK)
      ensures timedOut || (told && answered == multiset(listed) && forall i :: 0 <= i <= PEERS ==> !pending[i])
    {
      if !timedOut {
        Heard();
      }
    }
  }

  /** A message with this number from this peer is for the request. */
  ghost predicate IsFor(r: Request, number: nat, peer: nat)
    requires r.Valid()
    reads r
  {
    && r.number == number
    && if r.notify then exists j :: 0 <= j <= PEERS && r.pending[j] && r.id[j] == peer else r.peer == peer
  }

  /** ubus_find_request: the first request on the list that the message is for. */
  method FindRequest(reqs: seq<Request>, number: nat, peer: nat) returns (k: nat, id: Maybe<nat>)
    requires forall r <- reqs :: r.Valid()
    ensures k <= |reqs| && forall i :: 0 <= i < k ==> !IsFor(reqs[i], number, peer)
    ensures k < |reqs| ==> IsFor(reqs[k], number, peer) && (id.Some? <==> reqs[k].notify)
    ensures k < |reqs| && id.Some?
            ==> reqs[k].Valid() && id.value <= PEERS && reqs[k].pending[id.value] && reqs[k].id[id.value] == peer
  {
    k := 0;
    while k < |reqs|
      invariant k <= |reqs| && forall i :: 0 <= i < k ==> !IsFor(reqs[i], number, peer)
    {
      var r := reqs[k];
      assert r in reqs;
      if r.number == number {
        if r.notify {
          id := r.FindNotifyId(peer);
          if id.Some? {
            return;
          }
        } else if r.peer == peer {
          return k, None;
        }
      }
      k := k + 1;
    }
    id := None;
  }
}
