/** Writing to a stream: bytes go to the sink or wait in the buffers, and never change order (ustream.c). */
module UstreamWrite {
  import opened Common
  import opened Bytes
  import opened UstreamBuf
  import opened Ustream

  /** Whatever the stream is connected to. It takes any part of what it is offered, or fails. */
  class Sink {
    var got: seq<byte>
    /** It took less than it was offered last. */
    var full: bool
    /** How often it has failed. */
    var failures: nat
    /** It was told last that more data is to follow. */
    var more: bool

    method Write(data: seq<byte>, more: bool) returns (n: int)
      modifies this
      ensures -1 <= n <= |data| && got == (old(got) + if n > 0 then data[..n] else []) && full == (n < |data|)
      ensures failures == (old(failures) + if n < 0 then 1 else 0) && this.more == more
    {
      n :| -1 <= n <= |data|;
      full := n < |data|;
      failures := failures + if n < 0 then 1 else 0;
      this.more := more;
      if n > 0 {
        got := got + data[..n];
      }
    }
  }

  /** What is done to a stream, by its writer or because its sink takes data again. */
  datatype Op = Send(data: seq<byte>, more: bool) | Flush

  /** An answer to a call: how many bytes were accepted, or whether nothing is left waiting. */
  datatype Answer = Took(n: int) | Done(all: bool)

  predicate Answers(op: Op, a: Answer) {
    match op
    case Send(data, _) => a.Took? && -1 <= a.n <= |data|
    case Flush => a.Done?
  }

  predicate AllAnswer(ops: seq<Op>, answers: seq<Answer>) {
    |ops| == |answers| && forall i :: 0 <= i < |ops| ==> Answers(ops[i], answers[i])
  }

  /** The bytes that the writer was told were accepted, in order. */
  function Accepted(ops: seq<Op>, answers: seq<Answer>): seq<byte>
    requires AllAnswer(ops, answers)
  {
    if ops == [] then []
    else
      var k := |ops| - 1;
      Accepted(ops[..k], answers[..k]) + if ops[k].Send? && answers[k].n > 0 then ops[k].data[..answers[k].n] else []
  }

  /** A stream between two calls. */
  datatype Moment = Moment(error: bool, failures: nat, full: bool, exhausted: bool, waiting: seq<byte>)

  /** What a call may do. A stream is broken exactly from the first failure of the sink on, and then takes and writes
      nothing. Otherwise a writer is told that less was accepted only if the buffers have run out, and a flush ends only
      when nothing is waiting or the sink takes no more. */
  predicate Meets(was: Moment, op: Op, a: Answer, now: Moment) {
    && Answers(op, a)
    && (now.error <==> was.error || now.failures > was.failures)
    && match op
       case Send(data, _) =>
         && (a.n < 0 <==> !was.error && now.error)
         && (was.error ==> a.n == 0)
         && (!now.error && a.n < |data| ==> now.exhausted)
       case Flush =>
         && (a.all <==> !was.error && now.waiting == [])
         && (!was.error && !a.all ==> now.full)
         && (was.error ==> now == was)
  }

  /** Every call of a run does what it may. */
  predicate AllMeet(ops: seq<Op>, answers: seq<Answer>, moments: seq<Moment>) {
    && AllAnswer(ops, answers) && |moments| == |ops| + 1
    && forall i :: 0 <= i < |ops| ==> Meets(moments[i], ops[i], answers[i], moments[i + 1])
  }

  class Stream {
    const w: BufList
    const sink: Sink
    var writeError: bool
    /** What the writer has been told was accepted, in order. */
    ghost var sent: seq<byte>

    constructor (sink: Sink, w: BufList)
      requires w.Valid()
      ensures Valid() && sent == sink.got + w.Stored() && this.sink == sink && this.w == w && !writeError
    {
      this.sink, this.w, writeError, sent := sink, w, false, sink.got + w.Stored();
    }

    /** The bytes in the sink followed by those in the buffers are the bytes accepted. */
    ghost predicate Valid()
      reads this, sink, w, w.chain
    {
      w.Valid() && sink.got + w.Stored() == sent
    }

    /** One round of ustream_write_pending: offers the first buffer to the sink. */
    method Offer() returns (n: int, all: bool)
      requires w.Valid() && w.dataBytes != 0
      modifies sink, w, w.chain
      ensures w.Valid() && sink.got + w.Stored() == old(sink.got + w.Stored())
      ensures n > 0 ==> w.dataBytes == old(w.dataBytes) - n
      ensures n <= 0 ==> w.dataBytes == old(w.dataBytes)
      ensures all == !sink.full && (all ==> n > 0) && sink.failures == old(sink.failures) + if n < 0 then 1 else 0
      ensures sink.more == (old(|w.chain|) > 1)
      ensures forall i :: 0 <= i < |w.chain| ==> w.chain[i] in old(w.chain)
    {
      n, all := Give();
      if n > 0 {
        w.Consume(n);
      }
    }

    /** The sink takes bytes that are still in the buffers. */
    method Give() returns (n: int, all: bool)
      requires w.Valid() && w.dataBytes != 0
      modifies sink
      ensures -1 <= n <= |w.Stored()| && sink.got + (if n > 0 then w.Stored()[n..] else w.Stored())
           == old(sink.got) + w.Stored()
      ensures all == !sink.full && (all ==> n > 0) && sink.failures == old(sink.failures) + if n < 0 then 1 else 0
      ensures sink.more == (|w.chain| > 1)
    {
      var data := w.ReadBuf();
      n := sink.Write(data, w.head.next != null);
      all := n == |data|;
      if n > 0 {
        Passed(old(sink.got), w.Stored(), data, n);
      }
    }

    lemma Passed(got: seq<byte>, stored: seq<byte>, data: seq<byte>, n: nat)
      requires data <= stored && n <= |data|
      ensures got + data[..n] + stored[n..] == got + stored
    {
      assert stored == data[..n] + stored[n..];
    }

    /** ustream_write_pending: it goes on until nothing is waiting or the sink takes no more. */
    method WritePending() returns (done: bool)
      requires Valid()
      modifies this`writeError, sink, w, w.chain
      ensures Valid()
      ensures if old(writeError) then !done && unchanged(sink, w)
              else (done <==> w.Stored() == []) && (done || sink.full)
      ensures writeError <==> old(writeError) || sink.failures > old(sink.failures)
      ensures forall i :: 0 <= i < |w.chain| ==> w.chain[i] in old(w.chain)
    {
      if writeError {
        return false;
      }
      var all := true;
      while all
        invariant Valid() && (all || sink.full || w.dataBytes == 0)
        invariant sink.failures >= old(sink.failures) && (writeError <==> sink.failures > old(sink.failures))
        invariant forall i :: 0 <= i < |w.chain| ==> w.chain[i] in old(w.chain)
        decreases all, w.dataBytes
      {
        all := OfferNext();
      }
      return w.dataBytes == 0;
    }

    /** One round of its loop, which ends when nothing is waiting or the sink takes less than it is offered. */
    method OfferNext() returns (all: bool)
      requires Valid()
      modifies this`writeError, sink, w, w.chain
      ensures Valid() && (all ==> w.dataBytes < old(w.dataBytes)) && (!all ==> sink.full || w.dataBytes == 0)
      ensures sink.failures >= old(sink.failures)
      ensures writeError <==> old(writeError) || sink.failures > old(sink.failures)
      ensures forall i :: 0 <= i < |w.chain| ==> w.chain[i] in old(w.chain)
    {
      all := w.dataBytes != 0;
      if all {
        var n;
        n, all := Offer();
        if n < 0 {
          writeError := true;
        }
      }
    }

    /** The bytes that the buffers take. */
    method Buffer(data: seq<byte>) returns (n: nat)
      requires Valid()
      modifies this`sent, w, w.chain
      ensures Valid() && n <= |data| && sent == old(sent) + data[..n] && (n < |data| ==> w.Exhausted())
      ensures forall i :: 0 <= i < |w.chain| ==> w.chain[i] in old(w.chain) || fresh(w.chain[i])
    {
      ghost var was := w.Stored();
      n := w.Put(data);
      sent := sent + data[..n];
      Associates(sink.got, was, data[..n]);
    }

    /** The bytes that the sink takes at once, when nothing is waiting. */
    method Pass(data: seq<byte>, more: bool) returns (n: int)
      requires Valid() && w.dataBytes == 0
      modifies this`sent, sink
      ensures Valid() && -1 <= n <= |data| && sent == (old(sent) + if n > 0 then data[..n] else [])
      ensures sink.full == (n < |data|) && sink.failures == old(sink.failures) + if n < 0 then 1 else 0
      ensures sink.more == more
    {
      n := sink.Write(data, more);
      sent := sent + if n > 0 then data[..n] else [];
    }

    /** ustream_write: the part of the data that the writer is told was accepted will be delivered. */
    method Write(data: seq<byte>, more: bool) returns (wr: int)
      requires Valid()
      modifies this, sink, w, w.chain
      ensures Valid() && -1 <= wr <= |data|
      ensures sent == old(sent) + if wr > 0 then data[..wr] else []
      ensures wr < 0 <==> !old(writeError) && writeError
      ensures writeError <==> old(writeError) || sink.failures > old(sink.failures)
      ensures if old(writeError) then wr == 0 && unchanged(sink, w) else 0 <= wr < |data| ==> w.Exhausted()
      ensures forall i :: 0 <= i < |w.chain| ==> w.chain[i] in old(w.chain) || fresh(w.chain[i])
      ensures !old(writeError) && old(w.Stored()) == [] ==> sink.more == more
      ensures if old(w.Stored()) == [] then old(writeError) || w.Stored() == [] || sink.full
              else sink.got == old(sink.got)
    {
      if writeError {
        return 0;
      }
      if w.dataBytes == 0 {
        wr := WriteIdle(data, more);
      } else {
        wr := Buffer(data);
      }
    }

    /** When nothing is waiting the sink is asked first. */
    method WriteIdle(data: seq<byte>, more: bool) returns (wr: int)
      requires Valid() && w.dataBytes == 0 && !writeError
      modifies this, sink, w, w.chain
      ensures Valid() && -1 <= wr <= |data| && sent == old(sent) + if wr > 0 then data[..wr] else []
      ensures (wr < 0 <==> writeError) && (writeError <==> sink.failures > old(sink.failures)) && sink.more == more
      ensures (0 <= wr < |data| ==> w.Exhausted()) && (w.Stored() == [] || sink.full)
      ensures forall i :: 0 <= i < |w.chain| ==> w.chain[i] in old(w.chain) || fresh(w.chain[i])
    {
      wr := Pass(data, more);
      if wr < 0 {
        writeError := true;
      } else if wr < |data| {
        var n := Buffer(data[wr..]);
        Farther(old(sent), data, wr, n);
        wr := wr + n;
      }
    }

    ghost function Now(): Moment
      requires Valid()
      reads this, sink, w, w.chain
    {
      Moment(writeError, sink.failures, sink.full, w.Exhausted(), w.Stored())
    }

    /** One call. */
    method Step(op: Op) returns (a: Answer)
      requires Valid()
      modifies this, sink, w, w.chain
      ensures Valid() && Meets(old(Now()), op, a, Now()) && sent == old(sent) + Accepted([op], [a])
      ensures forall i :: 0 <= i < |w.chain| ==> w.chain[i] in old(w.chain) || fresh(w.chain[i])
    {
      match op
      case Send(data, more) =>
        var n := Write(data, more);
        a := Took(n);
      case Flush =>
        var done := WritePending();
        a := Done(done);
    }

    /** Any interleaving of writes and flushes, whatever the sink takes: the bytes in the sink followed by those that
        wait are the bytes accepted, in order, and every call does what it may. */
    method Run(ops: seq<Op>) returns (answers: seq<Answer>, ghost moments: seq<Moment>)
      requires Valid()
      modifies this, sink, w, w.chain
      ensures Valid() && AllMeet(ops, answers, moments) && moments[0] == old(Now()) && moments[|ops|] == Now()
      ensures sink.got + w.Stored() == old(sink.got + w.Stored()) + Accepted(ops, answers)
      ensures forall i :: 0 <= i < |w.chain| ==> w.chain[i] in old(w.chain) || fresh(w.chain[i])
    {
      answers, moments := [], [Now()];
      ghost var before := sent;
      for k := 0 to |ops|
        invariant Valid() && AllMeet(ops[..k], answers, moments) && sent == before + Accepted(ops[..k], answers)
        invariant moments[0] == old(Now()) && moments[k] == Now()
        invariant forall i :: 0 <= i < |w.chain| ==> w.chain[i] in old(w.chain) || fresh(w.chain[i])
      {
        var a := Step(ops[k]);
        ghost var now := Now();
        AllMeetMore(ops, k, answers, moments, a, now);
        AcceptedMore(ops, k, answers, a);
        Associates(before, Accepted(ops[..k], answers), Accepted([ops[k]], [a]));
        answers, moments := answers + [a], moments + [now];
      }
      assert ops[..|ops|] == ops;
    }

    lemma AllMeetMore(ops: seq<Op>, k: nat, answers: seq<Answer>, moments: seq<Moment>, a: Answer, now: Moment)
      requires k < |ops| && AllMeet(ops[..k], answers, moments) && Meets(moments[k], ops[k], a, now)
      ensures AllMeet(ops[..k + 1], answers + [a], moments + [now])
    {
    }

    lemma AcceptedMore(ops: seq<Op>, k: nat, answers: seq<Answer>, a: Answer)
      requires k < |ops| && AllAnswer(ops[..k], answers) && Answers(ops[k], a)
      ensures AllAnswer(ops[..k + 1], answers + [a])
      ensures Accepted(ops[..k + 1], answers + [a]) == Accepted(ops[..k], answers) + Accepted([ops[k]], [a])
    {
      assert ops[..k + 1][..k] == ops[..k] && (answers + [a])[..k] == answers;
    }
  }
}
