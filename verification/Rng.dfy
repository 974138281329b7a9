/**
 Filling a buffer with random bytes from the server (wh_Client_RngGenerate and its request
 and response halves in src/wh_client_crypto.c).
 */
module Rng {
  import opened Codes
  import opened Comm

  /** A reply: the size it states, and the bytes the received message carries. */
  datatype Answer = Answer(claimed: nat, carried: seq<byte>)

  const NO_ANSWER := Answer(0, [])

  /** The answer to request number k. */
  function AnswerTo(answers: seq<Answer>, k: nat): Answer {
    if k < |answers| then answers[k] else NO_ANSWER
  }

  /** Whether a reply is within the message, the inline limit and the caller's buffer. */
  predicate Fits(a: Answer, cap: nat, room: nat) {
    a.claimed <= |a.carried| && a.claimed <= cap && a.claimed <= room
  }

  function BytesOf(a: Answer): seq<byte> {
    if a.claimed <= |a.carried| then a.carried[..a.claimed] else []
  }

  /** The bytes of n consecutive answers, in order. */
  function Joined(answers: seq<Answer>, first: nat, n: nat): seq<byte> {
    if n == 0 then [] else Joined(answers, first, n - 1) + BytesOf(AnswerTo(answers, first + n - 1))
  }

  /** A buffer written over from its front. */
  function Overlaid(front: seq<byte>, before: seq<byte>): seq<byte>
    requires |front| <= |before|
  {
    front + before[|front|..]
  }

  /** The first `pos` bytes are the first n answers, the rest is as it was before. */
  ghost predicate Filled(now: seq<byte>, before: seq<byte>, answers: seq<Answer>, first: nat, n: nat, pos: nat) {
    pos == |Joined(answers, first, n)| <= |before| && now == Overlaid(Joined(answers, first, n), before)
  }

  /** Writing the next answer behind the others extends them and keeps the rest. */
  lemma Spliced(prev: seq<byte>, now: seq<byte>, before: seq<byte>, answers: seq<Answer>, first: nat, n: nat, pos: nat, got: nat)
    requires Filled(prev, before, answers, first, n, pos)
    requires got == |BytesOf(AnswerTo(answers, first + n))| && pos + got <= |before|
    requires now == prev[..pos] + BytesOf(AnswerTo(answers, first + n)) + prev[pos + got..]
    ensures Filled(now, before, answers, first, n + 1, pos + got)
    ensures got == 0 ==> now == prev
  {
    var filled, next := Joined(answers, first, n), BytesOf(AnswerTo(answers, first + n));
    assert Joined(answers, first, n + 1) == filled + next;
    assert prev[..pos] == filled;
    assert prev[pos + got..] == before[pos + got..];
  }

  /** Bytes stated by n consecutive answers. */
  function Stated(answers: seq<Answer>, first: nat, n: nat): nat {
    if n == 0 then 0 else Stated(answers, first, n - 1) + AnswerTo(answers, first + n - 1).claimed
  }

  /** The answer states at least one byte, carries as many as it states, and no more than it was asked for. */
  predicate Serves(a: Answer, asked: nat) {
    0 < a.claimed <= asked && a.claimed <= |a.carried|
  }

  /** These answers carry the bytes they state. */
  predicate AllCarry(answers: seq<Answer>, first: nat, n: nat) {
    n > 0 ==>
      && AllCarry(answers, first, n - 1)
      && AnswerTo(answers, first + n - 1).claimed <= |AnswerTo(answers, first + n - 1).carried|
  }

  lemma {:induction false} JoinedLength(answers: seq<Answer>, first: nat, n: nat)
    requires AllCarry(answers, first, n)
    ensures |Joined(answers, first, n)| == Stated(answers, first, n)
  {
    if n > 0 {
      JoinedLength(answers, first, n - 1);
    }
  }

  /** Byte j of answer i is behind all bytes of the answers before it. */
  lemma {:induction false} LandsAt(answers: seq<Answer>, first: nat, n: nat, i: nat, j: nat)
    requires AllCarry(answers, first, n)
    requires i < n && j < AnswerTo(answers, first + i).claimed
    ensures Stated(answers, first, i) + j < |Joined(answers, first, n)| && j < |AnswerTo(answers, first + i).carried|
    ensures Joined(answers, first, n)[Stated(answers, first, i) + j] == AnswerTo(answers, first + i).carried[j]
  {
    JoinedLength(answers, first, n - 1);
    if i < n - 1 {
      LandsAt(answers, first, n - 1, i, j);
    }
  }

  /** Request number first + i asks for what the i answers before it left missing, up to the cap. */
  predicate AsksForRest(asked: nat, answers: seq<Answer>, cap: nat, first: nat, size: nat, i: nat) {
    Stated(answers, first, i) <= size && asked == Min(size - Stated(answers, first, i), cap)
  }

  /** Every request from number `first` on does. */
  predicate AsksForTheRest(accepted: seq<nat>, answers: seq<Answer>, cap: nat, first: nat, size: nat) {
    var n := |accepted| - 1;
    first <= n ==>
      && AsksForTheRest(accepted[..n], answers, cap, first, size)
      && AsksForRest(accepted[n], answers, cap, first, size, n - first)
  }

  lemma AsksForMore(accepted: seq<nat>, answers: seq<Answer>, cap: nat, first: nat, size: nat, n: nat, chunk: nat)
    requires AsksForTheRest(accepted, answers, cap, first, size) && |accepted| == first + n
    requires Stated(answers, first, n) <= size && chunk == Min(size - Stated(answers, first, n), cap)
    ensures AsksForTheRest(accepted + [chunk], answers, cap, first, size)
  {
    assert (accepted + [chunk])[..|accepted|] == accepted;
  }

  /** The first n of these requests were served. */
  predicate AllServed(accepted: seq<nat>, answers: seq<Answer>, first: nat, n: nat)
    requires first + n <= |accepted|
  {
    n > 0 ==>
      && AllServed(accepted, answers, first, n - 1)
      && Serves(AnswerTo(answers, first + n - 1), accepted[first + n - 1])
  }

  lemma {:induction false} SameServed(before: seq<nat>, accepted: seq<nat>, answers: seq<Answer>, first: nat, n: nat)
    requires first + n <= |before| && before <= accepted
    ensures AllServed(accepted, answers, first, n) <==> AllServed(before, answers, first, n)
  {
    if n > 0 {
      SameServed(before, accepted, answers, first, n - 1);
    }
  }

  class RngClient {
    const comm: CommClient<nat>
    const cap: nat              // bytes one response can carry inline
    const answers: seq<Answer>  // what the server will say

    constructor (comm: CommClient<nat>, cap: nat, answers: seq<Answer>)
      ensures this.comm == comm && this.cap == cap && this.answers == answers
    {
      this.comm, this.cap, this.answers := comm, cap, answers;
    }

    predicate Valid()
      reads comm
    {
      comm.link.pending ==> comm.link.accepted != []
    }

    /** wh_Client_RngGenerateRequest */
    method GenerateRequest(size: nat) returns (rc: Rc)
      requires Valid()
      modifies comm
      ensures Valid()
      ensures if size == 0 || size > cap then rc == BadArgs && comm.link == old(comm.link)
              else Sent(comm.link, rc) == Send(old(comm.link), size)
    {
      if size == 0 || size > cap {
        return BadArgs;
      }
      rc := comm.SendRequest(size);
    }

    /** wh_Client_RngGenerateResponse: a reply is copied whole or not at all. */
    method GenerateResponse(out: array<byte>, pos: nat, room: nat) returns (rc: Rc, got: nat)
      requires Valid() && pos + room <= out.Length
      modifies comm, out
      ensures Valid()
      ensures comm.link == Recv(old(comm.link)).link
      ensures rc == if Outcome(Recv(old(comm.link))) != Ok then Outcome(Recv(old(comm.link)))
                    else if Fits(AnswerTo(answers, old(|comm.link.accepted|) - 1), cap, room) then Ok
                    else Aborted
      ensures rc == Ok ==> got == AnswerTo(answers, old(|comm.link.accepted|) - 1).claimed
      ensures rc != Ok ==> out[..] == old(out[..]) && got == room
      ensures rc == Ok ==>
        && got <= room
        && out[..] == old(out[..pos]) + BytesOf(AnswerTo(answers, old(|comm.link.accepted|) - 1)) + old(out[pos + got..])
    {
      got := room;
      var reply;
      rc, reply := comm.RecvResponse();
      if rc != Ok {
        return;
      }
      rc := ReplyCode(reply);
      if rc != Ok {
        return;
      }
      var a := AnswerTo(answers, |comm.link.accepted| - 1);
      if !Fits(a, cap, room) {
        return Aborted, room;
      }
      forall k | 0 <= k < a.claimed {
        out[pos + k] := a.carried[k];
      }
      got := a.claimed;
    }

    /** Poll to the end; the answer lands at the write position, whole or not at all. */
    method AwaitAnswer(out: array<byte>, pos: nat, chunk: nat) returns (rc: Rc, got: nat)
      requires Valid() && comm.link.pending && pos + chunk <= out.Length
      modifies comm, out
      ensures Valid() && comm.link.accepted == old(comm.link.accepted)
      ensures rc != Ok ==> out[..] == old(out[..])
      ensures var answer := AnswerTo(answers, |comm.link.accepted| - 1);
        && (rc == Ok ==>
              && got == answer.claimed <= |answer.carried| && got <= chunk
              && out[..] == old(out[..])[..pos] + BytesOf(answer) + old(out[..])[pos + got..])
        && (old(comm.link.sends == [] && comm.link.recvs == [] && comm.link.lastReq == |comm.link.accepted|) && chunk <= cap ==>
              Calm(comm.link) && (rc == Ok <==> answer.claimed <= chunk && answer.claimed <= |answer.carried|))
    {
      ghost var prev, link := out[..], comm.link;
      ghost var answer := AnswerTo(answers, |link.accepted| - 1);
      ghost var calm := link.sends == [] && link.recvs == [] && link.lastReq == |link.accepted| && chunk <= cap;
      rc, got := NotReady, chunk;
      while rc == NotReady
        invariant Valid() && comm.link.accepted == link.accepted
        invariant rc == NotReady ==> comm.link.pending && got == chunk
        invariant rc != Ok ==> out[..] == prev
        invariant rc == Ok ==> got == answer.claimed <= |answer.carried| && got <= chunk
        invariant rc == Ok ==> out[..] == prev[..pos] + BytesOf(answer) + prev[pos + got..]
        invariant calm && rc == NotReady ==> comm.link == link
        invariant calm && rc != NotReady ==> Calm(comm.link) && (rc == Ok <==> answer.claimed <= chunk && answer.claimed <= |answer.carried|)
        decreases |comm.link.recvs|, rc == NotReady
      {
        assert out[..pos] == out[..][..pos];
        rc, got := GenerateResponse(out, pos, got);
      }
    }

    /** One request, polled to its end; what is filled grows by the answer. */
    method GenerateChunk(out: array<byte>, pos: nat, chunk: nat, ghost before: seq<byte>, ghost first: nat, ghost n: nat)
      returns (rc: Rc, got: nat)
      requires Valid() && pos + chunk <= out.Length == |before|
      requires Filled(out[..], before, answers, first, n, pos) && comm.Count() == first + n
      modifies comm, out
      ensures Valid() && first + n <= comm.Count() <= first + n + 1
      ensures rc != Ok || got == 0 ==> out[..] == old(out[..])
      ensures rc == Ok ==>
        && comm.Count() == first + n + 1
        && got <= chunk && Filled(out[..], before, answers, first, n + 1, pos + got)
        && got == AnswerTo(answers, first + n).claimed <= |AnswerTo(answers, first + n).carried|
      ensures comm.Count() == first + n + 1 ==> comm.link.accepted == old(comm.link.accepted) + [chunk]
      ensures comm.Count() == first + n ==> comm.link.accepted == old(comm.link.accepted)
      ensures old(Calm(comm.link)) && 0 < chunk <= cap ==>
        && Calm(comm.link) && comm.Count() == first + n + 1
        && (rc == Ok <==> AnswerTo(answers, first + n).claimed <= chunk && AnswerTo(answers, first + n).claimed <= |AnswerTo(answers, first + n).carried|)
    {
      got := chunk;
      rc := GenerateRequest(chunk);
      if rc != Ok {
        got := 0;
        return;
      }
      ghost var prev := out[..];
      rc, got := AwaitAnswer(out, pos, chunk);
      if rc == Ok {
        Spliced(prev, out[..], before, answers, first, n, pos, got);
      }
    }

    /** One pass of the loop: at least one byte of what is missing, or an error. */
    method GenerateSome(out: array<byte>, pos: nat, remaining: nat, ghost before: seq<byte>, ghost first: nat, ghost n: nat)
      returns (rc: Rc, got: nat)
      requires Valid() && remaining > 0 && pos + remaining == out.Length == |before|
      requires Filled(out[..], before, answers, first, n, pos) && comm.Count() == first + n
      requires AllCarry(answers, first, n) && pos == Stated(answers, first, n)
      requires AsksForTheRest(comm.link.accepted, answers, cap, first, out.Length)
      modifies comm, out
      ensures Valid() && first + n <= comm.Count() <= first + n + 1
      ensures rc != Ok ==> out[..] == old(out[..])
      ensures rc == Ok ==>
        && comm.Count() == first + n + 1 && 0 < got <= remaining
        && Filled(out[..], before, answers, first, n + 1, pos + got)
        && AllCarry(answers, first, n + 1) && pos + got == Stated(answers, first, n + 1)
      ensures AsksForTheRest(comm.link.accepted, answers, cap, first, out.Length)
      ensures old(Calm(comm.link)) && cap > 0 ==> Calm(comm.link) && comm.Count() == first + n + 1
      ensures old(Calm(comm.link)) && cap > 0 && AllServed(old(comm.link.accepted), answers, first, n) ==>
        (rc == Ok) == AllServed(comm.link.accepted, answers, first, n + 1)
    {
      ghost var asked := comm.link.accepted;
      ghost var calm := Calm(comm.link) && cap > 0;
      var chunk := Min(remaining, cap);
      AsksForMore(asked, answers, cap, first, out.Length, n, chunk);
      rc, got := GenerateChunk(out, pos, chunk, before, first, n);
      if calm && AllServed(asked, answers, first, n) {
        SameServed(asked, comm.link.accepted, answers, first, n);
      }
      if rc == Ok && got == 0 {
        rc := Aborted;
      }
    }

    /**
     wh_Client_RngGenerate: the buffer ends as the answers received, in order and without a
     gap, followed by what it held before; only success means it is full. Each request asks for
     what is missing, up to the cap, and without a failure of the link the call succeeds exactly
     when every answer serves its request.
     */
    method Generate(out: array<byte>) returns (rc: Rc, ghost n: nat)
      requires Valid()
      modifies comm, out
      ensures Valid() && old(comm.Count()) + n <= comm.Count() <= old(comm.Count()) + n + 1
      ensures Filled(out[..], old(out[..]), answers, old(comm.Count()), n, |Joined(answers, old(comm.Count()), n)|)
      ensures rc == Ok <==> |Joined(answers, old(comm.Count()), n)| == out.Length
      ensures rc == Ok ==> comm.Count() == old(comm.Count()) + n
      ensures AllCarry(answers, old(comm.Count()), n)
      ensures AsksForTheRest(comm.link.accepted, answers, cap, old(comm.Count()), out.Length)
      ensures old(Calm(comm.link)) && cap > 0 ==>
        (rc == Ok <==> AllServed(comm.link.accepted, answers, old(comm.Count()), comm.Count() - old(comm.Count())))
    {
      ghost var first, before := comm.Count(), out[..];
      ghost var calm := Calm(comm.link) && cap > 0;
      ghost var now := before;
      n := 0;
      var pos, remaining := 0, out.Length;
      rc := Ok;
      while rc == Ok && remaining > 0
        invariant Valid() && pos + remaining == out.Length && remaining >= 0
        invariant first + n <= comm.Count() <= first + n + 1
        invariant rc == Ok ==> comm.Count() == first + n
        invariant out[..] == now && Filled(now, before, answers, first, n, pos)
        invariant rc != Ok ==> remaining > 0
        invariant AllCarry(answers, first, n) && pos == Stated(answers, first, n)
        invariant AsksForTheRest(comm.link.accepted, answers, cap, first, out.Length)
        invariant calm ==> Calm(comm.link)
        invariant calm ==> (rc == Ok) == AllServed(comm.link.accepted, answers, first, comm.Count() - first)
        decreases remaining, rc == Ok
      {
        var got;
        rc, got := GenerateSome(out, pos, remaining, before, first, n);
        if rc == Ok {
          now := out[..];
          n, pos, remaining := n + 1, pos + got, remaining - got;
        }
      }
    }
  }
}
