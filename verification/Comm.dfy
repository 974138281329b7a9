/**
 The client end of the request/response link (src/wh_comm.c and the send and receive
 wrappers of src/wh_client.c). What the transport does at each call is given in advance
 by two schedules; a schedule that has run out means success from then on.
 */
module Comm {
  import opened Codes

  /** Untimed: the transport took the request, but the response timer did not start. */
  datatype SendEvent = Accepted | Untimed(rc: Rc) | Refuses(rc: Rc)

  datatype RecvEvent =
    | NotYet              // nothing received
    | Stale               // an old sequence number: dropped
    | BadMagic            // corrupt header: reported, request still pending
    | SoftFail(rc: Rc)    // transport error that does not end the request
    | Fatal               // transport gave up
    | BadFrame            // size out of range
    | Expired             // response timer ran out
    | TooBig              // payload larger than the caller's buffer
    | Delivered(reply: Reply)

  /** What is in a delivered response. */
  datatype Reply = Good | WrongKind | Malformed | ServerError(rc: Rc)

  /** State of the link. The number of accepted requests is the sequence number. */
  datatype Link<Req> = Link(
    pending: bool,
    accepted: seq<Req>,
    lastReq: nat,
    sends: seq<SendEvent>,
    recvs: seq<RecvEvent>)

  /** Nothing is in flight, and nothing is scheduled to go wrong. */
  predicate Calm<Req>(l: Link<Req>) {
    !l.pending && l.sends == [] && l.recvs == []
  }

  function NotOk(rc: Rc): (r: Rc)
    ensures r != Ok
  {
    if rc == Ok then Aborted else rc
  }

  /** A receive error that neither succeeds, nor asks to poll again, nor ends the request. */
  function SoftCode(rc: Rc): (r: Rc)
    ensures r != Ok && r != NotReady
  {
    if rc == Ok || rc == NotReady || rc == Aborted then BadArgs else rc
  }

  function NextSend(sends: seq<SendEvent>): SendEvent {
    if sends == [] then Accepted else sends[0]
  }

  function NextRecv(recvs: seq<RecvEvent>): RecvEvent {
    if recvs == [] then Delivered(Good) else recvs[0]
  }

  function Tail<T>(s: seq<T>): seq<T> {
    if s == [] then [] else s[1..]
  }

  datatype Sent<Req> = Sent(link: Link<Req>, rc: Rc)

  /** wh_Client_SendRequest over wh_CommClient_SendRequest */
  function Send<Req>(l: Link<Req>, req: Req): (r: Sent<Req>)
    ensures r.rc == Ok ==> !l.pending && r.link.pending && r.link.accepted == l.accepted + [req]
    ensures r.rc == Ok ==> r.link.lastReq == |r.link.accepted|
    ensures r.rc != Ok ==> r.link.lastReq == l.lastReq
    ensures r.rc != Ok && r.link.pending == l.pending ==> r.link == l.(sends := r.link.sends)
    ensures r.rc != Ok && r.link.pending != l.pending ==> r.link.pending && r.link.accepted == l.accepted + [req]
    ensures r.link.recvs == l.recvs
    ensures l.pending ==> r == Sent(l, RequestPending)
  {
    if l.pending then Sent(l, RequestPending)
    else
      var rest := Tail(l.sends);
      match NextSend(l.sends)
      case Refuses(rc) => Sent(l.(sends := rest), NotOk(rc))
      case Untimed(rc) => Sent(Link(true, l.accepted + [req], l.lastReq, rest, l.recvs), NotOk(rc))
      case Accepted => Sent(Link(true, l.accepted + [req], |l.accepted| + 1, rest, l.recvs), Ok)
  }

  /** Receive errors that leave the request pending. */
  predicate Lingers(e: RecvEvent) {
    e.BadMagic? || e.SoftFail?
  }

  datatype Received<Req> = Received(link: Link<Req>, rc: Rc, reply: Reply)

  /** wh_Client_RecvResponse over wh_CommClient_RecvResponse */
  function Recv<Req>(l: Link<Req>): (r: Received<Req>)
    ensures r.link.accepted == l.accepted && r.link.lastReq == l.lastReq && r.link.sends == l.sends
    ensures r.rc == Ok ==> l.pending && !r.link.pending && l.lastReq == |l.accepted| && r.reply != WrongKind
    ensures r.rc == NotReady && l.pending ==> r.link.pending && |r.link.recvs| < |l.recvs|
    ensures |r.link.recvs| <= |l.recvs|
    ensures !l.pending ==> r.rc == NotReady && r.link == l
    ensures r.rc != NotReady ==> (r.link.pending <==> Lingers(NextRecv(l.recvs)))
  {
    if !l.pending then Received(l, NotReady, Good)
    else
      var waiting := l.(recvs := Tail(l.recvs));
      var done := waiting.(pending := false);
      match NextRecv(l.recvs)
      case NotYet => Received(waiting, NotReady, Good)
      case Stale => Received(waiting, NotReady, Good)
      case BadMagic => Received(waiting, Aborted, Good)
      case SoftFail(rc) => Received(waiting, SoftCode(rc), Good)
      case Fatal => Received(done, Aborted, Good)
      case BadFrame => Received(done, Aborted, Good)
      case Expired => Received(done, Timeout, Good)
      case TooBig => Received(done, BufferSize, Good)
      case Delivered(reply) =>
        if reply == WrongKind || l.lastReq != |l.accepted| then Received(done, Aborted, reply)
        else Received(done, Ok, reply)
  }

  /** The error a crypto response carries, or Ok. */
  function ReplyCode(reply: Reply): Rc {
    match reply
    case Good => Ok
    case WrongKind => Aborted
    case Malformed => Aborted
    case ServerError(rc) => if rc == NotReady then Aborted else NotOk(rc)
  }

  /** What a call reports once it has polled: the link's error, the server's, or success. */
  function Outcome<Req>(r: Received<Req>): (rc: Rc)
    ensures rc == NotReady <==> r.rc == NotReady
  {
    if r.rc != Ok then r.rc else ReplyCode(r.reply)
  }

  /** What a request meets: refused while another is in flight or by the transport, and then without a trace. */
  lemma SendOutcomes<Req>(l: Link<Req>, req: Req)
    ensures var s := Send(l, req);
      && (s.rc == Ok <==> !l.pending && (l.sends == [] || l.sends[0].Accepted?))
      && (s.link.accepted == l.accepted + [req] <==> !l.pending && (l.sends == [] || !l.sends[0].Refuses?))
      && (s.link.accepted == l.accepted <==> l.pending || (l.sends != [] && l.sends[0].Refuses?))
      && (s.link.pending <==> l.pending || s.link.accepted != l.accepted)
  {
    assert |l.accepted + [req]| == |l.accepted| + 1;
  }

  /**
   What a poll meets: a response counts when it is of the request's kind and of the latest send
   that succeeded; nothing received, a stale or a corrupt frame and a transport error that is not
   fatal leave the request in flight; everything else ends it with an error.
   */
  lemma PollOutcomes<Req>(l: Link<Req>)
    requires l.pending
    ensures var r, e := Recv(l), if l.recvs == [] then Delivered(Good) else l.recvs[0];
      && (r.rc == Ok <==> e.Delivered? && e.reply != WrongKind && l.lastReq == |l.accepted|)
      && (r.rc == NotReady <==> e.NotYet? || e.Stale?)
      && (r.link.pending <==> e.NotYet? || e.Stale? || e.BadMagic? || e.SoftFail?)
      && (r.rc == Timeout <== e.Expired?) && (r.rc == BufferSize <== e.TooBig?)
      && (r.rc == Aborted <== e.Fatal? || e.BadFrame? || e.BadMagic? || e == Delivered(WrongKind))
      && (r.rc == Ok ==> r.reply == e.reply)
  {
  }

  /** A call succeeds exactly on a good response; a server's own error is passed on. */
  lemma ReplyOutcomes(reply: Reply)
    ensures ReplyCode(reply) == Ok <==> reply == Good
    ensures reply.ServerError? && reply.rc != Ok && reply.rc != NotReady ==> ReplyCode(reply) == reply.rc
    ensures reply.WrongKind? || reply.Malformed? ==> ReplyCode(reply) == Aborted
  {
  }

  // ------------------------------------------------------------- runs of a link

  datatype LinkOp<Req> = SendOp(req: Req) | RecvOp

  /** A link, the sequence numbers of the sends that succeeded and of the requests answered, and the latest such send. */
  datatype Tally<Req> = Tally(link: Link<Req>, sent: set<nat>, answered: set<nat>, latest: Option<Req>)

  function TallyNext<Req>(t: Tally<Req>, op: LinkOp<Req>): Tally<Req> {
    match op
    case SendOp(req) =>
      var s := Send(t.link, req);
      if s.rc == Ok then Tally(s.link, t.sent + {|s.link.accepted|}, t.answered, Some(req)) else t.(link := s.link)
    case RecvOp =>
      var r := Recv(t.link);
      t.(link := r.link, answered := t.answered + if r.rc == Ok then {|t.link.accepted|} else {})
  }

  function TallyAll<Req>(t: Tally<Req>, ops: seq<LinkOp<Req>>): Tally<Req> {
    if ops == [] then t else TallyNext(TallyAll(t, ops[..|ops| - 1]), ops[|ops| - 1])
  }

  function NewTally<Req>(sends: seq<SendEvent>, recvs: seq<RecvEvent>): Tally<Req> {
    Tally(Link(false, [], 0, sends, recvs), {}, {}, None)
  }

  /** The request on record is that of the latest successful send, and a request in flight has had no answer. */
  predicate Matched<Req(==)>(t: Tally<Req>) {
    && (t.link.pending ==> t.link.accepted != [] && |t.link.accepted| !in t.answered)
    && (t.link.lastReq == |t.link.accepted| > 0 ==>
          |t.link.accepted| in t.sent && t.latest == Some(t.link.accepted[|t.link.accepted| - 1]))
    && t.link.lastReq <= |t.link.accepted|
    && t.answered <= t.sent
    && forall n | n in t.sent :: n <= |t.link.accepted|
  }

  /**
   Over every run of sends and receives with any failures: no request is answered twice, and
   a response is only ever taken for the request whose send last reported success, even when
   a later one went out untimed.
   */
  lemma {:induction false} AnswersAreOwn<Req>(sends: seq<SendEvent>, recvs: seq<RecvEvent>, ops: seq<LinkOp<Req>>)
    ensures var t := TallyAll(NewTally<Req>(sends, recvs), ops);
      && t.answered <= t.sent
      && (Recv(t.link).rc == Ok ==>
            && |t.link.accepted| in t.sent && |t.link.accepted| !in t.answered
            && t.link.accepted != [] && t.latest == Some(t.link.accepted[|t.link.accepted| - 1]))
    ensures Matched(TallyAll(NewTally<Req>(sends, recvs), ops))
    decreases |ops|
  {
    if ops != [] {
      AnswersAreOwn(sends, recvs, ops[..|ops| - 1]);
    }
  }

  class CommClient<Req> {
    var link: Link<Req>

    constructor (sends: seq<SendEvent>, recvs: seq<RecvEvent>)
      ensures link == Link(false, [], 0, sends, recvs)
    {
      link := Link(false, [], 0, sends, recvs);
    }

    /** Requests sent so far. */
    function Count(): nat
      reads this
    {
      |link.accepted|
    }

    /** The next thing the transport does with a request. */
    method Transport() returns (e: SendEvent)
      modifies this
      ensures e == NextSend(old(link.sends)) && link == old(link).(sends := Tail(old(link.sends)))
    {
      e := NextSend(link.sends);
      link := link.(sends := Tail(link.sends));
    }

    /** wh_Client_SendRequest: transmit, advance the sequence number, start the timer, note the request. */
    method SendRequest(req: Req) returns (rc: Rc)
      modifies this
      ensures Sent(link, rc) == Send(old(link), req)
    {
      if link.pending {
        return RequestPending;
      }
      rc := Ok;
      var e := Transport();
      if e.Refuses? {
        return NotOk(e.rc);
      }
      link := link.(accepted := link.accepted + [req], pending := true);
      if e.Untimed? {
        return NotOk(e.rc);
      }
      link := link.(lastReq := |link.accepted|);
    }

    /** wh_Client_RecvResponse: which results end the request, and whose response it was. */
    method RecvResponse() returns (rc: Rc, reply: Reply)
      modifies this
      ensures Received(link, rc, reply) == Recv(old(link))
    {
      reply := Good;
      if !link.pending {
        return NotReady, Good;
      }
      var e := NextRecv(link.recvs);
      link := link.(recvs := Tail(link.recvs));
      match e {
        case NotYet =>
          return NotReady, Good;
        case Stale =>
          return NotReady, Good;
        case BadMagic =>
          return Aborted, Good;
        case SoftFail(code) =>
          return SoftCode(code), Good;
        case Expired =>
          rc := Timeout;
        case TooBig =>
          rc := BufferSize;
        case Fatal =>
          rc := Aborted;
        case BadFrame =>
          rc := Aborted;
        case Delivered(delivered) =>
          reply := delivered;
          rc := if reply == WrongKind || link.lastReq != |link.accepted| then Aborted else Ok;
      }
      link := link.(pending := false);
    }
  }
}
