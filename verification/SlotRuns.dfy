/**
 A slot that keeps mappings between request and response, seen only through what it holds:
 the pattern shared by the SHA and AES-GCM slots of src/wh_client_crypto.c.
 */
module SlotRuns {
  import opened Codes
  import opened Comm

  /** What a request needs mapped, and the slot that holds nothing. */
  datatype Kind<!W, Z(==)> = Kind(need: W -> Z, none: Z)

  datatype State<W, Z> = State(link: Link<W>, slot: Z)

  /** Ask carries whether mapping what the request needs succeeds. */
  datatype Op<W> = Ask(req: W, mapped: bool) | Poll

  function Next<W, Z(==)>(k: Kind<W, Z>, st: State<W, Z>, op: Op<W>): State<W, Z> {
    match op
    case Ask(req, mapped) =>
      if st.link.pending then st
      else if !mapped then st.(slot := k.none)
      else
        var s := Send(st.link, req);
        State(s.link, if s.rc == Ok then k.need(req) else k.none)
    case Poll =>
      var r := Recv(st.link);
      State(r.link, if r.rc == NotReady then st.slot else k.none)
  }

  function After<W, Z(==)>(k: Kind<W, Z>, st: State<W, Z>, ops: seq<Op<W>>): State<W, Z> {
    if ops == [] then st else Next(k, After(k, st, ops[..|ops| - 1]), ops[|ops| - 1])
  }

  function Fresh<W, Z(==)>(k: Kind<W, Z>, sends: seq<SendEvent>, recvs: seq<RecvEvent>): State<W, Z> {
    State(Link(false, [], 0, sends, recvs), k.none)
  }

  /** The slot holds exactly what the request in flight needs, and nothing when there is none. */
  predicate Covered<W, Z(==)>(k: Kind<W, Z>, st: State<W, Z>) {
    if st.link.pending then
      st.link.accepted != [] && st.slot == k.need(st.link.accepted[|st.link.accepted| - 1])
    else st.slot == k.none
  }

  /** A request that went out though its timer did not start, or a receive error that does not end the request. */
  predicate ReleasesEarly<W, Z(==)>(k: Kind<W, Z>, st: State<W, Z>, op: Op<W>) {
    match op
    case Ask(req, mapped) => !st.link.pending && mapped && k.need(req) != k.none && NextSend(st.link.sends).Untimed?
    case Poll => st.link.pending && st.slot != k.none && Lingers(NextRecv(st.link.recvs))
  }

  ghost predicate AlwaysCovered<W, Z>(k: Kind<W, Z>, st: State<W, Z>, ops: seq<Op<W>>) {
    Covered(k, After(k, st, ops)) && (ops != [] ==> AlwaysCovered(k, st, ops[..|ops| - 1]))
  }

  predicate NeverEarly<W, Z(==)>(k: Kind<W, Z>, st: State<W, Z>, ops: seq<Op<W>>) {
    ops != [] ==> NeverEarly(k, st, ops[..|ops| - 1]) && !ReleasesEarly(k, After(k, st, ops[..|ops| - 1]), ops[|ops| - 1])
  }

  /** Exactly these two failures part a pending request from its mappings. */
  lemma CoveredExactly<W, Z>(k: Kind<W, Z>, st: State<W, Z>, op: Op<W>)
    requires Covered(k, st)
    ensures Covered(k, Next(k, st, op)) <==> !ReleasesEarly(k, st, op)
  {
  }

  /** The mappings stay as long as their request is pending, in exactly the runs without such a failure. */
  lemma {:induction false} CoveredThroughout<W, Z>(k: Kind<W, Z>, sends: seq<SendEvent>, recvs: seq<RecvEvent>, ops: seq<Op<W>>)
    ensures var st := Fresh(k, sends, recvs); AlwaysCovered(k, st, ops) <==> NeverEarly(k, st, ops)
    decreases |ops|
  {
    if ops != [] {
      var st := Fresh(k, sends, recvs);
      var before := ops[..|ops| - 1];
      CoveredThroughout(k, sends, recvs, before);
      if AlwaysCovered(k, st, before) {
        assert Covered(k, After(k, st, before));
        CoveredExactly(k, After(k, st, before), ops[|ops| - 1]);
      }
    }
  }
}
