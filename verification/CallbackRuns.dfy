/** Any interleaving of Init and Cleanup over any number of client contexts. */
module CallbackRuns {
  import opened Codes
  import opened CallbackTable

  /** wolfCrypt and every context; a context never initialized is blank. */
  datatype World = World(w: Crypt, ctxs: map<CtxId, Ctx>)

  datatype Op = InitOp(id: CtxId, config: Config, s: Script) | CleanupOp(id: CtxId)

  function CtxOf(st: World, id: CtxId): Ctx {
    if id in st.ctxs then st.ctxs[id] else BLANK
  }

  function Next(st: World, op: Op): World {
    match op
    case InitOp(id, config, s) =>
      var out := InitSpec(st.w, CtxOf(st, id), id, config, s);
      World(out.w, st.ctxs[id := out.c])
    case CleanupOp(id) =>
      var p := CleanupSpec(Pair(st.w, CtxOf(st, id)));
      World(p.w, st.ctxs[id := p.c])
  }

  function Live(st: World): set<CtxId> {
    set id | id in st.ctxs && st.ctxs[id].cryptoInitialized
  }

  /** A context is initialized only when it is not live. */
  predicate Orderly(st: World, op: Op) {
    op.InitOp? ==> op.id !in Live(st)
  }

  // ------------------------------------------------------------ what one call registers

  /**
   An Init succeeds exactly when its arguments are in range and every step does; then its own
   device id and the global one run on this context, and so does the DMA one, for DMA only.
   */
  lemma InitRegisters(w: Crypt, c: Ctx, id: CtxId, config: Config, s: Script)
    ensures var out := InitSpec(w, c, id, config, s);
      var own := if config.devId == 0 then 0x5748_534D else config.devId;
      && (out.rc == Ok <==>
            && 1 <= config.clientId <= 15 && config.devId >= 0 && config.devId != 0x5744_4D41
            && s.comm == Ok && s.crypto && (own != 0x5748_534D ==> s.own) && s.global && s.dma)
      && (out.rc == Ok ==>
            && out.w.table.Keys == w.table.Keys + {own, 0x5748_534D, 0x5744_4D41}
            && out.w.table[own] == Entry(id, false) && out.w.table[0x5748_534D] == Entry(id, false)
            && out.w.table[0x5744_4D41] == Entry(id, true)
            && (forall d | d in w.table && d !in {own, 0x5748_534D, 0x5744_4D41} :: out.w.table[d] == w.table[d])
            && out.w.inits == w.inits + 1 && out.c == Ctx(own, true))
      && (!(1 <= config.clientId <= 15) || config.devId < 0 || config.devId == 0x5744_4D41 ==> out == Outcome(BadArgs, w, c))
  {
  }

  /** One that fails takes away what it had registered or moved aside, and touches no other entry. */
  lemma FailedInitTakesBack(w: Crypt, c: Ctx, id: CtxId, config: Config, s: Script)
    requires w.inits > 0
    ensures var out := InitSpec(w, c, id, config, s);
      var own := if config.devId == 0 then 0x5748_534D else config.devId;
      out.rc != Ok ==>
        && out.w.inits == w.inits
        && (forall d | d in out.w.table :: d in w.table && out.w.table[d] == w.table[d])
        && (forall d | d in w.table && d !in {own, 0x5748_534D, 0x5744_4D41} :: d in out.w.table)
        && (s.comm != Ok || !s.crypto || (own != 0x5748_534D && !s.own) ==> out.w.table == w.table)
        && (0x5744_4D41 in w.table && 0x5744_4D41 !in out.w.table ==> s.comm == Ok && s.crypto && s.global && !s.dma)
  {
  }

  /** Cleaning up removes the context's own entry and the global ones; the last use clears the table. */
  lemma CleanupRemoves(w: Crypt, c: Ctx)
    ensures var p := CleanupSpec(Pair(w, c));
      && p.c == Ctx(0, false)
      && (c.devId == 0 && !c.cryptoInitialized ==> p.w == w)
      && (c.devId != 0 ==> p.w.table.Keys !! {c.devId, 0x5748_534D, 0x5744_4D41})
      && (c.cryptoInitialized && w.inits <= 1 ==> p.w == Crypt(map[], 0))
      && (c.cryptoInitialized && w.inits > 1 ==> p.w.inits == w.inits - 1)
      && (!c.cryptoInitialized || w.inits > 1 ==>
            forall d | d in w.table && d !in {c.devId, 0x5748_534D, 0x5744_4D41} :: d in p.w.table && p.w.table[d] == w.table[d])
  {
  }

  // ------------------------------------------------- entries point to live contexts

  predicate FieldsAgree(st: World) {
    forall id :: id in st.ctxs ==>
      st.ctxs[id] == BLANK || (st.ctxs[id].cryptoInitialized && st.ctxs[id].devId > 0 && st.ctxs[id].devId != DEV_ID_DMA)
  }

  /** Each entry runs on a live context, which registered it under its own or a global device id. */
  predicate EntriesAlive(st: World) {
    forall d :: d in st.w.table ==>
      && st.w.table[d].ctx in Live(st)
      && (d in {DEV_ID, DEV_ID_DMA} || CtxOf(st, st.w.table[d].ctx).devId == d)
      && (st.w.table[d].dmaOnly <==> d == DEV_ID_DMA)
  }

  /** wolfCrypt counts one use for each live context, besides the uses of the application itself. */
  predicate CountRight(st: World, others: nat) {
    st.w.inits == others + |Live(st)|
  }

  predicate Inv(st: World, others: nat) {
    FieldsAgree(st) && EntriesAlive(st) && CountRight(st, others)
  }

  lemma CountAfter(st: World, id: CtxId, c: Ctx)
    ensures var live := Live(World(st.w, st.ctxs[id := c]));
      && live == (if c.cryptoInitialized then Live(st) + {id} else Live(st) - {id})
      && |live| == |Live(st)| + (if c.cryptoInitialized && id !in Live(st) then 1
                                 else if !c.cryptoInitialized && id in Live(st) then -1
                                 else 0)
  {
    var live := Live(World(st.w, st.ctxs[id := c]));
    assert live == if c.cryptoInitialized then Live(st) + {id} else Live(st) - {id};
    if c.cryptoInitialized && id in Live(st) {
      assert Live(st) + {id} == Live(st);
    } else if !c.cryptoInitialized && id !in Live(st) {
      assert Live(st) - {id} == Live(st);
    }
  }

  lemma TwoIsTwo(live: set<CtxId>, a: CtxId, b: CtxId)
    requires a in live && b in live && a != b
    ensures |live| >= 2
  {
    assert |live - {a, b}| == |live| - |{a, b}|;
  }

  lemma LastOneLeaves(st: World, others: nat)
    requires CountRight(st, others) && st.w.inits <= 1
    ensures forall a, b :: a in Live(st) && b in Live(st) ==> a == b
  {
    forall a, b | a in Live(st) && b in Live(st) ensures a == b {
      if a != b {
        TwoIsTwo(Live(st), a, b);
      }
    }
  }

  lemma CleanupKeepsInv(st: World, others: nat, id: CtxId)
    requires Inv(st, others)
    ensures Inv(Next(st, CleanupOp(id)), others)
  {
    CleanupCounts(st, others, id);
    var after := Next(st, CleanupOp(id));
    forall d | d in after.w.table
      ensures d in st.w.table && after.w.table[d] == st.w.table[d] && st.w.table[d].ctx != id
    {
      assert st.w.table[d].ctx in Live(st);
    }
  }

  lemma CleanupCounts(st: World, others: nat, id: CtxId)
    requires Inv(st, others)
    ensures var after := Next(st, CleanupOp(id));
      && Live(after) == Live(st) - {id}
      && CountRight(after, others) && FieldsAgree(after)
  {
    CountAfter(st, id, BLANK);
    assert Live(Next(st, CleanupOp(id))) == Live(st) - {id};
  }

  /** A failed Init leaves the count as it was and only takes entries away. */
  lemma FailureOnlyWithdraws(w: Crypt, c: Ctx, id: CtxId, config: Config, s: Script)
    requires !Rejected(config) && StageOf(config, s) != Done
    ensures var out := InitSpec(w, c, id, config, s);
      && out.rc != Ok && out.c == BLANK && out.w.inits == w.inits
      && out.w.table == (if w.inits == 0 && StageOf(config, s) in {AtOwn, AtGlobal, AtDma} then map[]
                         else w.table - Withdrawn(config, StageOf(config, s)))
  {
  }

  lemma InitFails(st: World, others: nat, id: CtxId, config: Config, s: Script)
    requires Inv(st, others) && id !in Live(st) && !Rejected(config) && StageOf(config, s) != Done
    ensures var after := Next(st, InitOp(id, config, s));
      Inv(after, others) && Live(after) == Live(st)
  {
    FailureOnlyWithdraws(st.w, CtxOf(st, id), id, config, s);
    CountAfter(st, id, BLANK);
    assert Live(Next(st, InitOp(id, config, s))) == Live(st);
  }

  lemma InitSucceeds(st: World, others: nat, id: CtxId, config: Config, s: Script)
    requires Inv(st, others) && id !in Live(st) && !Rejected(config) && StageOf(config, s) == Done
    ensures var after := Next(st, InitOp(id, config, s));
      Inv(after, others) && Live(after) == Live(st) + {id}
  {
    CountAfter(st, id, Ctx(DevIdOf(config), true));
    assert Live(Next(st, InitOp(id, config, s))) == Live(st) + {id};
  }

  lemma InitKeepsInv(st: World, others: nat, id: CtxId, config: Config, s: Script)
    requires Inv(st, others) && id !in Live(st)
    ensures Inv(Next(st, InitOp(id, config, s)), others)
  {
    if Rejected(config) {
      CountAfter(st, id, CtxOf(st, id));
      assert Live(Next(st, InitOp(id, config, s))) == Live(st);
    } else if StageOf(config, s) == Done {
      InitSucceeds(st, others, id, config, s);
    } else {
      InitFails(st, others, id, config, s);
    }
  }

  function After(st: World, ops: seq<Op>): World {
    if ops == [] then st else Next(After(st, ops[..|ops| - 1]), ops[|ops| - 1])
  }

  predicate AllOrderly(st: World, ops: seq<Op>) {
    ops != [] ==> AllOrderly(st, ops[..|ops| - 1]) && Orderly(After(st, ops[..|ops| - 1]), ops[|ops| - 1])
  }

  /** Every interleaving, with any step of any Init failing. */
  lemma {:induction false} SharedTableIsSafe(others: nat, ops: seq<Op>)
    requires AllOrderly(World(Crypt(map[], others), map[]), ops)
    ensures Inv(After(World(Crypt(map[], others), map[]), ops), others)
    decreases |ops|
  {
    var start := World(Crypt(map[], others), map[]);
    if ops == [] {
      assert Live(start) == {};
    } else {
      var before := ops[..|ops| - 1];
      SharedTableIsSafe(others, before);
      match ops[|ops| - 1] {
        case InitOp(id, config, s) => InitKeepsInv(After(start, before), others, id, config, s);
        case CleanupOp(id) => CleanupKeepsInv(After(start, before), others, id);
      }
    }
  }

  /** The requirement is exact: initializing a live context leaves a count too many, unless the arguments are refused. */
  lemma InitCountsExactly(st: World, others: nat, id: CtxId, config: Config, s: Script)
    requires Inv(st, others)
    ensures CountRight(Next(st, InitOp(id, config, s)), others) <==> (Rejected(config) || id !in Live(st))
  {
    if Rejected(config) {
      CountAfter(st, id, CtxOf(st, id));
      assert Live(Next(st, InitOp(id, config, s))) == Live(st);
    } else if id in Live(st) {
      LiveInitOvercounts(st, others, id, config, s);
    } else {
      InitKeepsInv(st, others, id, config, s);
    }
  }

  lemma LiveInitOvercounts(st: World, others: nat, id: CtxId, config: Config, s: Script)
    requires Inv(st, others) && id in Live(st) && !Rejected(config)
    ensures Next(st, InitOp(id, config, s)).w.inits == others + |Live(Next(st, InitOp(id, config, s)))| + 1
  {
    var out := InitSpec(st.w, CtxOf(st, id), id, config, s);
    var after := Next(st, InitOp(id, config, s));
    CountAfter(st, id, out.c);
    assert Live(after) == Live(World(st.w, st.ctxs[id := out.c]));
    assert |Live(st)| > 0;
    if StageOf(config, s) != Done {
      FailureOnlyWithdraws(st.w, CtxOf(st, id), id, config, s);
    }
  }

  /** Cleaning up twice is cleaning up once. */
  lemma CleanupIsIdempotent(st: World, id: CtxId)
    ensures Next(Next(st, CleanupOp(id)), CleanupOp(id)) == Next(st, CleanupOp(id))
  {
    var once := Next(st, CleanupOp(id));
    assert CtxOf(once, id) == BLANK;
    assert once.ctxs[id := BLANK] == once.ctxs;
  }

  // ------------------------------------------------------------ a device id of one's own

  /** Every live context with its own device id is reached through it. */
  predicate Isolated(st: World) {
    forall id :: id in Live(st) && st.ctxs[id].devId != DEV_ID ==>
      st.ctxs[id].devId in st.w.table && st.w.table[st.ctxs[id].devId] == Entry(id, false)
  }

  /** Another live context has this device id for its own. */
  predicate Taken(st: World, devId: int, id: CtxId) {
    devId != DEV_ID && exists other :: other in Live(st) && other != id && st.ctxs[other].devId == devId
  }

  lemma CleanupKeepsIsolation(st: World, others: nat, id: CtxId)
    requires Inv(st, others) && Isolated(st)
    ensures Isolated(Next(st, CleanupOp(id)))
  {
    var after := Next(st, CleanupOp(id));
    CleanupCounts(st, others, id);
    if st.w.inits <= 1 {
      LastOneLeaves(st, others);
    }
    forall k | k in Live(after) && after.ctxs[k].devId != DEV_ID
      ensures after.ctxs[k].devId in after.w.table && after.w.table[after.ctxs[k].devId] == Entry(k, false)
    {
      assert k in Live(st) && k != id && after.ctxs[k] == st.ctxs[k];
      assert st.w.table[st.ctxs[k].devId] == Entry(k, false);
    }
  }

  /** Init keeps the others reachable exactly when it does not register a device id that is taken. */
  lemma InitIsolatesExactly(st: World, others: nat, id: CtxId, config: Config, s: Script)
    requires Inv(st, others) && Isolated(st) && id !in Live(st)
    ensures Isolated(Next(st, InitOp(id, config, s))) <==>
            (Rejected(config) || StageOf(config, s) in {AtComm, AtCrypto, AtOwn} || !Taken(st, DevIdOf(config), id))
  {
    if Rejected(config) {
      CountAfter(st, id, CtxOf(st, id));
      assert Live(Next(st, InitOp(id, config, s))) == Live(st);
    } else if StageOf(config, s) == Done {
      SuccessIsolates(st, others, id, config, s);
    } else {
      FailureIsolates(st, others, id, config, s);
    }
  }

  lemma SuccessIsolates(st: World, others: nat, id: CtxId, config: Config, s: Script)
    requires Inv(st, others) && Isolated(st) && id !in Live(st) && !Rejected(config) && StageOf(config, s) == Done
    ensures Isolated(Next(st, InitOp(id, config, s))) <==> !Taken(st, DevIdOf(config), id)
  {
    InitSucceeds(st, others, id, config, s);
  }

  lemma FailureIsolates(st: World, others: nat, id: CtxId, config: Config, s: Script)
    requires Inv(st, others) && Isolated(st) && id !in Live(st) && !Rejected(config) && StageOf(config, s) != Done
    ensures Isolated(Next(st, InitOp(id, config, s))) <==>
            (StageOf(config, s) in {AtComm, AtCrypto, AtOwn} || !Taken(st, DevIdOf(config), id))
  {
    InitFails(st, others, id, config, s);
    FailureOnlyWithdraws(st.w, CtxOf(st, id), id, config, s);
    if st.w.inits == 0 {
      assert Live(st) == {};
    }
  }
}
