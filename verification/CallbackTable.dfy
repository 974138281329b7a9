/**
 Client contexts sharing one wolfCrypt (wh_Client_Init and wh_Client_Cleanup in
 src/wh_client.c): the process-wide callback table and initialization count.
 */
module CallbackTable {
  import opened Codes

  const DEV_ID := 0x5748_534D
  const DEV_ID_DMA := 0x5744_4D41
  const CLIENT_ID_MAX := 15

  type CtxId = nat

  /** The callback a device id runs, and the client context it runs on. */
  datatype Entry = Entry(ctx: CtxId, dmaOnly: bool)

  /** The fields of a client context that Cleanup looks at. */
  datatype Ctx = Ctx(devId: int, cryptoInitialized: bool)

  const BLANK := Ctx(0, false)

  datatype Config = Config(clientId: nat, devId: int)

  /** How the steps of one Init turn out. */
  datatype Script = Script(comm: Rc, crypto: bool, own: bool, global: bool, dma: bool)

  /** wolfCrypt as every context sees it. */
  datatype Crypt = Crypt(table: map<int, Entry>, inits: nat)

  /** wolfCrypt_Cleanup: the last one out clears the table. */
  function Leave(w: Crypt): Crypt {
    if w.inits <= 1 then Crypt(map[], 0) else w.(inits := w.inits - 1)
  }

  function Without(w: Crypt, devId: int): Crypt {
    w.(table := w.table - {devId})
  }

  function Rejected(config: Config): bool {
    config.clientId == 0 || config.clientId > CLIENT_ID_MAX || config.devId < 0 || config.devId == DEV_ID_DMA
  }

  function DevIdOf(config: Config): int {
    if config.devId == 0 then DEV_ID else config.devId
  }

  /** wolfCrypt and one context. */
  datatype Pair = Pair(w: Crypt, c: Ctx)

  function CleanupSpec(p: Pair): Pair {
    var w := if p.c.devId != 0 then Without(Without(Without(p.w, p.c.devId), DEV_ID), DEV_ID_DMA) else p.w;
    Pair(if p.c.cryptoInitialized then Leave(w) else w, BLANK)
  }

  /** How far Init gets before a step fails. */
  datatype Stage = AtComm | AtCrypto | AtOwn | AtGlobal | AtDma | Done

  function StageOf(config: Config, s: Script): Stage {
    if s.comm != Ok then AtComm
    else if !s.crypto then AtCrypto
    else if DevIdOf(config) != DEV_ID && !s.own then AtOwn
    else if !s.global then AtGlobal
    else if !s.dma then AtDma
    else Done
  }

  /** The table a successful Init leaves. */
  function Registered(table: map<int, Entry>, id: CtxId, devId: int): map<int, Entry> {
    table[devId := Entry(id, false)][DEV_ID := Entry(id, false)][DEV_ID_DMA := Entry(id, true)]
  }

  /** The device ids a failed Init leaves without an entry. */
  function Withdrawn(config: Config, stage: Stage): set<int> {
    match stage
    case AtComm | AtCrypto | AtOwn => {}
    case AtGlobal => {DevIdOf(config), DEV_ID}
    case AtDma => {DevIdOf(config), DEV_ID, DEV_ID_DMA}
    case Done => {}
  }

  /** The device ids whose entries Init itself made. */
  function Made(own: bool, global: bool, dma: bool, devId: int): set<int> {
    (if own then {devId} else {}) + (if global then {DEV_ID} else {}) + (if dma then {DEV_ID_DMA} else {})
  }

  datatype Outcome = Outcome(rc: Rc, w: Crypt, c: Ctx)

  function InitSpec(w: Crypt, c: Ctx, id: CtxId, config: Config, s: Script): Outcome {
    if Rejected(config) then Outcome(BadArgs, w, c)
    else
      var stage := StageOf(config, s);
      if stage == Done then
        Outcome(Ok, Crypt(Registered(w.table, id, DevIdOf(config)), w.inits + 1), Ctx(DevIdOf(config), true))
      else
        var left := Crypt(w.table - Withdrawn(config, stage), w.inits);
        var w' := if stage == AtComm || stage == AtCrypto then left else Leave(left.(inits := w.inits + 1));
        Outcome(if stage == AtComm then s.comm else Aborted, w', BLANK)
  }

  // --------------------------------------------------------------------- the code

  class Wolf {
    var table: map<int, Entry>
    var inits: nat

    constructor (inits: nat)
      ensures table == map[] && this.inits == inits
    {
      this.table, this.inits := map[], inits;
    }

    function Value(): Crypt
      reads this
    {
      Crypt(table, inits)
    }

    method Register(devId: int, entry: Entry, works: bool)
      modifies this`table
      ensures table == if works then old(table)[devId := entry] else old(table)
    {
      if works {
        table := table[devId := entry];
      }
    }

    method Unregister(devId: int)
      modifies this`table
      ensures table == old(table) - {devId}
    {
      table := table - {devId};
    }

    method Cleanup()
      modifies this
      ensures Value() == Leave(old(Value()))
    {
      if inits <= 1 {
        table, inits := map[], 0;
      } else {
        inits := inits - 1;
      }
    }
  }

  class ClientContext {
    const id: CtxId
    const wolf: Wolf
    var devId: int
    var cryptoInitialized: bool

    constructor (id: CtxId, wolf: Wolf)
      ensures this.id == id && this.wolf == wolf && Fields() == BLANK
    {
      this.id, this.wolf, devId, cryptoInitialized := id, wolf, 0, false;
    }

    function Fields(): Ctx
      reads this
    {
      Ctx(devId, cryptoInitialized)
    }

    /** wh_Client_Cleanup */
    method Cleanup()
      modifies this, wolf
      ensures Pair(wolf.Value(), Fields()) == CleanupSpec(old(Pair(wolf.Value(), Fields())))
    {
      if devId != 0 {
        wolf.Unregister(devId);
        wolf.Unregister(DEV_ID);
        wolf.Unregister(DEV_ID_DMA);
      }
      if cryptoInitialized {
        wolf.Cleanup();
      }
      devId, cryptoInitialized := 0, false;
    }

    /** Undo the registrations this Init made, then clean up. */
    method Withdraw(own: bool, global: bool, dma: bool)
      modifies this, wolf
      ensures Fields() == BLANK
      ensures var left := Crypt(old(wolf.table) - Made(own, global, dma, old(devId)), old(wolf.inits));
        wolf.Value() == if old(cryptoInitialized) then Leave(left) else left
    {
      if own {
        wolf.Unregister(devId);
      }
      if global {
        wolf.Unregister(DEV_ID);
      }
      if dma {
        wolf.Unregister(DEV_ID_DMA);
      }
      devId := 0;
      Cleanup();
    }

    /** Register the own device id, unless it is the global one, then point the global ones here. */
    method RegisterAll(config: Config, s: Script) returns (rc: Rc, own: bool, global: bool, dma: bool)
      requires !Rejected(config) && devId == DevIdOf(config) && s.comm == Ok && s.crypto
      modifies wolf`table
      ensures rc == if StageOf(config, s) == Done then Ok else Aborted
      ensures rc == Ok ==> wolf.table == Registered(old(wolf.table), id, devId)
      ensures rc != Ok ==> wolf.table - Made(own, global, dma, devId) == old(wolf.table) - Withdrawn(config, StageOf(config, s))
    {
      own, global, dma := false, false, false;
      rc := Ok;
      if devId != DEV_ID {
        wolf.Register(devId, Entry(id, false), s.own);
        own := s.own;
        rc := if s.own then Ok else Aborted;
      }
      if rc == Ok {
        wolf.Unregister(DEV_ID);
        wolf.Register(DEV_ID, Entry(id, false), s.global);
        global := s.global;
        rc := if s.global then Ok else Aborted;
      }
      if rc == Ok {
        wolf.Unregister(DEV_ID_DMA);
        wolf.Register(DEV_ID_DMA, Entry(id, true), s.dma);
        dma := s.dma;
        rc := if s.dma then Ok else Aborted;
      }
    }

    /** wh_Client_Init */
    method Init(config: Config, s: Script) returns (rc: Rc)
      modifies this, wolf
      ensures Outcome(rc, wolf.Value(), Fields()) == InitSpec(old(wolf.Value()), old(Fields()), id, config, s)
    {
      if Rejected(config) {
        return BadArgs;
      }
      var own, global, dma := false, false, false;
      devId, cryptoInitialized := DevIdOf(config), false;
      rc := s.comm;
      if rc == Ok {
        if s.crypto {
          wolf.inits := wolf.inits + 1;
          cryptoInitialized := true;
          rc, own, global, dma := RegisterAll(config, s);
        } else {
          rc := Aborted;
        }
      }
      if rc != Ok {
        Withdraw(own, global, dma);
      }
    }
  }
}
