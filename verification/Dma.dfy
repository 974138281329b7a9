/**
 Client memory mapped for the server (src/wh_client_dma.c). Every acquisition that
 succeeds and every release is logged; the ledger of the log says what is held.
 */
module Dma {
  import opened Codes
  import opened Comm

  datatype Direction = ReadDir | WriteDir

  datatype Mapping = Mapping(clientAddr: nat, addr: nat, len: nat, dir: Direction)

  datatype DmaCall = Pre(m: Mapping) | Post(m: Mapping)

  /** What the mapping callback and then the allow list make of an address. */
  datatype PreEvent =
    | MapsTo(addr: nat)
    | MapFails(rc: Rc)             // the callback refuses
    | MapDenied(addr: nat, rc: Rc) // the callback maps, the allow list refuses

  /** What they make of a release; the callback comes first here too. */
  datatype PostEvent = Unmaps | UnmapFails(rc: Rc) | UnmapDenied(rc: Rc)

  datatype Ledger = Balanced(held: multiset<Mapping>) | Broken

  /** What is held after these calls; Broken when something not held was released. */
  function Account(log: seq<DmaCall>): Ledger
    decreases |log|
  {
    if log == [] then Balanced(multiset{})
    else
      match Account(log[..|log| - 1])
      case Broken => Broken
      case Balanced(held) =>
        match log[|log| - 1]
        case Pre(m) => Balanced(held + multiset{m})
        case Post(m) => if m in held then Balanced(held - multiset{m}) else Broken
  }

  lemma AccountAppend(log: seq<DmaCall>, call: DmaCall)
    ensures Account(log + [call]) ==
      match Account(log)
      case Broken => Broken
      case Balanced(held) =>
        match call
        case Pre(m) => Balanced(held + multiset{m})
        case Post(m) => if m in held then Balanced(held - multiset{m}) else Broken
  {
    assert (log + [call])[..|log|] == log;
  }

  /** Nothing is mapped. */
  ghost function NothingHeld(): Ledger {
    Balanced(multiset{})
  }

  /** Exactly one mapping is held. */
  ghost function Holding(m: Mapping): Ledger {
    Balanced(multiset{m})
  }

  lemma Opens(log: seq<DmaCall>, m: Mapping)
    requires Account(log) == NothingHeld()
    ensures Account(log + [Pre(m)]) == Holding(m)
  {
    AccountAppend(log, Pre(m));
    assert multiset{} + multiset{m} == multiset{m};
  }

  lemma Closes(log: seq<DmaCall>, m: Mapping)
    requires Account(log) == Holding(m)
    ensures Account(log + [Post(m)]) == NothingHeld()
  {
    AccountAppend(log, Post(m));
    assert multiset{m} - multiset{m} == multiset{};
  }

  /** Everything mapped by these calls, and everything released. */
  ghost function Mapped(log: seq<DmaCall>): multiset<Mapping> {
    if log == [] then multiset{}
    else Mapped(log[..|log| - 1]) + if log[|log| - 1].Pre? then multiset{log[|log| - 1].m} else multiset{}
  }

  ghost function Unmapped(log: seq<DmaCall>): multiset<Mapping> {
    if log == [] then multiset{}
    else Unmapped(log[..|log| - 1]) + if log[|log| - 1].Post? then multiset{log[|log| - 1].m} else multiset{}
  }

  /** A balanced ledger: each mapping was released once, with its own direction, or is still held. */
  lemma {:induction false} BalancedMeansMatched(log: seq<DmaCall>)
    requires Account(log).Balanced?
    ensures Mapped(log) == Unmapped(log) + Account(log).held
  {
    if log != [] {
      BalancedMeansMatched(log[..|log| - 1]);
    }
  }

  /** What the next acquisition returns: a result and an address. */
  function PreResult(pres: seq<PreEvent>, clientAddr: nat): (Rc, nat) {
    if pres == [] then (Ok, clientAddr)
    else match pres[0]
      case MapsTo(addr) => (Ok, addr)
      case MapFails(code) => (NotOk(code), clientAddr)
      case MapDenied(addr, code) => (NotOk(code), addr)
  }

  function PostResult(posts: seq<PostEvent>): Rc {
    if posts == [] || posts[0].Unmaps? then Ok else NotOk(posts[0].rc)
  }

  /** Without a callback the address is the client's own; with one it is the callback's, unless that or the allow list refuses. */
  lemma AcquisitionIs(pres: seq<PreEvent>, clientAddr: nat)
    ensures var (rc, addr) := PreResult(pres, clientAddr);
      && (rc == Ok <==> pres == [] || pres[0].MapsTo?)
      && (pres == [] ==> addr == clientAddr)
      && (pres != [] && !pres[0].MapFails? ==> addr == pres[0].addr)
  {
  }

  /**
   wh_Client_DmaProcessClientAddress, with its callback and allow list scheduled in advance.
   Stranded are the mappings the callback made for an acquisition the allow list then refused:
   the caller sees a failure and never asks for their release.
   */
  class DmaPort {
    var log: seq<DmaCall>
    var stranded: seq<Mapping>
    var pres: seq<PreEvent>
    var posts: seq<PostEvent>

    constructor (pres: seq<PreEvent>, posts: seq<PostEvent>)
      ensures log == [] && stranded == [] && this.pres == pres && this.posts == posts
    {
      this.log, this.stranded, this.pres, this.posts := [], [], pres, posts;
    }

    /** The address callback on the way in. */
    method MapBack(clientAddr: nat) returns (rc: Rc, addr: nat, denial: Rc)
      modifies this`pres
      ensures pres == Tail(old(pres))
      ensures PreResult(old(pres), clientAddr) == (if rc != Ok then rc else denial, addr)
      ensures rc == Ok && denial != Ok <==> old(pres) != [] && old(pres)[0].MapDenied?
    {
      rc, addr, denial := Ok, clientAddr, Ok;
      if pres != [] {
        match pres[0] {
          case MapsTo(a) =>
            addr := a;
          case MapFails(code) =>
            rc := NotOk(code);
          case MapDenied(a, code) =>
            addr, denial := a, NotOk(code);
        }
      }
      pres := Tail(pres);
    }

    method Acquire(clientAddr: nat, len: nat, dir: Direction) returns (rc: Rc, addr: nat)
      modifies this
      ensures (rc, addr) == PreResult(old(pres), clientAddr) && pres == Tail(old(pres)) && posts == old(posts)
      ensures log == if rc == Ok then old(log) + [Pre(Mapping(clientAddr, addr, len, dir))] else old(log)
      ensures stranded == if old(pres) != [] && old(pres)[0].MapDenied? then old(stranded) + [Mapping(clientAddr, addr, len, dir)]
                          else old(stranded)
    {
      var denial;
      rc, addr, denial := MapBack(clientAddr);
      if rc != Ok {
        return;
      }
      rc := denial;
      if rc == Ok {
        log := log + [Pre(Mapping(clientAddr, addr, len, dir))];
      } else {
        stranded := stranded + [Mapping(clientAddr, addr, len, dir)];
      }
    }

    method Release(m: Mapping) returns (rc: Rc)
      modifies this
      ensures log == old(log) + [Post(m)] && stranded == old(stranded)
      ensures rc == PostResult(old(posts)) && posts == Tail(old(posts)) && pres == old(pres)
    {
      rc := PostResult(posts);
      posts := Tail(posts);
      log := log + [Post(m)];
    }
  }
}
