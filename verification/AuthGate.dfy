/**
 The request gate in front of the authentication manager (src/wh_server.c): an operation on
 users reaches it only when the session of its connection permits the operation's action.
 */
module AuthGate {
  import opened Codes
  import opened Permissions
  import opened AuthDb
  import opened AuthManager
  import opened AuthRuns

  /** The action number of an operation in the authentication group. */
  function ActionOf(op: Op): nat {
    match op
    case LogIn(_, _, _) => 0
    case LogOut(_) => 1
    case AddUser(_, _, _, _) => 2
    case DeleteUser(_) => 3
    case SetPerms(_, _) => 5
    case SetCreds(_, _, _, _) => 6
  }

  /** A request the gate turns away changes nothing. */
  function Handled(cfg: Config, w: World, t: Turn): (w': World)
    ensures |w'.sessions| == |w.sessions|
  {
    if t.context < |w.sessions| && MayRequest(w.sessions[t.context], GROUP_AUTH, ActionOf(t.op)) then After(cfg, w, t) else w
  }

  function HandledAll(cfg: Config, w: World, turns: seq<Turn>): (w': World)
    ensures |w'.sessions| == |w.sessions|
    decreases |turns|
  {
    if turns == [] then w else HandledAll(cfg, Handled(cfg, w, turns[0]), turns[1..])
  }

  /** Without a session, the comm group and the login get through, and nothing else does. */
  lemma WithoutSession(s: Session, group: nat, action: nat)
    requires s.userId == 0
    ensures MayRequest(s, group, action) <==> group == 0x0100 || (group == 0x0D00 && action == 0)
  {
  }

  /** With one: logging out, and what group byte and action bit both allow. */
  lemma WithSession(s: Session, group: nat, action: nat)
    requires s.userId != 0
    ensures var g := (group / 256) % 256;
      MayRequest(s, group, action) <==>
        (group == 0x0D00 && action == 1) || (g < GROUPS && s.perms.groups[g] != 0 && action < 256 && HasBit(s.perms, g, action))
  {
  }

  /** A connection without a session gets no operation on users through but logging in. */
  lemma OnlyLogInWithoutSession(cfg: Config, w: World, t: Turn)
    requires t.context < |w.sessions| && w.sessions[t.context].userId == NO_USER && !t.op.LogIn?
    ensures Handled(cfg, w, t) == w
  {
    WithoutSession(w.sessions[t.context], GROUP_AUTH, ActionOf(t.op));
  }

  /** Whatever changes a user was permitted to the session it came from: logged in, with group byte and action bit set. */
  lemma ChangesArePermitted(cfg: Config, w: World, t: Turn)
    requires !t.op.LogIn? && !t.op.LogOut? && Handled(cfg, w, t) != w
    ensures t.context < |w.sessions|
    ensures var s := w.sessions[t.context];
      s.userId != NO_USER && s.perms.groups[13] != 0 && HasBit(s.perms, 13, ActionOf(t.op))
  {
    var s := w.sessions[t.context];
    if s.userId == NO_USER {
      OnlyLogInWithoutSession(cfg, w, t);
      assert false;
    }
    assert (GROUP_AUTH / 256) % 256 == 13;
    WithSession(s, GROUP_AUTH, ActionOf(t.op));
  }

  /** Who may add: an admin, or anybody handing out a credential and no more authority than their own. */
  lemma WhoMayAdd(s: Session, perms: Perms, data: seq<byte>)
    ensures MayAdd(s, perms, data) <==> s.perms.groups[14] != 0 || (data != [] && AuthorityWithin(perms, s.perms))
  {
    WithinIsAuthority(perms, s.perms);
  }

  function Others(turns: seq<Turn>, context: nat): seq<Turn> {
    if turns == [] then []
    else (if turns[0].context == context then [] else [turns[0]]) + Others(turns[1..], context)
  }

  lemma TurnOfAnother(cfg: Config, w: World, t: Turn, context: nat)
    requires context < |w.sessions| && t.context != context
    ensures Handled(cfg, w, t).sessions[context] == w.sessions[context]
  {
  }

  /**
   A connection that never asks to log in might as well not be there: over any run, whatever
   else it sends, users and sessions end as they do without it.
   */
  lemma {:induction false} SilentWithoutLogIn(cfg: Config, w: World, turns: seq<Turn>, context: nat)
    requires context < |w.sessions| && w.sessions[context].userId == NO_USER
    requires forall t | t in turns && t.context == context :: !t.op.LogIn?
    ensures HandledAll(cfg, w, turns) == HandledAll(cfg, w, Others(turns, context))
    ensures HandledAll(cfg, w, turns).sessions[context] == w.sessions[context]
    decreases |turns|
  {
    if turns != [] {
      var t, w' := turns[0], Handled(cfg, w, turns[0]);
      if t.context == context {
        OnlyLogInWithoutSession(cfg, w, t);
        assert Others(turns, context) == Others(turns[1..], context);
      } else {
        TurnOfAnother(cfg, w, t, context);
        assert Others(turns, context)[1..] == Others(turns[1..], context);
      }
      SilentWithoutLogIn(cfg, w', turns[1..], context);
    }
  }
}
