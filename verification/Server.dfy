/**
 All sessions of a server together: what holds over any interleaving of arrivals and requests, and that each session
 sees the others only as `Rely` says, so that the results about connections hold for every session of a server.
 */
module Server {
  import opened Storage
  import opened SessionModel
  import opened SessionSafety
  import opened SessionHistory

  /** A session and whether it still is in its dispatch loop. */
  datatype Slot = Slot(session: Session, live: bool)

  /** Sessions are numbered as they arrived. */
  datatype State = State(world: World, slots: seq<Slot>)

  /** A client arrives, or session `i` goes once round its loop with a frame or finds its peer gone. */
  datatype Action = Accept | Round(i: nat, event: Event)

  predicate Possible(a: Action) {
    a.Round? ==> !a.event.Others?
  }

  function Part(v: State, i: nat): Connection
    requires i < |v.slots|
  {
    Connection(v.world, v.slots[i].session, v.slots[i].live, [], [])
  }

  function Act(cfg: Limits, v: State, a: Action): State {
    match a
    case Accept => v.(slots := v.slots + [Slot(NEW_SESSION, true)])
    case Round(i, event) =>
      if i >= |v.slots| then v
      else
        var c := Step(cfg, Part(v, i), event);
        State(c.world, v.slots[i := Slot(c.session, c.live)])
  }

  function ActAll(cfg: Limits, v: State, actions: seq<Action>): State
    decreases |actions|
  {
    if actions == [] then v else ActAll(cfg, Act(cfg, v, actions[0]), actions[1..])
  }

  ghost predicate Apart(s: Session, t: Session) {
    Handles(s.tasks) !! Handles(t.tasks) && Ids(s.tasks) !! Ids(t.tasks)
  }

  /**
   Every session's own invariant; no handle and no task id belongs to two sessions; a session that is gone has nothing.
   */
  ghost predicate ServerInv(cfg: Limits, v: State) {
    && WellFormed(v.world.files)
    && (forall i | 0 <= i < |v.slots| :: Inv(cfg, v.world, v.slots[i].session))
    && (forall i | 0 <= i < |v.slots| && !v.slots[i].live :: v.slots[i].session.tasks == [])
    && (forall i, j | 0 <= i < j < |v.slots| :: Apart(v.slots[i].session, v.slots[j].session))
  }

  // --- One step ---

  /** What a session does leaves another one with its invariant, and still apart from it. */
  lemma OthersKept(cfg: Limits, w: World, s: Session, w': World, s': Session, t: Session)
    requires Inv(cfg, w, s) && Inv(cfg, w, t) && Apart(s, t) && Good(cfg, w, s, w', s')
    ensures Rely(w, w', Handles(t.tasks)) && Inv(cfg, w', t) && Apart(s', t)
  {
    HandlesBelow(w, t.tasks);
    assert forall id | id in Ids(t.tasks) :: id < w.nextTask;
    hide ListOk;
    RelyKeeps(cfg, w, w', t);
  }

  lemma ApartSymmetric(s: Session, t: Session)
    ensures Apart(s, t) <==> Apart(t, s)
  {
  }

  lemma IdleGood(cfg: Limits, w: World, s: Session)
    requires Inv(cfg, w, s)
    ensures Good(cfg, w, s, w, s)
  {
    HandlesBelow(w, s.tasks);
  }

  lemma DestroyedGood(cfg: Limits, w: World, s: Session, c: Connection)
    requires Inv(cfg, w, s) && Good(cfg, w, s, c.world, c.session) && c.session.tasks == []
    ensures Destroy(c).world == c.world && Destroy(c).session == c.session && !Destroy(c).live
  {
  }

  /** A whole round of the loop, the end of the session included. */
  lemma RoundGood(cfg: Limits, c: Connection, e: Event)
    requires Inv(cfg, c.world, c.session) && (!c.live ==> c.session.tasks == []) && !e.Others?
    ensures var c' := Step(cfg, c, e);
      Good(cfg, c.world, c.session, c'.world, c'.session) && (!c'.live ==> c'.session.tasks == [])
  {
    IdleGood(cfg, c.world, c.session);
    CleanupGood(cfg, c.world, c.session);
    if e.Frame? {
      DispatchGood(cfg, c.world, c.session, e.command);
      var p := Process(cfg, c, e.command);
      assert !p.session.authenticated ==> p.session.tasks == [];
      if !p.session.authenticated { DestroyedGood(cfg, c.world, c.session, p); }
    }
    hide Good, Dispatch, Inv;
  }

  lemma OtherSlots(cfg: Limits, v: State, i: nat, c: Connection, j: nat)
    requires ServerInv(cfg, v) && i < |v.slots| && j < |v.slots| && j != i
    requires Good(cfg, v.world, v.slots[i].session, c.world, c.session)
    ensures var t := v.slots[j].session;
      Rely(v.world, c.world, Handles(t.tasks)) && Inv(cfg, c.world, t) && Apart(c.session, t) && Apart(t, c.session)
  {
    ApartSymmetric(v.slots[i].session, v.slots[j].session);
    OthersKept(cfg, v.world, v.slots[i].session, c.world, c.session, v.slots[j].session);
    ApartSymmetric(c.session, v.slots[j].session);
  }

  lemma RoundKeeps(cfg: Limits, v: State, i: nat, e: Event)
    requires ServerInv(cfg, v) && i < |v.slots| && !e.Others?
    ensures ServerInv(cfg, Act(cfg, v, Round(i, e)))
    ensures forall j | 0 <= j < |v.slots| && j != i ::
      Rely(v.world, Act(cfg, v, Round(i, e)).world, Handles(v.slots[j].session.tasks))
  {
    var c := Step(cfg, Part(v, i), e);
    RoundGood(cfg, Part(v, i), e);
    forall j | 0 <= j < |v.slots| && j != i
      ensures var t := v.slots[j].session;
        Rely(v.world, c.world, Handles(t.tasks)) && Inv(cfg, c.world, t) && Apart(c.session, t) && Apart(t, c.session)
    {
      OtherSlots(cfg, v, i, c, j);
    }
    hide Apart, ListOk, Rely, Step, Spares;
  }

  lemma AcceptKeeps(cfg: Limits, v: State)
    requires ServerInv(cfg, v)
    ensures ServerInv(cfg, Act(cfg, v, Accept))
  {
    assert Inv(cfg, v.world, NEW_SESSION);
    assert forall s :: Apart(s, NEW_SESSION);
    hide Apart, Inv;
  }

  lemma ActKeeps(cfg: Limits, v: State, a: Action)
    requires ServerInv(cfg, v) && Possible(a)
    ensures ServerInv(cfg, Act(cfg, v, a))
  {
    if a.Accept? {
      AcceptKeeps(cfg, v);
    } else if a.i < |v.slots| {
      RoundKeeps(cfg, v, a.i, a.event);
    }
  }

  // --- Runs ---

  /** Whatever the clients send and however their requests interleave. */
  lemma {:induction false} ServerSafe(cfg: Limits, v: State, actions: seq<Action>)
    requires ServerInv(cfg, v) && forall k | 0 <= k < |actions| :: Possible(actions[k])
    ensures ServerInv(cfg, ActAll(cfg, v, actions))
    decreases |actions|
  {
    if actions != [] {
      ActKeeps(cfg, v, actions[0]);
      ServerSafe(cfg, Act(cfg, v, actions[0]), actions[1..]);
    }
  }

  /** The run as session `i` sees it: its own rounds, and the worlds the others leave behind. */
  function Seen(cfg: Limits, v: State, i: nat, actions: seq<Action>): seq<Event>
    decreases |actions|
  {
    if actions == [] then []
    else
      var a := actions[0];
      [if a.Round? && a.i == i then a.event else Others(Act(cfg, v, a).world)]
      + Seen(cfg, Act(cfg, v, a), i, actions[1..])
  }

  /** The log takes no part in what a round does. */
  lemma StepIgnoresLog(cfg: Limits, c: Connection, d: Connection, e: Event)
    requires c.world == d.world && c.session == d.session && c.live == d.live
    ensures var (c', d') := (Step(cfg, c, e), Step(cfg, d, e));
      c'.world == d'.world && c'.session == d'.session && c'.live == d'.live
  {
    hide Dispatch, CloseAll, ClosingAll;
  }

  /** Connection `c` is session `i` of the server, with its log. */
  predicate IsPart(c: Connection, v: State, i: nat) {
    i < |v.slots| && c.world == v.world && c.session == v.slots[i].session && c.live == v.slots[i].live
  }

  lemma SeenStep(cfg: Limits, v: State, i: nat, a: Action, c: Connection)
    requires ServerInv(cfg, v) && Possible(a) && IsPart(c, v, i)
    ensures var e := if a.Round? && a.i == i then a.event else Others(Act(cfg, v, a).world);
      && IsPart(Step(cfg, c, e), Act(cfg, v, a), i)
      && (e.Others? ==> Rely(c.world, e.world, Handles(c.session.tasks)))
  {
    if a.Round? && a.i == i {
      StepIgnoresLog(cfg, c, Part(v, i), a.event);
    } else if a.Round? && a.i < |v.slots| {
      RoundKeeps(cfg, v, a.i, a.event);
    }
    hide ServerInv, Dispatch;
  }

  /**
   In every run of a server, what session `i` goes through is a fair run of a connection: the others never do more than
   it relies on.
   */
  lemma {:induction false} SeenIsFair(cfg: Limits, v: State, i: nat, actions: seq<Action>, c: Connection)
    requires ServerInv(cfg, v) && IsPart(c, v, i)
    requires forall k | 0 <= k < |actions| :: Possible(actions[k])
    ensures Fair(cfg, c, Seen(cfg, v, i, actions))
    ensures IsPart(Run(cfg, c, Seen(cfg, v, i, actions)), ActAll(cfg, v, actions), i)
    decreases |actions|
  {
    if actions != [] {
      var a, rest := actions[0], actions[1..];
      var e := if a.Round? && a.i == i then a.event else Others(Act(cfg, v, a).world);
      var v' := Act(cfg, v, a);
      SeenStep(cfg, v, i, a, c);
      ActKeeps(cfg, v, a);
      SeenIsFair(cfg, v', i, rest, Step(cfg, c, e));
      var seen := Seen(cfg, v, i, actions);
      assert seen == [e] + Seen(cfg, v', i, rest) && seen[0] == e && seen[1..] == Seen(cfg, v', i, rest);
      hide ServerInv, Act, Step, Rely, IsPart, Seen;
    }
  }

  /**
   A session from its arrival on, among all others: its handles are accounted for, its effects authorised, its writes
   go to files it opened under RW, and its invariant holds.
   */
  lemma EverySession(cfg: Limits, v: State, actions: seq<Action>)
    requires ServerInv(cfg, v) && forall k | 0 <= k < |actions| :: Possible(actions[k])
    ensures var i, arrived := |v.slots|, Act(cfg, v, Accept);
      var c := Run(cfg, Connect(v.world), Seen(cfg, arrived, i, actions));
      IsPart(c, ActAll(cfg, arrived, actions), i) && Sound(cfg, c)
  {
    var i, arrived := |v.slots|, Act(cfg, v, Accept);
    AcceptKeeps(cfg, v);
    SeenIsFair(cfg, arrived, i, actions, Connect(v.world));
    ConnectSound(cfg, v.world);
    RunSound(cfg, Connect(v.world), Seen(cfg, arrived, i, actions));
  }

  // --- The task id counter ---

  lemma DispatchCounter(cfg: Limits, w: World, s: Session, c: Command)
    ensures w.nextTask <= Dispatch(cfg, w, s, c).world.nextTask <= w.nextTask + 1
  {
    hide Position, Put, Without, Unsafe, WriteAt, Read, Writable, Write, OpenWrite;
    hide CloseAll, ClosingAll, WriteGate, Content;
  }

  lemma StepCounter(cfg: Limits, c: Connection, e: Event)
    requires !e.Others?
    ensures c.world.nextTask <= Step(cfg, c, e).world.nextTask <= c.world.nextTask + 1
  {
    if e.Frame? { DispatchCounter(cfg, c.world, c.session, e.command); }
    hide Dispatch, CloseAll, ClosingAll;
  }

  /**
   A round gives out at most one task id. So in any run of fewer than 2^32 rounds from a new counter all ids fit the
   32 bits that they have in the code.
   */
  lemma {:induction false} CounterBound(cfg: Limits, v: State, actions: seq<Action>)
    requires forall i | 0 <= i < |actions| :: Possible(actions[i])
    ensures v.world.nextTask <= ActAll(cfg, v, actions).world.nextTask <= v.world.nextTask + |actions|
    decreases |actions|
  {
    hide Step;
    if actions != [] {
      var a := actions[0];
      assert Possible(a);
      if a.Round? && a.i < |v.slots| { StepCounter(cfg, Part(v, a.i), a.event); }
      CounterBound(cfg, Act(cfg, v, a), actions[1..]);
    }
  }
}
