/** dropbox-client.c: four latches tie the hook connection and the command connection into one session. */
module Session {

  datatype Note = CommandConnected | CommandDisconnected
  datatype Firing = OnConnect | OnDisconnect

  /** The latches, both connections, the reset tokens waiting for the command thread, the notifications it has
      posted to the main loop, what has been announced, and how often each side came and went. */
  datatype Client = Client(
    hookUp: bool, commandUp: bool,
    hookDisconnect: bool, commandDisconnect: bool,
    hookConnect: bool, commandConnect: bool,
    tokens: nat, inbox: seq<Note>, fired: seq<Firing>,
    hookConnects: nat, hookDrops: nat, commandConnects: nat, commandDrops: nat)

  // ----- the handlers

  function AfterHookOnConnect(c: Client): (r: Client)
    ensures r.hookDrops == c.hookDrops && r.commandDrops == c.commandDrops
  {
    if c.commandConnect
    then c.(hookConnect := false, commandConnect := false, fired := c.fired + [OnConnect])
    else c.(hookConnect := true)
  }

  function AfterCommandOnConnect(c: Client): (r: Client)
    ensures r.hookDrops == c.hookDrops && r.commandDrops == c.commandDrops
  {
    if c.hookConnect
    then c.(hookConnect := false, commandConnect := false, fired := c.fired + [OnConnect])
    else c.(commandConnect := true)
  }

  function AfterHookOnDisconnect(c: Client): (r: Client)
    ensures r.hookDrops == c.hookDrops && r.commandDrops == c.commandDrops
  {
    if c.commandDisconnect
    then c.(hookDisconnect := false, commandDisconnect := false, fired := c.fired + [OnDisconnect])
    else c.(hookDisconnect := true, tokens := c.tokens + if c.commandUp then 1 else 0)
  }

  /** watch_killer and the reconnect it starts; `back` when that succeeds at once. */
  function AfterWatchKiller(c: Client, back: bool): (r: Client)
    ensures r.hookDrops == c.hookDrops + 1 && r.commandDrops == c.commandDrops
  {
    var c1 := AfterHookOnDisconnect(c.(hookUp := false, hookDrops := c.hookDrops + 1));
    if back then AfterHookUp(c1) else c1
  }

  function AfterHookUp(c: Client): (r: Client)
    ensures r.hookDrops == c.hookDrops && r.commandDrops == c.commandDrops
  {
    AfterHookOnConnect(c.(hookUp := true, hookConnects := c.hookConnects + 1))
  }

  function AfterCommandOnDisconnect(c: Client, back: bool): (r: Client)
    ensures r.hookDrops >= c.hookDrops && r.commandDrops == c.commandDrops
  {
    if c.hookDisconnect
    then c.(hookDisconnect := false, commandDisconnect := false, fired := c.fired + [OnDisconnect])
    else if c.hookUp then AfterWatchKiller(c.(commandDisconnect := true), back)
    else c.(commandDisconnect := true)
  }

  function AfterDeliver(c: Client, back: bool): (r: Client)
    requires c.inbox != []
    ensures r.hookDrops >= c.hookDrops && r.commandDrops == c.commandDrops
  {
    var c1 := c.(inbox := c.inbox[1..]);
    match c.inbox[0]
    case CommandConnected => AfterCommandOnConnect(c1)
    case CommandDisconnected => AfterCommandOnDisconnect(c1, back)
  }

  const SETUP := Client(false, false, false, false, false, false, 0, [], [], 0, 0, 0, 0)

  // ----- the code

  class DropboxClient {
    var hookUp: bool
    var commandUp: bool
    var hookDisconnectCalled: bool
    var commandDisconnectCalled: bool
    var hookConnectCalled: bool
    var commandConnectCalled: bool
    var tokens: nat
    var inbox: seq<Note>
    var fired: seq<Firing>
    ghost var hookConnects: nat
    ghost var hookDrops: nat
    ghost var commandConnects: nat
    ghost var commandDrops: nat

    ghost function Model(): Client
      reads this
    {
      Client(hookUp, commandUp, hookDisconnectCalled, commandDisconnectCalled, hookConnectCalled,
             commandConnectCalled, tokens, inbox, fired, hookConnects, hookDrops, commandConnects, commandDrops)
    }

    constructor ()
      ensures Model() == SETUP
    {
      hookUp, commandUp := false, false;
      hookDisconnectCalled, commandDisconnectCalled := false, false;
      hookConnectCalled, commandConnectCalled := false, false;
      tokens, inbox, fired := 0, [], [];
      hookConnects, hookDrops, commandConnects, commandDrops := 0, 0, 0, 0;
    }

    method HookOnConnect()
      modifies this
      ensures Model() == AfterHookOnConnect(old(Model()))
    {
      hookConnectCalled := true;
      if commandConnectCalled {
        fired := fired + [OnConnect];
        hookConnectCalled, commandConnectCalled := false, false;
      }
    }

    method CommandOnConnect()
      modifies this
      ensures Model() == AfterCommandOnConnect(old(Model()))
    {
      commandConnectCalled := true;
      if hookConnectCalled {
        fired := fired + [OnConnect];
        hookConnectCalled, commandConnectCalled := false, false;
      }
    }

    method HookOnDisconnect()
      modifies this
      ensures Model() == AfterHookOnDisconnect(old(Model()))
    {
      hookDisconnectCalled := true;
      if commandDisconnectCalled {
        fired := fired + [OnDisconnect];
        hookDisconnectCalled, commandDisconnectCalled := false, false;
      } else {
        CommandForceReconnect();
      }
    }

    method CommandForceReconnect()
      modifies this`tokens
      ensures tokens == old(tokens) + if commandUp then 1 else 0
    {
      if commandUp {
        tokens := tokens + 1;
      }
    }

    method CommandOnDisconnect(back: bool)
      modifies this
      ensures Model() == AfterCommandOnDisconnect(old(Model()), back)
    {
      commandDisconnectCalled := true;
      if hookDisconnectCalled {
        fired := fired + [OnDisconnect];
        hookDisconnectCalled, commandDisconnectCalled := false, false;
      } else {
        HooksForceReconnect(back);
      }
    }

    /** Removing the event source runs watch_killer at once. */
    method HooksForceReconnect(back: bool)
      modifies this
      ensures Model() == if old(hookUp) then AfterWatchKiller(old(Model()), back) else old(Model())
    {
      if hookUp {
        WatchKiller(back);
      }
    }

    method WatchKiller(back: bool)
      requires hookUp
      modifies this
      ensures Model() == AfterWatchKiller(old(Model()), back)
    {
      hookUp := false;
      hookDrops := hookDrops + 1;
      HookOnDisconnect();
      if back {
        HookConnected();
      }
    }

    /** try_to_connect has succeeded. */
    method HookConnected()
      modifies this
      ensures Model() == AfterHookUp(old(Model()))
    {
      hookUp := true;
      hookConnects := hookConnects + 1;
      HookOnConnect();
    }

    /** The main loop runs the oldest notification the command thread has posted. */
    method Deliver(back: bool)
      requires inbox != []
      modifies this
      ensures Model() == AfterDeliver(old(Model()), back)
    {
      var note := inbox[0];
      inbox := inbox[1..];
      match note
      case CommandConnected => CommandOnConnect();
      case CommandDisconnected => CommandOnDisconnect(back);
    }
  }

  // ----- runs

  datatype Event =
    | HookDrops(back: bool)
    | HookReturns
    | CommandDrops(kept: nat)
    | CommandReturns
    | Delivery(back: bool)

  predicate Enabled(c: Client, e: Event) {
    match e
    case HookDrops(_) => c.hookUp
    case HookReturns => !c.hookUp
    case CommandDrops(kept) => c.commandUp && kept <= c.tokens
    case CommandReturns => !c.commandUp
    case Delivery(_) => c.inbox != []
  }

  /** The command thread drains its queue, tokens included, when it gives a connection up; those pushed after
      the last look at the queue are kept for the next connection. */
  function Next(c: Client, e: Event): Client
    requires Enabled(c, e)
  {
    match e
    case HookDrops(back) => AfterWatchKiller(c, back)
    case HookReturns => AfterHookUp(c)
    case CommandDrops(kept) => c.(commandUp := false, tokens := kept, inbox := c.inbox + [CommandDisconnected],
                                  commandDrops := c.commandDrops + 1)
    case CommandReturns => c.(commandUp := true, inbox := c.inbox + [CommandConnected],
                              commandConnects := c.commandConnects + 1)
    case Delivery(back) => AfterDeliver(c, back)
  }

  ghost predicate Run(c: Client, events: seq<Event>, last: Client)
    decreases |events|
  {
    if events == [] then c == last
    else Enabled(c, events[0]) && Run(Next(c, events[0]), events[1..], last)
  }

  function Count(fired: seq<Firing>, f: Firing): nat {
    if fired == [] then 0 else Count(fired[..|fired| - 1], f) + if fired[|fired| - 1] == f then 1 else 0
  }

  function Posted(inbox: seq<Note>, n: Note): nat {
    if inbox == [] then 0 else (if inbox[0] == n then 1 else 0) + Posted(inbox[1..], n)
  }

  // ----- whatever happens

  /** No latch pair is fully set at rest, and the session never announces more connects than either side made,
      nor more disconnects than either side had. */
  ghost predicate Sound(c: Client) {
    && !(c.hookConnect && c.commandConnect) && !(c.hookDisconnect && c.commandDisconnect)
    && Count(c.fired, OnConnect) + (if c.hookConnect then 1 else 0) <= c.hookConnects
    && Count(c.fired, OnConnect) + (if c.commandConnect then 1 else 0) 
         + Posted(c.inbox, CommandConnected) <= c.commandConnects
    && Count(c.fired, OnDisconnect) + (if c.hookDisconnect then 1 else 0) <= c.hookDrops
    && Count(c.fired, OnDisconnect) + (if c.commandDisconnect then 1 else 0)
         + Posted(c.inbox, CommandDisconnected) <= c.commandDrops
  }

  lemma CountSnoc(fired: seq<Firing>, f: Firing, g: Firing)
    ensures Count(fired + [f], g) == Count(fired, g) + if f == g then 1 else 0
  {
    assert (fired + [f])[..|fired|] == fired;
  }

  lemma {:induction false} PostedSnoc(inbox: seq<Note>, m: Note, n: Note)
    ensures Posted(inbox + [m], n) == Posted(inbox, n) + if m == n then 1 else 0
  {
    if inbox == [] {
      assert [m][1..] == [];
    } else {
      assert (inbox + [m])[1..] == inbox[1..] + [m];
      PostedSnoc(inbox[1..], m, n);
    }
  }

  lemma PostedHead(inbox: seq<Note>)
    requires inbox != []
    ensures Posted(inbox, inbox[0]) == 1 + Posted(inbox[1..], inbox[0])
    ensures forall n :: n != inbox[0] ==> Posted(inbox, n) == Posted(inbox[1..], n)
  {
  }

  lemma HookUpSound(c: Client)
    requires Sound(c)
    ensures Sound(AfterHookUp(c))
  {
    hide Count, Posted;
    CountSnoc(c.fired, OnConnect, OnConnect);
    CountSnoc(c.fired, OnConnect, OnDisconnect);
  }

  lemma WatchKillerSound(c: Client, back: bool)
    requires Sound(c)
    ensures Sound(AfterWatchKiller(c, back))
  {
    hide Count, Posted, AfterHookUp;
    CountSnoc(c.fired, OnDisconnect, OnConnect);
    CountSnoc(c.fired, OnDisconnect, OnDisconnect);
    HookUpSound(AfterHookOnDisconnect(c.(hookUp := false, hookDrops := c.hookDrops + 1)));
  }

  lemma DeliverConnectedSound(c: Client, back: bool)
    requires Sound(c) && c.inbox != [] && c.inbox[0] == CommandConnected
    ensures Sound(AfterDeliver(c, back))
  {
    PostedHead(c.inbox);
    hide Count, Posted;
    CountSnoc(c.fired, OnConnect, OnConnect);
    CountSnoc(c.fired, OnConnect, OnDisconnect);
  }

  lemma DeliverDisconnectedSound(c: Client, back: bool)
    requires Sound(c) && c.inbox != [] && c.inbox[0] == CommandDisconnected
    ensures Sound(AfterDeliver(c, back))
  {
    PostedHead(c.inbox);
    hide Count, Posted, AfterWatchKiller;
    if c.hookDisconnect {
      CountSnoc(c.fired, OnDisconnect, OnConnect);
      CountSnoc(c.fired, OnDisconnect, OnDisconnect);
    } else if c.hookUp {
      WatchKillerSound(c.(inbox := c.inbox[1..], commandDisconnect := true), back);
    }
  }

  lemma StepSound(c: Client, e: Event)
    requires Sound(c) && Enabled(c, e)
    ensures Sound(Next(c, e))
  {
    hide Count, Posted, AfterWatchKiller, AfterHookUp, AfterDeliver;
    match e
    case HookDrops(back) => WatchKillerSound(c, back);
    case HookReturns => HookUpSound(c);
    case CommandDrops(_) =>
      PostedSnoc(c.inbox, CommandDisconnected, CommandConnected);
      PostedSnoc(c.inbox, CommandDisconnected, CommandDisconnected);
    case CommandReturns =>
      PostedSnoc(c.inbox, CommandConnected, CommandConnected);
      PostedSnoc(c.inbox, CommandConnected, CommandDisconnected);
    case Delivery(back) =>
      if c.inbox[0] == CommandConnected {
        DeliverConnectedSound(c, back);
      } else {
        DeliverDisconnectedSound(c, back);
      }
  }

  lemma {:induction false} RunSound(c: Client, events: seq<Event>, last: Client)
    requires Sound(c) && Run(c, events, last)
    ensures Sound(last)
    decreases |events|
  {
    if events != [] {
      StepSound(c, events[0]);
      RunSound(Next(c, events[0]), events[1..], last);
    }
  }

  /** From set-up on, whatever comes and goes: at rest no latch pair is fully set, and the session never
      announces more connects than either side made, nor more disconnects than either side had. */
  lemma NeverMoreAnnouncements(events: seq<Event>, c: Client)
    requires Run(SETUP, events, c)
    ensures !(c.hookConnect && c.commandConnect) && !(c.hookDisconnect && c.commandDisconnect)
    ensures Count(c.fired, OnConnect) <= c.hookConnects && Count(c.fired, OnConnect) <= c.commandConnects
    ensures Count(c.fired, OnDisconnect) <= c.hookDrops && Count(c.fired, OnDisconnect) <= c.commandDrops
  {
    assert Sound(SETUP);
    hide Run, Count, Posted;
    RunSound(SETUP, events, c);
  }

  // ----- the first connection

  /** How far the first connection has got while nothing has dropped. */
  ghost predicate Opening(c: Client) {
    var delivered := c.commandUp && c.inbox == [];
    && c.hookDrops == 0 && c.commandDrops == 0 && !c.hookDisconnect && !c.commandDisconnect && c.tokens == 0
    && (c.inbox == [] || (c.commandUp && c.inbox == [CommandConnected]))
    && (c.hookConnect <==> c.hookUp && !delivered) && (c.commandConnect <==> delivered && !c.hookUp)
    && c.fired == if c.hookUp && delivered then [OnConnect] else []
  }

  lemma StepOpening(c: Client, e: Event)
    requires Opening(c) && Enabled(c, e) && Next(c, e).hookDrops == 0 && Next(c, e).commandDrops == 0
    ensures Opening(Next(c, e))
  {
  }

  lemma {:induction false} RunOpening(c: Client, events: seq<Event>, last: Client)
    requires Opening(c) && Run(c, events, last) && last.hookDrops == 0 && last.commandDrops == 0
    ensures Opening(last)
    decreases |events|
  {
    hide Next, Opening;
    if events != [] {
      StepDropsGrow(c, events[0]);
      DropsGrow(Next(c, events[0]), events[1..], last);
      StepOpening(c, events[0]);
      RunOpening(Next(c, events[0]), events[1..], last);
    }
  }

  /** From set-up on, while neither side drops: whichever side comes first, the session is announced once, exactly
      when both sides are up and the command side's connection has been delivered, and it is settled then. */
  lemma FirstConnectAnnounced(events: seq<Event>, c: Client)
    requires Run(SETUP, events, c) && c.hookDrops == 0 && c.commandDrops == 0
    ensures c.fired == if c.hookUp && c.commandUp && c.inbox == [] then [OnConnect] else []
    ensures Settled(c) <==> c.fired == [OnConnect]
  {
    hide Run;
    assert Opening(SETUP);
    RunOpening(SETUP, events, c);
  }

  // ----- one interruption

  /** Both sides connected, nothing latched, nothing in flight. */
  ghost predicate Settled(c: Client) {
    c.hookUp && c.commandUp && c.inbox == [] && c.tokens == 0
    && !c.hookDisconnect && !c.commandDisconnect && !c.hookConnect && !c.commandConnect
  }

  /** The command side has dropped and its drop has been delivered. */
  ghost predicate Told(s: Client, c: Client) {
    c.commandDrops == s.commandDrops + 1 && CommandDisconnected !in c.inbox
  }

  /** And so has its return. */
  ghost predicate Retold(s: Client, c: Client) {
    Told(s, c) && c.commandUp && c.inbox == []
  }

  /** How far one interruption of a settled session has got: the command side has dropped at most once, the hook
      side any number of times. */
  ghost predicate Interrupted(s: Client, c: Client) {
    var dropped, told, retold := c.commandDrops == s.commandDrops + 1, Told(s, c), Retold(s, c);
    && (if dropped
        then c.inbox == (if told then [] else [CommandDisconnected])
                      + (if c.commandUp && !retold then [CommandConnected] else [])
        else c.commandDrops == s.commandDrops && c.commandUp && c.inbox == [] && (c.tokens > 0 <==> c.hookDisconnect))
    && !c.commandDisconnect
    && (!told ==> (c.hookDisconnect <==> c.hookDrops > s.hookDrops))
    && (!told && !c.hookDisconnect ==> c.hookUp && !c.hookConnect)
    && (c.hookUp && !retold && (told || c.hookDisconnect) ==> c.hookConnect)
    && (c.commandConnect ==> retold && !c.hookUp && !c.hookConnect)
    && c.fired == s.fired + (if told then [OnDisconnect] else [])
                + (if retold && !c.commandConnect then [OnConnect] else [])
    && c.hookDrops >= s.hookDrops + (if told || !c.hookUp || c.hookConnect then 1 else 0)
                    + (if c.hookConnect && !c.hookUp then 1 else 0)
  }

  /** No latch has been left behind: none that only a further command drop, or nothing, would clear. */
  ghost predicate Clean(s: Client, c: Client) {
    (Told(s, c) ==> !c.hookDisconnect) && (Retold(s, c) ==> !c.hookConnect && c.commandConnect == !c.hookUp)
  }

  ghost predicate Marked(s: Client, c: Client) {
    Told(s, c) && (c.hookDisconnect || (Retold(s, c) && !c.commandConnect && (c.hookUp ==> c.hookConnect)))
  }

  /** The two steps that leave a latch behind: the hook side drops while the command side is down and its drop
      has been delivered; or the command side's return is delivered while the hook side, having returned once,
      is down again. */
  predicate Mistimed(c: Client, e: Event) {
    || (e.HookDrops? && !c.commandUp && CommandDisconnected !in c.inbox)
    || (e.Delivery? && c.inbox != [] && c.inbox[0] == CommandConnected && !c.hookUp && c.hookConnect)
  }

  /** No step of the run is mistimed. */
  ghost predicate WellTimed(c: Client, events: seq<Event>)
    decreases |events|
  {
    events == [] ||
    (Enabled(c, events[0]) && !Mistimed(c, events[0]) && WellTimed(Next(c, events[0]), events[1..]))
  }

  /** Everything is up and delivered. */
  ghost predicate Rested(c: Client) {
    c.hookUp && c.commandUp && c.inbox == [] && c.tokens == 0
  }

  lemma HookStepInterrupted(s: Client, c: Client, e: Event)
    requires Interrupted(s, c) && Enabled(c, e) && (e.HookDrops? || e.HookReturns?)
    ensures Interrupted(s, Next(c, e))
  {
  }

  lemma CommandStepInterrupted(s: Client, c: Client, e: Event)
    requires Interrupted(s, c) && Enabled(c, e) && (e.CommandDrops? || e.CommandReturns?)
    requires Next(c, e).commandDrops <= s.commandDrops + 1
    ensures Interrupted(s, Next(c, e))
  {
  }

  lemma ReturnInterrupted(s: Client, c: Client, e: Event)
    requires Interrupted(s, c) && Enabled(c, e) && e.Delivery? && c.inbox[0] == CommandConnected
    ensures Interrupted(s, Next(c, e))
  {
    hide AfterCommandOnDisconnect;
  }

  lemma DropInterrupted(s: Client, c: Client, e: Event)
    requires Interrupted(s, c) && Enabled(c, e) && e.Delivery? && c.inbox[0] == CommandDisconnected
    ensures Interrupted(s, Next(c, e))
  {
    hide AfterCommandOnConnect;
  }

  lemma DeliveryInterrupted(s: Client, c: Client, e: Event)
    requires Interrupted(s, c) && Enabled(c, e) && e.Delivery?
    ensures Interrupted(s, Next(c, e))
  {
    hide Interrupted, Next;
    if c.inbox[0] == CommandConnected {
      ReturnInterrupted(s, c, e);
    } else {
      DropInterrupted(s, c, e);
    }
  }

  lemma StepInterrupted(s: Client, c: Client, e: Event)
    requires Interrupted(s, c) && Enabled(c, e) && Next(c, e).commandDrops <= s.commandDrops + 1
    ensures Interrupted(s, Next(c, e))
  {
    hide *;
    match e
    case Delivery(_) => DeliveryInterrupted(s, c, e);
    case HookDrops(_) => HookStepInterrupted(s, c, e);
    case HookReturns => HookStepInterrupted(s, c, e);
    case CommandDrops(_) => CommandStepInterrupted(s, c, e);
    case CommandReturns => CommandStepInterrupted(s, c, e);
  }

  /** A step that is not mistimed leaves no latch behind, or queues a token that will make the command side drop
      once more; a mistimed one does leave a latch, and it stays. */
  lemma StepClean(s: Client, c: Client, e: Event)
    requires Interrupted(s, c) && Enabled(c, e) && Next(c, e).commandDrops <= s.commandDrops + 1
    requires Clean(s, c)
    ensures if Mistimed(c, e) then Marked(s, Next(c, e)) else Clean(s, Next(c, e)) || DropsAgain(s, Next(c, e))
  {
  }

  lemma StepMarked(s: Client, c: Client, e: Event)
    requires Interrupted(s, c) && Enabled(c, e) && Next(c, e).commandDrops <= s.commandDrops + 1
    requires Marked(s, c)
    ensures Marked(s, Next(c, e))
  {
  }

  /** A token waits for a command connection that has already been back once. */
  ghost predicate DropsAgain(s: Client, c: Client) {
    Told(s, c) && c.commandUp && c.tokens > 0
  }

  lemma StepDropsAgain(s: Client, c: Client, e: Event)
    requires Interrupted(s, c) && Enabled(c, e) && Next(c, e).commandDrops <= s.commandDrops + 1
    requires DropsAgain(s, c)
    ensures DropsAgain(s, Next(c, e))
  {
  }

  lemma StepDropsGrow(c: Client, e: Event)
    requires Enabled(c, e)
    ensures c.hookDrops <= Next(c, e).hookDrops && c.commandDrops <= Next(c, e).commandDrops
  {
    hide AfterWatchKiller, AfterHookUp, AfterDeliver;
  }

  lemma {:induction false} DropsGrow(c: Client, events: seq<Event>, last: Client)
    requires Run(c, events, last)
    ensures c.hookDrops <= last.hookDrops && c.commandDrops <= last.commandDrops
    decreases |events|
  {
    hide Next;
    if events != [] {
      StepDropsGrow(c, events[0]);
      DropsGrow(Next(c, events[0]), events[1..], last);
    }
  }

  lemma {:induction false} RunInterrupted(s: Client, c: Client, events: seq<Event>, last: Client)
    requires Interrupted(s, c) && Run(c, events, last) && last.commandDrops <= s.commandDrops + 1
    ensures Interrupted(s, last)
    ensures Marked(s, c) ==> Marked(s, last)
    ensures DropsAgain(s, c) ==> DropsAgain(s, last)
    decreases |events|
  {
    hide Interrupted, Next, Marked, DropsAgain;
    if events != [] {
      var d := Next(c, events[0]);
      DropsGrow(d, events[1..], last);
      StepInterrupted(s, c, events[0]);
      if Marked(s, c) {
        StepMarked(s, c, events[0]);
      }
      if DropsAgain(s, c) {
        StepDropsAgain(s, c, events[0]);
      }
      RunInterrupted(s, d, events[1..], last);
    }
  }

  lemma RestedMeans(s: Client, c: Client)
    requires Interrupted(s, c) && Rested(c)
    ensures !DropsAgain(s, c)
    ensures Clean(s, c) ==> Settled(c)
    ensures Marked(s, c) ==> !Settled(c)
    ensures c.fired == s.fired + if c.commandDrops == s.commandDrops then [] else [OnDisconnect, OnConnect]
  {
  }

  lemma {:induction false} SettledIffWellTimed(s: Client, c: Client, events: seq<Event>, last: Client)
    requires Interrupted(s, c) && Clean(s, c)
    requires Run(c, events, last) && last.commandDrops <= s.commandDrops + 1 && Rested(last)
    ensures Settled(last) <==> WellTimed(c, events)
    decreases |events|
  {
    hide Interrupted, Next, Marked, DropsAgain, Clean, Settled, Mistimed, Rested;
    RunInterrupted(s, c, events, last);
    RestedMeans(s, last);
    if events != [] {
      var e, d := events[0], Next(c, events[0]);
      DropsGrow(d, events[1..], last);
      StepInterrupted(s, c, e);
      StepClean(s, c, e);
      RunInterrupted(s, d, events[1..], last);
      if !Mistimed(c, e) {
        SettledIffWellTimed(s, d, events[1..], last);
      }
    }
  }

  lemma SettledStart(s: Client)
    requires Settled(s)
    ensures Interrupted(s, s) && Clean(s, s)
  {
  }

  /** One interruption of a settled session, in which the command side drops at most once and the hook side any
      number of times, whichever fails first. By the time everything is up and delivered again, one disconnect
      and then one connect has been announced; before, nothing else. And the session is settled again, ready
      for the next interruption, exactly when no step was mistimed. */
  lemma InterruptionAnnouncedOnce(s: Client, events: seq<Event>, c: Client)
    requires Settled(s) && Run(s, events, c) && c.commandDrops <= s.commandDrops + 1
    ensures c.fired == s.fired || c.fired == s.fired + [OnDisconnect] || c.fired == s.fired + [OnDisconnect, OnConnect]
    ensures Rested(c) ==>
              c.fired == s.fired + if c.commandDrops == s.commandDrops then [] else [OnDisconnect, OnConnect]
    ensures Rested(c) ==> (Settled(c) <==> WellTimed(s, events))
  {
    hide Run, Clean, WellTimed;
    SettledStart(s);
    RunInterrupted(s, s, events, c);
    if Rested(c) {
      RestedMeans(s, c);
      SettledIffWellTimed(s, s, events, c);
    }
  }

  // ----- neither side drops twice

  ghost predicate Once(s: Client, c: Client) {
    c.hookDrops <= s.hookDrops + 1 && c.commandDrops <= s.commandDrops + 1
  }

  lemma OnceStepIsTimed(s: Client, c: Client, e: Event)
    requires Interrupted(s, c) && Enabled(c, e) && Once(s, Next(c, e)) && c.hookDrops <= Next(c, e).hookDrops
    ensures !Mistimed(c, e)
  {
  }

  lemma {:induction false} OnceIsWellTimed(s: Client, c: Client, events: seq<Event>, last: Client)
    requires Interrupted(s, c) && Run(c, events, last) && Once(s, last)
    ensures WellTimed(c, events)
    decreases |events|
  {
    hide Interrupted, Next, Mistimed;
    if events != [] {
      var d := Next(c, events[0]);
      DropsGrow(d, events[1..], last);
      StepInterrupted(s, c, events[0]);
      StepDropsGrow(c, events[0]);
      OnceStepIsTimed(s, c, events[0]);
      OnceIsWellTimed(s, d, events[1..], last);
    }
  }

  /** In particular, if neither side drops a second time before both are back, everything is settled again with
      exactly these two announcements. */
  lemma OneInterruptionOneAnnouncement(s: Client, events: seq<Event>, c: Client)
    requires Settled(s) && Run(s, events, c) && Once(s, c)
    ensures c.fired == s.fired || c.fired == s.fired + [OnDisconnect] || c.fired == s.fired + [OnDisconnect, OnConnect]
    ensures c.hookUp && c.commandUp && c.inbox == [] && c.tokens == 0 ==> Settled(c)
    ensures Settled(c) ==>
              if c.hookDrops == s.hookDrops && c.commandDrops == s.commandDrops then c.fired == s.fired
              else c.hookDrops == s.hookDrops + 1 && c.commandDrops == s.commandDrops + 1
                   && c.fired == s.fired + [OnDisconnect, OnConnect]
  {
    hide Run, WellTimed;
    SettledStart(s);
    RunInterrupted(s, s, events, c);
    OnceIsWellTimed(s, s, events, c);
    InterruptionAnnouncedOnce(s, events, c);
  }

  // ----- why the condition is needed

  /** A hook that drops before the command side has ever connected leaves its latch set. */
  lemma EarlyFlapLeavesLatch()
    ensures var a := Next(SETUP, HookReturns);
            var b := Next(a, HookDrops(true));
            b.hookDisconnect && b.hookConnect && b.hookUp && !b.commandUp && b.fired == [] && b.tokens == 0
  {
  }

  /** With that latch set, a command connection that comes, goes and comes back is announced as connect and
      disconnect but its return is not: the hook side was never made to reconnect. */
  lemma StaleLatchLosesConnect(c: Client)
    requires c.hookUp && !c.commandUp && c.inbox == [] && c.tokens == 0
    requires c.hookConnect && c.hookDisconnect && !c.commandConnect && !c.commandDisconnect
    ensures var d := Next(Next(c, CommandReturns), Delivery(false));
            var e := Next(Next(d, CommandDrops(0)), Delivery(false));
            var f := Next(Next(e, CommandReturns), Delivery(false));
            f.fired == c.fired + [OnConnect, OnDisconnect] && f.hookUp && f.commandUp && f.inbox == [] && f.tokens == 0
  {
  }
}
